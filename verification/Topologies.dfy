/** A topology under construction, and the searches over its scope hierarchy. */
module Topologies {

  import opened Common
  import opened Fabric
  import opened Folds
  import opened Ordering
  import opened Forest
  import opened Sweep
  import opened Validation

  const MAX_INCARNATIONS_PER_SOURCE: nat := 4096

  function IdRank(id: Id): seq<int> {
    [id]
  }

  lemma SortedIds(ids: seq<Id>)
    requires SortedBy(ids, IdRank)
    ensures forall i, j | 0 <= i < j < |ids| :: ids[i] <= ids[j]
  {
    forall i, j | 0 <= i < j < |ids| ensures ids[i] <= ids[j] {
      assert LexLeq(IdRank(ids[i]), IdRank(ids[j]));
    }
  }

  /** Equal neighbours in a sorted list are exactly the repetitions. */
  method HasRepetition(ids: seq<Id>) returns (found: bool)
    requires forall i, j | 0 <= i < j < |ids| :: ids[i] <= ids[j]
    ensures found <==> !Distinct(ids)
  {
    var i := 1;
    while i < |ids|
      invariant 1 <= i
      invariant forall j, k | 0 <= j < k < i && k < |ids| :: ids[j] < ids[k]
    {
      if ids[i - 1] == ids[i] {
        return true;
      }
      i := i + 1;
    }
    return false;
  }

  class FabricTopology {
    var generations: map<Id, Generation>
    var sources: map<Id, Source>
    var incarnations: map<Id, Incarnation>
    var scopes: map<Id, Scope>
    var resources: map<Id, Resource>
    var bindings: seq<Binding>
    var flows: map<Id, Flow>
    var paths: map<Id, Path>
    var reservations: map<Id, Reservation>

    /** The document as a value. */
    function View(): Topology
      reads this
    {
      Topology(generations, sources, incarnations, scopes, resources, bindings, flows, paths, reservations)
    }

    /** What every add_* operation keeps. */
    ghost predicate Valid()
      reads this
    {
      Assembled(View()) && |scopes| <= MAX_SCOPES && NIL !in scopes
    }

    constructor ()
      ensures Valid()
      ensures View() == Topology(map[], map[], map[], map[], map[], [], map[], map[], map[])
    {
      generations, sources, incarnations, scopes, resources := map[], map[], map[], map[], map[];
      bindings, flows, paths, reservations := [], map[], map[], map[];
    }

    // ---- adding -------------------------------------------------------------

    /** Files a scope with its members in order. */
    method AddScope(id: Id, scope: Scope) returns (r: Result<(), ErrorCode>)
      requires Valid()
      modifies `scopes
      ensures Valid()
      ensures r.Ok? <==> id != NIL && |scope.name| <= MAX_LABEL && |old(scopes)| < MAX_SCOPES && id !in old(scopes)
                         && scope.parent != Some(id) && Distinct(scope.members)
      ensures r == Err(InvalidArgument) <==> id == NIL
      ensures r == Err(MetadataTooLarge) <==> id != NIL && |scope.name| > MAX_LABEL
      ensures r == Err(CapacityExceeded) <==>
        id != NIL && |scope.name| <= MAX_LABEL && id !in old(scopes) && |old(scopes)| >= MAX_SCOPES
      ensures r == Err(ScopeCycleDetected) <==>
        id != NIL && |scope.name| <= MAX_LABEL && id !in old(scopes) && |old(scopes)| < MAX_SCOPES && scope.parent == Some(id)
      ensures r.Err? ==>
        r.error in {InvalidArgument, MetadataTooLarge, CapacityExceeded, ScopeCycleDetected, DuplicateDefinition} && scopes == old(scopes)
      ensures r.Ok? ==> id in scopes && scopes == old(scopes)[id := scope.(members := scopes[id].members)]
      ensures r.Ok? ==> multiset(scopes[id].members) == multiset(scope.members) && SortedBy(scopes[id].members, IdRank)
    {
      if id == NIL { return Err(InvalidArgument); }
      if |scope.name| > MAX_LABEL { return Err(MetadataTooLarge); }
      if |scopes| >= MAX_SCOPES && id !in scopes { return Err(CapacityExceeded); }
      if id in scopes { return Err(DuplicateDefinition); }
      if scope.parent == Some(id) { return Err(ScopeCycleDetected); }
      var members := Sort(scope.members, IdRank);
      SortedIds(members);
      var repeated := HasRepetition(members);
      if repeated {
        if Distinct(scope.members) { DistinctPermuted(scope.members, members); }
        return Err(DuplicateDefinition);
      }
      DistinctPermuted(members, scope.members);
      scopes := scopes[id := scope.(members := members)];
      return Ok(());
    }

    /** An incarnation that retires before it starts is refused, so its interval is never empty. */
    method AddIncarnation(id: Id, incarnation: Incarnation) returns (r: Result<(), ErrorCode>)
      requires Valid()
      modifies `incarnations
      ensures Valid()
      ensures r.Ok? <==> id != NIL && id !in old(incarnations)
                         && |IncarnationsOf(old(View()), incarnation.source)| < MAX_INCARNATIONS_PER_SOURCE
                         && (incarnation.retiredAt.Some? ==> incarnation.startedAt <= incarnation.retiredAt.value)
      ensures r == Err(DuplicateDefinition) <==> id != NIL && id in old(incarnations)
      ensures r == Err(CapacityExceeded) <==>
        && id != NIL && id !in old(incarnations)
        && |IncarnationsOf(old(View()), incarnation.source)| >= MAX_INCARNATIONS_PER_SOURCE
      ensures r.Err? ==> r.error in {InvalidArgument, DuplicateDefinition, CapacityExceeded}
      ensures incarnations == if r.Ok? then old(incarnations)[id := incarnation] else old(incarnations)
    {
      if id == NIL { return Err(InvalidArgument); }
      if id in incarnations { return Err(DuplicateDefinition); }
      if |IncarnationsOf(View(), incarnation.source)| >= MAX_INCARNATIONS_PER_SOURCE { return Err(CapacityExceeded); }
      if incarnation.retiredAt.Some? && incarnation.retiredAt.value < incarnation.startedAt { return Err(InvalidArgument); }
      incarnations := incarnations[id := incarnation];
      return Ok(());
    }

    method AddBinding(binding: Binding) returns (r: Result<(), ErrorCode>)
      requires Valid()
      modifies `bindings
      ensures Valid()
      ensures r.Ok? <==> binding.resource != NIL && binding.generation != NIL && |old(bindings)| < 4 * MAX_RESOURCES
                         && (binding.validTo.Some? ==> binding.validFrom <= binding.validTo.value)
      ensures r == Err(CapacityExceeded) <==>
        binding.resource != NIL && binding.generation != NIL && |old(bindings)| >= 4 * MAX_RESOURCES
      ensures r.Err? ==> r.error == InvalidArgument || r.error == CapacityExceeded
      ensures bindings == if r.Ok? then old(bindings) + [binding] else old(bindings)
    {
      if binding.resource == NIL || binding.generation == NIL { return Err(InvalidArgument); }
      if |bindings| >= 4 * MAX_RESOURCES { return Err(CapacityExceeded); }
      if binding.validTo.Some? && binding.validTo.value < binding.validFrom { return Err(InvalidArgument); }
      bindings := bindings + [binding];
      return Ok(());
    }

    method AddResource(id: Id, resource: Resource) returns (r: Result<(), ErrorCode>)
      requires Valid()
      modifies `resources
      ensures Valid()
      ensures r.Ok? <==> id != NIL && |resource.name| <= MAX_LABEL && |resource.locality| <= MAX_LABEL
                         && |old(resources)| < MAX_RESOURCES && id !in old(resources)
      ensures r == Err(InvalidArgument) <==> id == NIL
      ensures r == Err(DuplicateDefinition) <==>
        id in old(resources) && id != NIL && |resource.name| <= MAX_LABEL && |resource.locality| <= MAX_LABEL
      ensures r == Err(CapacityExceeded) <==>
        && id != NIL && |resource.name| <= MAX_LABEL && |resource.locality| <= MAX_LABEL
        && id !in old(resources) && |old(resources)| >= MAX_RESOURCES
      ensures r.Err? ==> r.error in {InvalidArgument, MetadataTooLarge, CapacityExceeded, DuplicateDefinition}
      ensures resources == if r.Ok? then old(resources)[id := resource] else old(resources)
    {
      if id == NIL { return Err(InvalidArgument); }
      if |resource.name| > MAX_LABEL || |resource.locality| > MAX_LABEL { return Err(MetadataTooLarge); }
      if |resources| >= MAX_RESOURCES && id !in resources { return Err(CapacityExceeded); }
      if id in resources { return Err(DuplicateDefinition); }
      resources := resources[id := resource];
      return Ok(());
    }

    // ---- validating ---------------------------------------------------------

    /** Accepts exactly the valid topologies: in particular the scopes form a forest, every
        resource has exactly the owner it declares, and intervals are pairwise disjoint. A
        reported cycle is real. */
    method Validate() returns (r: Result<(), ErrorCode>)
      requires Valid()
      ensures r.Ok? <==> IsValid(View())
      ensures r == Err(ScopeCycleDetected) ==> HasCycle(scopes)
    {
      r := CheckAll(View());
    }

    // ---- searching ----------------------------------------------------------

    method ChildrenOf(id: Id) returns (children: seq<Id>)
      ensures forall i, j | 0 <= i < j < |children| :: children[i] < children[j]
      ensures forall c :: c in children <==> c in scopes && ParentOf(scopes, c) == Some(id)
    {
      var all := set s | s in scopes && scopes[s].parent == Some(id);
      children := Ascending(all);
      ListingMembers(children, all);
    }

    /** Every scope above id, in order. The size guard never changes the answer. */
    method AncestorsOf(id: Id) returns (ancestors: seq<Id>)
      requires Valid()
      ensures Distinct(ancestors) && SortedBy(ancestors, IdRank)
      ensures forall a :: a in ancestors <==> IsAncestor(scopes, a, id)
    {
      var out: seq<Id> := [];
      var cursor := if id in scopes then scopes[id].parent else None;
      var guard := 0;
      while cursor.Some?
        invariant Distinct(out) && |out| == guard
        invariant forall i: nat | i < |out| :: Up(scopes, id, i + 1) == Some(out[i])
        invariant cursor == Up(scopes, id, |out| + 1)
        decreases MAX_SCOPES + 1 - guard
      {
        guard := guard + 1;
        if guard > MAX_SCOPES || cursor.value in out {
          GuardHarmless(scopes, id, out, cursor.value);
          break;
        }
        out := out + [cursor.value];
        cursor := if cursor.value in scopes then scopes[cursor.value].parent else None;
      }
      AllFound(scopes, id, out);
      ancestors := Sort(out, IdRank);
      DistinctPermuted(out, ancestors);
    }

    /** Every scope below id, in order. The size guard never fires. */
    method DescendantsOf(id: Id) returns (descendants: seq<Id>)
      requires Valid()
      ensures Distinct(descendants) && SortedBy(descendants, IdRank)
      ensures forall d :: d in descendants <==> d != id && IsAncestor(scopes, id, d)
    {
      var out: seq<Id>, frontier, visited := [], [id], [id];
      while frontier != []
        invariant visited == [id] + out && Distinct(out) && id !in out && |out| <= |scopes|
        invariant forall d | d in out :: d in scopes && IsAncestor(scopes, id, d)
        invariant forall f | f in frontier :: f in visited
        invariant Explored(scopes, visited, frontier)
        decreases |scopes| - |out|, |frontier|
      {
        var last := |frontier| - 1;
        var current, rest := frontier[last], frontier[..last];
        assert frontier == rest + [current] && current in visited;
        var children := ChildrenOf(current);
        var unseen := Unseen(children, visited);
        Expand(scopes, id, out, current, unseen);
        ExploredNext(scopes, visited, rest, current, children, unseen);
        Associative([id], out, unseen);
        out, frontier, visited := out + unseen, rest + unseen, visited + unseen;
        if |out| > MAX_SCOPES {
          assert false;
          break;
        }
      }
      AllExplored(scopes, id, visited);
      descendants := Sort(out, IdRank);
      DistinctPermuted(out, descendants);
    }
  }

  /** The children not visited yet, each taken once. */
  method Unseen(children: seq<Id>, visited: seq<Id>) returns (unseen: seq<Id>)
    ensures Distinct(unseen) && forall c :: c in unseen <==> c in children && c !in visited
  {
    unseen := [];
    for i := 0 to |children|
      invariant Distinct(unseen) && forall c :: c in unseen <==> c in children[..i] && c !in visited
    {
      TakeSucc(children, i);
      if children[i] !in visited + unseen {
        unseen := unseen + [children[i]];
      }
    }
    TakeAll(children);
  }

  // ---- proofs of the upward search -----------------------------------------

  ghost predicate Chain(scopes: Scopes, id: Id, out: seq<Id>) {
    forall i: nat {:trigger out[i]} | i < |out| :: Up(scopes, id, i + 1) == Some(out[i])
  }

  lemma ChainInside(scopes: Scopes, id: Id, out: seq<Id>, next: Id)
    requires Chain(scopes, id, out) && Up(scopes, id, |out| + 1) == Some(next)
    ensures id in scopes && forall a | a in out :: a in scopes
  {
    assert id in scopes by {
      if out != [] { assert Up(scopes, id, 1) == Some(out[0]); }
      assert Up(scopes, id, 1) == ParentOf(scopes, id);
    }
    forall i: nat | i < |out| ensures out[i] in scopes {
      assert Up(scopes, id, i + 2).Some? by {
        if i + 1 < |out| { assert Up(scopes, id, i + 2) == Some(out[i + 1]); }
      }
    }
  }

  /** When the guard fires every scope has been met, so the next one has been met before. */
  lemma GuardHarmless(scopes: Scopes, id: Id, out: seq<Id>, next: Id)
    requires Chain(scopes, id, out) && Distinct(out) && Up(scopes, id, |out| + 1) == Some(next)
    requires |scopes| <= |out| || next in out
    ensures next in out
  {
    if |scopes| <= |out| {
      ChainInside(scopes, id, out, next);
      DistinctFits(out, scopes.Keys);
      assert id in out;
      var j: nat :| j < |out| && out[j] == id;
      BackThrough(scopes, id, out, next, j);
    }
  }

  /** A chain that has come back to its start goes on as it began. */
  lemma BackThrough(scopes: Scopes, id: Id, out: seq<Id>, next: Id, j: nat)
    requires Chain(scopes, id, out) && Up(scopes, id, |out| + 1) == Some(next) && j < |out| && out[j] == id
    ensures next in out
  {
    var n := |out| - j;
    UpAdd(scopes, id, j + 1, n);
    assert j + 1 + n == |out| + 1 && Up(scopes, id, j + 1) == Some(id);
    assert out[n - 1] in out && Up(scopes, id, n - 1 + 1) == Some(out[n - 1]);
  }

  lemma AllFound(scopes: Scopes, id: Id, out: seq<Id>)
    requires Chain(scopes, id, out)
    requires var next := Up(scopes, id, |out| + 1); next.Some? ==> next.value in out
    ensures forall a :: a in out <==> IsAncestor(scopes, a, id)
  {
    forall a ensures a in out <==> IsAncestor(scopes, a, id) {
      if a in out {
        var i: nat :| i < |out| && out[i] == a;
        assert Up(scopes, id, i + 1) == Some(a);
      }
      if IsAncestor(scopes, a, id) {
        var n: nat :| n > 0 && Up(scopes, id, n) == Some(a);
        if Up(scopes, id, |out| + 1).None? {
          if n > |out| { UpEnded(scopes, id, |out| + 1, n); }
          assert out[n - 1] == a;
        } else {
          var j: nat :| j < |out| && Some(out[j]) == Up(scopes, id, |out| + 1);
          if n <= |out| {
            assert out[n - 1] == a;
          } else {
            var k := Repeats(scopes, id, j + 1, |out| + 1, n);
            assert out[k - 1] == a;
          }
        }
      }
    }
  }

  // ---- proofs of the downward search ---------------------------------------

  /** Every child of a visited scope off the frontier has been visited. */
  ghost predicate Explored(scopes: Scopes, visited: seq<Id>, frontier: seq<Id>) {
    forall v, c | v in visited && v !in frontier && c in scopes && scopes[c].parent == Some(v) :: c in visited
  }

  lemma DistinctAppend(a: seq<Id>, b: seq<Id>)
    requires Distinct(a) && Distinct(b) && forall x | x in b :: x !in a
    ensures Distinct(a + b)
  {
    forall i, j | 0 <= i < j < |a + b| ensures (a + b)[i] != (a + b)[j] {
      if i < |a| <= j {
        assert b[j - |a|] in b && a[i] in a;
      }
    }
  }

  lemma ChildBelow(scopes: Scopes, id: Id, current: Id, c: Id)
    requires c in scopes && ParentOf(scopes, c) == Some(current)
    requires current == id || IsAncestor(scopes, id, current)
    ensures IsAncestor(scopes, id, c)
  {
    assert Up(scopes, c, 0) == Some(c) && Up(scopes, c, 1) == Some(current);
    if current != id {
      assert IsAncestor(scopes, current, c);
      AncestorTransitive(scopes, id, current, c);
    }
  }

  lemma ExploredNext(
    scopes: Scopes, visited: seq<Id>, rest: seq<Id>, current: Id, children: seq<Id>, unseen: seq<Id>)
    requires Explored(scopes, visited, rest + [current])
    requires forall c :: c in children <==> c in scopes && ParentOf(scopes, c) == Some(current)
    requires forall c :: c in unseen <==> c in children && c !in visited
    ensures Explored(scopes, visited + unseen, rest + unseen)
  {
    forall v, c | v in visited + unseen && v !in rest + unseen && c in scopes && scopes[c].parent == Some(v)
      ensures c in visited + unseen
    {
      if v == current {
        assert c in children;
      }
    }
  }

  /** One turn of the search: the unseen children of the scope taken off the frontier. */
  lemma Expand(scopes: Scopes, id: Id, out: seq<Id>, current: Id, unseen: seq<Id>)
    requires Distinct(out) && id !in out && (current == id || current in out)
    requires forall d | d in out :: d in scopes && IsAncestor(scopes, id, d)
    requires Distinct(unseen) && forall c | c in unseen :: c in scopes && ParentOf(scopes, c) == Some(current) && c !in [id] + out
    ensures Distinct(out + unseen) && id !in out + unseen
    ensures forall d | d in out + unseen :: d in scopes && IsAncestor(scopes, id, d)
    ensures |out + unseen| <= |scopes|
  {
    forall c | c in unseen ensures IsAncestor(scopes, id, c) {
      ChildBelow(scopes, id, current, c);
    }
    forall c | c in unseen ensures c !in out && c != id {
      assert c !in [id] + out;
    }
    DistinctAppend(out, unseen);
    DistinctFits(out + unseen, scopes.Keys);
  }

  lemma {:induction false} Reached(scopes: Scopes, id: Id, visited: seq<Id>, d: Id, n: nat)
    requires id in visited && Explored(scopes, visited, []) && Up(scopes, d, n) == Some(id)
    ensures d in visited
    decreases n
  {
    if n > 0 {
      assert Up(scopes, d, 0) == Some(d) && Up(scopes, d, 1) == ParentOf(scopes, d);
      if ParentOf(scopes, d).None? {
        UpEnded(scopes, d, 1, n);
      } else {
        var p := ParentOf(scopes, d).value;
        UpAdd(scopes, d, 1, n - 1);
        Reached(scopes, id, visited, p, n - 1);
      }
    }
  }

  lemma AllExplored(scopes: Scopes, id: Id, visited: seq<Id>)
    requires id in visited && Explored(scopes, visited, [])
    ensures forall d | IsAncestor(scopes, id, d) :: d in visited
  {
    forall d | IsAncestor(scopes, id, d) ensures d in visited {
      var n: nat :| n > 0 && Up(scopes, d, n) == Some(id);
      Reached(scopes, id, visited, d, n);
    }
  }
}
