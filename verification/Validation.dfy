/** The whole-topology checks, one after another. */
module Validation {

  import opened Common
  import opened Fabric
  import opened Folds
  import opened Ordering
  import opened Forest
  import opened Sweep

  const MAX_SCOPES: nat := 1_000_000
  const MAX_RESOURCES: nat := 4_000_000
  const MAX_FLOWS: nat := 4_000_000
  const MAX_PATHS: nat := 1_000_000
  const MAX_RESERVATIONS: nat := 1_000_000
  const MAX_SOURCES: nat := 4096
  const MAX_GENERATIONS: nat := 4096

  predicate WithinBudgets(t: Topology) {
    && |t.scopes| <= MAX_SCOPES && |t.resources| <= MAX_RESOURCES && |t.flows| <= MAX_FLOWS
    && |t.paths| <= MAX_PATHS && |t.reservations| <= MAX_RESERVATIONS
    && |t.sources| <= MAX_SOURCES && |t.generations| <= MAX_GENERATIONS
  }

  // ---- references ----------------------------------------------------------

  function Undefined<T>(ids: seq<Id>, m: map<Id, T>): bool {
    exists i | 0 <= i < |ids| :: ids[i] !in m
  }

  function ParentFault(t: Topology): Scope -> Option<ErrorCode> {
    (s: Scope) => if s.parent.Some? && s.parent.value !in t.scopes then Some(UnknownScope) else None
  }

  function IncarnationFault(t: Topology): Incarnation -> Option<ErrorCode> {
    (i: Incarnation) => if i.source !in t.sources then Some(UnknownSource) else None
  }

  function BindingFault(t: Topology): Binding -> Option<ErrorCode> {
    (b: Binding) =>
      if b.resource !in t.resources then Some(UnknownResource)
      else if b.generation !in t.generations then Some(UnknownGeneration)
      else None
  }

  function PlaceFault(t: Topology, scope: Id, generation: Id, resources: seq<Id>): Option<ErrorCode> {
    if scope !in t.scopes then Some(UnknownScope)
    else if generation !in t.generations then Some(UnknownGeneration)
    else if Undefined(resources, t.resources) then Some(UnknownResource)
    else None
  }

  function FlowFault(t: Topology): Flow -> Option<ErrorCode> {
    (f: Flow) => PlaceFault(t, f.scope, f.generation, f.pathHint)
  }

  function PathFault(t: Topology): Path -> Option<ErrorCode> {
    (p: Path) => PlaceFault(t, p.scope, p.generation, p.hops)
  }

  function ReservationFault(t: Topology): Reservation -> Option<ErrorCode> {
    (r: Reservation) => PlaceFault(t, r.scope, r.generation, match r.resource case None => [] case Some(x) => [x])
  }

  ghost predicate Faultless<T>(m: map<Id, T>, fault: T -> Option<ErrorCode>) {
    forall id | id in m :: fault(m[id]).None?
  }

  /** The fault of the entity with the smallest faulty id. */
  method FirstFault<T>(m: map<Id, T>, fault: T -> Option<ErrorCode>) returns (r: Result<(), ErrorCode>)
    ensures r.Ok? <==> Faultless(m, fault)
    ensures r.Err? ==> exists id :: id in m && fault(m[id]) == Some(r.error) && forall j | j in m && j < id :: fault(m[j]).None?
  {
    var ids := Ascending(m.Keys);
    ListingMembers(ids, m.Keys);
    for i := 0 to |ids|
      invariant forall k | 0 <= k < i :: ids[k] in m && fault(m[ids[k]]).None?
    {
      var f := fault(m[ids[i]]);
      if f.Some? {
        return Err(f.value);
      }
    }
    return Ok(());
  }

  // ---- the hierarchy -------------------------------------------------------

  /** Walks up from one scope, remembering every scope it leaves. */
  method WalkUp(scopes: Scopes, s: Id) returns (ends: bool)
    requires ParentsDefined(scopes) && s in scopes
    ensures ends ==> Grounded(scopes, s)
    ensures !ends ==> HasCycle(scopes)
  {
    var seen: seq<Id>, cursor := [], s;
    while scopes[cursor].parent.Some?
      invariant cursor in scopes && Up(scopes, s, |seen|) == Some(cursor)
      invariant Distinct(seen) && forall i: nat | i < |seen| :: seen[i] in scopes && Up(scopes, s, i) == Some(seen[i])
      decreases |scopes| - |seen|
    {
      if cursor in seen {
        var i: nat :| i < |seen| && seen[i] == cursor;
        MetAgain(scopes, s, i, |seen|);
        return false;
      }
      seen := seen + [cursor];
      DistinctFits(seen, scopes.Keys);
      cursor := scopes[cursor].parent.value;
    }
    assert Up(scopes, s, |seen| + 1).None?;
    return true;
  }

  method WalkEach(scopes: Scopes, ids: seq<Id>) returns (ends: bool)
    requires ParentsDefined(scopes) && forall id | id in ids :: id in scopes
    ensures if ends then forall id | id in ids :: Grounded(scopes, id) else HasCycle(scopes)
  {
    for i := 0 to |ids|
      invariant forall k | 0 <= k < i :: Grounded(scopes, ids[k])
    {
      ends := WalkUp(scopes, ids[i]);
      if !ends {
        return;
      }
    }
    return true;
  }

  /** The hierarchy check accepts exactly the forests, and otherwise there is a cycle. */
  method CheckHierarchy(scopes: Scopes) returns (r: Result<(), ErrorCode>)
    requires ParentsDefined(scopes)
    ensures r.Ok? <==> IsForest(scopes)
    ensures r.Err? ==> r.error == ScopeCycleDetected && HasCycle(scopes)
  {
    var ids := Ascending(scopes.Keys);
    ListingMembers(ids, scopes.Keys);
    var ends := WalkEach(scopes, ids);
    ForestHasNoCycle(scopes);
    return if ends then Ok(()) else Err(ScopeCycleDetected);
  }

  ghost predicate HasCycle(scopes: Scopes) {
    exists c :: c in scopes && OnCycle(scopes, c)
  }

  lemma ForestHasNoCycle(scopes: Scopes)
    ensures IsForest(scopes) ==> !HasCycle(scopes)
  {
    if IsForest(scopes) {
      forall s | s in scopes ensures !OnCycle(scopes, s) {
        GroundedAcyclic(scopes, s);
      }
    }
  }

  // ---- ownership -----------------------------------------------------------

  predicate Lists(t: Topology, s: Id, m: Id) {
    s in t.scopes && m in t.scopes[s].members
  }

  /** Every resource is a member of exactly the scope it declares, and nothing else is a member. */
  ghost predicate Owned(t: Topology) {
    && (forall s, m | Lists(t, s, m) :: m in t.resources && t.resources[m].scope == s)
    && (forall m | m in t.resources :: Lists(t, t.resources[m].scope, m))
  }

  ghost predicate OwnersSoFar(t: Topology, owners: map<Id, Id>, done: set<Id>) {
    && (forall s, m | s in done && Lists(t, s, m) :: m in t.resources && m in owners && owners[m] == s)
    && (forall m | m in owners :: owners[m] in done && Lists(t, owners[m], m))
  }

  /** Files one scope's members under it. */
  method FileMembers(t: Topology, s: Id, owners: map<Id, Id>, ghost done: set<Id>)
    returns (r: Result<map<Id, Id>, ErrorCode>)
    requires s in t.scopes && s !in done && Distinct(t.scopes[s].members) && OwnersSoFar(t, owners, done)
    ensures r.Ok? ==> OwnersSoFar(t, r.value, done + {s})
    ensures r == Err(UnknownResource) ==> exists m :: Lists(t, s, m) && m !in t.resources
    ensures r.Err? && r != Err(UnknownResource) ==>
              r == Err(ResourceInMultipleScopes) && exists m, other :: other != s && Lists(t, s, m) && Lists(t, other, m)
  {
    var members, filed := t.scopes[s].members, owners;
    for i := 0 to |members|
      invariant forall x, m | x in done && Lists(t, x, m) :: m in t.resources && m in filed && filed[m] == x
      invariant forall k | 0 <= k < i :: members[k] in t.resources && members[k] in filed && filed[members[k]] == s
      invariant forall m | m in filed :: if filed[m] == s then m in members[..i] else filed[m] in done && Lists(t, filed[m], m)
    {
      var m := members[i];
      assert Lists(t, s, m);
      if m !in t.resources {
        return Err(UnknownResource);
      }
      if m in filed {
        assert m !in members[..i];
        return Err(ResourceInMultipleScopes);
      }
      filed := filed[m := s];
    }
    return Ok(filed);
  }

  method CheckOwners(t: Topology) returns (r: Result<(), ErrorCode>)
    requires forall s | s in t.scopes :: Distinct(t.scopes[s].members)
    ensures r.Ok? <==> Owned(t)
    ensures r.Err? ==> r.error in {UnknownResource, ResourceInMultipleScopes, UnknownScope}
  {
    var owners: map<Id, Id> := map[];
    var ids := Ascending(t.scopes.Keys);
    ListingMembers(ids, t.scopes.Keys);
    ghost var done: set<Id> := {};
    for i := 0 to |ids|
      invariant forall s :: s in done <==> s in ids[..i]
      invariant OwnersSoFar(t, owners, done)
    {
      assert ids[i] !in ids[..i];
      var filed := FileMembers(t, ids[i], owners, done);
      if filed.Err? {
        return Err(filed.error);
      }
      owners, done := filed.value, done + {ids[i]};
    }
    r := CheckDeclared(t, owners, done);
  }

  ghost predicate Declared(t: Topology, owners: map<Id, Id>) {
    forall m | m in t.resources :: m in owners && owners[m] == t.resources[m].scope
  }

  lemma OwnedExactly(t: Topology, owners: map<Id, Id>, done: set<Id>)
    requires OwnersSoFar(t, owners, done) && forall s | s in t.scopes :: s in done
    ensures Owned(t) <==> Declared(t, owners)
  {
    if Owned(t) {
      forall m | m in t.resources ensures m in owners && owners[m] == t.resources[m].scope {
        assert Lists(t, t.resources[m].scope, m);
      }
    }
    if Declared(t, owners) {
      forall m | m in t.resources ensures Lists(t, t.resources[m].scope, m) {
        assert m in owners;
      }
    }
  }

  method CheckDeclared(t: Topology, owners: map<Id, Id>, ghost done: set<Id>) returns (r: Result<(), ErrorCode>)
    requires OwnersSoFar(t, owners, done) && forall s | s in t.scopes :: s in done
    ensures r.Ok? <==> Owned(t)
    ensures r.Err? ==> r.error in {ResourceInMultipleScopes, UnknownScope}
  {
    OwnedExactly(t, owners, done);
    r := CheckEach(t, owners);
  }

  method CheckEach(t: Topology, owners: map<Id, Id>) returns (r: Result<(), ErrorCode>)
    ensures r.Ok? <==> Declared(t, owners)
    ensures r.Err? ==> r.error in {ResourceInMultipleScopes, UnknownScope}
  {
    var ids := Ascending(t.resources.Keys);
    ListingMembers(ids, t.resources.Keys);
    for i := 0 to |ids|
      invariant forall k | 0 <= k < i :: ids[k] in owners && owners[ids[k]] == t.resources[ids[k]].scope
    {
      if ids[i] !in owners {
        return Err(UnknownScope);
      }
      if owners[ids[i]] != t.resources[ids[i]].scope {
        return Err(ResourceInMultipleScopes);
      }
    }
    return Ok(());
  }

  // ---- intervals -----------------------------------------------------------

  function IncarnationSpan(t: Topology): Id -> Span {
    (id: Id) => if id in t.incarnations then
        var i := t.incarnations[id];
        Span([i.source], id, i.startedAt, i.retiredAt)
      else Span([0], id, 0, None)
  }

  function BindingSpan(b: Binding): Span {
    Span([b.resource, b.generation], b.id, b.validFrom, b.validTo)
  }

  /** Two incarnations of one source are never live at the same instant. */
  ghost predicate IncarnationsDisjoint(t: Topology) {
    forall a, b | a in t.incarnations && b in t.incarnations && a != b :: !Clash(IncarnationSpan(t)(a), IncarnationSpan(t)(b))
  }

  /** Two bindings of one resource to one generation never hold at the same instant. */
  ghost predicate BindingsDisjoint(t: Topology) {
    PairsDisjoint(Mapped(t.bindings, BindingSpan))
  }

  predicate IntervalsProper(t: Topology) {
    && (forall id | id in t.incarnations :: var i := t.incarnations[id]; i.retiredAt.Some? ==> i.startedAt <= i.retiredAt.value)
    && (forall k | 0 <= k < |t.bindings| :: t.bindings[k].validTo.Some? ==> t.bindings[k].validFrom <= t.bindings[k].validTo.value)
  }

  function IncarnationsOf(t: Topology, source: Id): set<Id> {
    set id | id in t.incarnations && t.incarnations[id].source == source
  }

  lemma DisjointById(t: Topology, ids: seq<Id>)
    requires Distinct(ids) && forall id | id in ids :: id in t.incarnations
    requires IntervalsProper(t)
    ensures Disjoint(multiset(Mapped(ids, IncarnationSpan(t))))
       <==> forall a, b | a in ids && b in ids && a != b :: !Clash(IncarnationSpan(t)(a), IncarnationSpan(t)(b))
  {
    var spans := Mapped(ids, IncarnationSpan(t));
    forall x | x in spans ensures Proper(x) {
      var i :| 0 <= i < |spans| && spans[i] == x;
      assert ids[i] in t.incarnations;
    }
    PairsAreOccurrences(spans);
    if PairsDisjoint(spans) {
      forall a, b | a in ids && b in ids && a != b ensures !Clash(IncarnationSpan(t)(a), IncarnationSpan(t)(b)) {
        var i :| 0 <= i < |ids| && ids[i] == a;
        var j :| 0 <= j < |ids| && ids[j] == b;
        assert !Clash(spans[if i < j then i else j], spans[if i < j then j else i]);
        OverlapSymmetric(spans[i], spans[j]);
      }
    }
  }

  ghost predicate SourceDisjoint(t: Topology, source: Id) {
    forall a, b | a in IncarnationsOf(t, source) && b in IncarnationsOf(t, source) && a != b ::
      !Clash(IncarnationSpan(t)(a), IncarnationSpan(t)(b))
  }

  lemma DisjointBySource(t: Topology, sources: set<Id>)
    requires forall id | id in t.incarnations :: t.incarnations[id].source in sources
    ensures IncarnationsDisjoint(t) <==> forall s | s in sources :: SourceDisjoint(t, s)
  {
    if forall s | s in sources :: SourceDisjoint(t, s) {
      forall a, b | a in t.incarnations && b in t.incarnations && a != b
        ensures !Clash(IncarnationSpan(t)(a), IncarnationSpan(t)(b))
      {
        var source := t.incarnations[a].source;
        assert SourceDisjoint(t, source) && a in IncarnationsOf(t, source);
        if t.incarnations[b].source == source {
          assert b in IncarnationsOf(t, source);
        } else {
          assert IncarnationSpan(t)(a).owner[0] != IncarnationSpan(t)(b).owner[0];
        }
      }
    }
  }

  method CheckIncarnations(t: Topology) returns (r: Result<(), ErrorCode>)
    requires IntervalsProper(t)
    ensures r == if IncarnationsDisjoint(t) then Ok(()) else Err(OverlappingIncarnations)
  {
    var sources := set id | id in t.incarnations :: t.incarnations[id].source;
    var ids := Ascending(sources);
    ListingMembers(ids, sources);
    DisjointBySource(t, sources);
    for i := 0 to |ids|
      invariant forall k | 0 <= k < i :: SourceDisjoint(t, ids[k])
    {
      var ok := CheckSource(t, ids[i]);
      if !ok {
        return Err(OverlappingIncarnations);
      }
    }
    return Ok(());
  }

  method CheckSource(t: Topology, source: Id) returns (ok: bool)
    requires IntervalsProper(t)
    ensures ok <==> SourceDisjoint(t, source)
  {
    var own := IncarnationsOf(t, source);
    var ids := Ascending(own);
    ListingMembers(ids, own);
    DisjointById(t, ids);
    ok := SweepNeighbours(Mapped(ids, IncarnationSpan(t)), 1);
  }

  method CheckBindings(t: Topology) returns (r: Result<(), ErrorCode>)
    requires IntervalsProper(t)
    ensures r.Ok? <==> BindingsDisjoint(t) && BindingsKnown(t)
    ensures r.Err? ==> r.error in {UnknownResource, UnknownGeneration, DuplicateDefinition}
    ensures BindingsKnown(t) && r.Err? ==> r.error == DuplicateDefinition
  {
    for i := 0 to |t.bindings|
      invariant forall k | 0 <= k < i :: BindingFault(t)(t.bindings[k]).None?
    {
      var f := BindingFault(t)(t.bindings[i]);
      if f.Some? {
        return Err(f.value);
      }
    }
    var spans := Mapped(t.bindings, BindingSpan);
    PairsAreOccurrences(spans);
    var ok := SweepNeighbours(spans, 2);
    return if ok then Ok(()) else Err(DuplicateDefinition);
  }

  ghost predicate BindingsKnown(t: Topology) {
    forall k | 0 <= k < |t.bindings| :: BindingFault(t)(t.bindings[k]).None?
  }

  // ---- everything ----------------------------------------------------------

  /** What adding entities one at a time already guarantees. */
  ghost predicate Assembled(t: Topology) {
    IntervalsProper(t) && forall s | s in t.scopes :: Distinct(t.scopes[s].members)
  }

  ghost predicate ScopesValid(t: Topology) {
    Faultless(t.scopes, ParentFault(t)) && IsForest(t.scopes) && Owned(t)
  }

  ghost predicate TimesValid(t: Topology) {
    && Faultless(t.incarnations, IncarnationFault(t)) && IncarnationsDisjoint(t)
    && BindingsKnown(t) && BindingsDisjoint(t)
  }

  ghost predicate UsesValid(t: Topology) {
    && Faultless(t.flows, FlowFault(t)) && Faultless(t.paths, PathFault(t))
    && Faultless(t.reservations, ReservationFault(t))
  }

  ghost predicate IsValid(t: Topology) {
    WithinBudgets(t) && ScopesValid(t) && TimesValid(t) && UsesValid(t)
  }

  lemma DefinedParents(t: Topology)
    ensures Faultless(t.scopes, ParentFault(t)) <==> ParentsDefined(t.scopes)
  {
    if ParentsDefined(t.scopes) {
      forall id | id in t.scopes ensures ParentFault(t)(t.scopes[id]).None? {}
    }
    if Faultless(t.scopes, ParentFault(t)) {
      forall id | id in t.scopes && t.scopes[id].parent.Some? ensures t.scopes[id].parent.value in t.scopes {
        assert ParentFault(t)(t.scopes[id]).None?;
      }
    }
  }

  method CheckScopes(t: Topology) returns (r: Result<(), ErrorCode>)
    requires Assembled(t)
    ensures r.Ok? <==> ScopesValid(t)
    ensures r == Err(ScopeCycleDetected) ==> HasCycle(t.scopes)
  {
    r := FirstFault(t.scopes, ParentFault(t));
    if r.Err? {
      return;
    }
    DefinedParents(t);
    r := CheckHierarchy(t.scopes);
    if r.Err? {
      return;
    }
    r := CheckOwners(t);
  }

  method CheckTimes(t: Topology) returns (r: Result<(), ErrorCode>)
    requires Assembled(t)
    ensures r.Ok? <==> TimesValid(t)
    ensures r != Err(ScopeCycleDetected)
  {
    r := FirstFault(t.incarnations, IncarnationFault(t));
    if r.Err? {
      return;
    }
    r := CheckIncarnations(t);
    if r.Err? {
      return;
    }
    r := CheckBindings(t);
  }

  method CheckUses(t: Topology) returns (r: Result<(), ErrorCode>)
    ensures r.Ok? <==> UsesValid(t)
    ensures r != Err(ScopeCycleDetected)
  {
    r := FirstFault(t.flows, FlowFault(t));
    if r.Err? {
      return;
    }
    r := FirstFault(t.paths, PathFault(t));
    if r.Err? {
      return;
    }
    r := FirstFault(t.reservations, ReservationFault(t));
  }

  method CheckAll(t: Topology) returns (r: Result<(), ErrorCode>)
    requires Assembled(t)
    ensures r.Ok? <==> IsValid(t)
    ensures r == Err(ScopeCycleDetected) ==> HasCycle(t.scopes)
  {
    if !WithinBudgets(t) {
      return Err(CapacityExceeded);
    }
    r := CheckScopes(t);
    if r.Err? {
      return;
    }
    r := CheckTimes(t);
    if r.Err? {
      return;
    }
    r := CheckUses(t);
  }
}
