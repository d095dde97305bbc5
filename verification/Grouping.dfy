/** Grouping evidence by a key, and the exclusion of groups that share a delivery identity. */
module Grouping {

  import opened Common
  import opened Fabric
  import opened Evidence
  import opened Folds
  import opened Ordering
  import opened Derivation

  lemma KeepLast<K>(s: seq<Observation>, o: Observation, key: Observation -> K, k: K)
    ensures Keep(s + [o], key, k) == Keep(s, key, k) + (if key(o) == k then [o] else [])
  {
    assert (s + [o])[..|s|] == s;
  }

  lemma {:induction false} KeepMembers<K>(s: seq<Observation>, key: Observation -> K, k: K)
    ensures multiset(Keep(s, key, k)) == Members(multiset(s), key, k)
  {
    if s != [] {
      var n := |s| - 1;
      KeepMembers(s[..n], key, k);
      SplitLast(s);
    }
  }

  lemma {:induction false} KeepSorted<K>(s: seq<Observation>, key: Observation -> K, k: K)
    requires SortedBy(s, IdRank)
    ensures SortedBy(Keep(s, key, k), IdRank)
    ensures forall o | o in Keep(s, key, k) :: o in s && key(o) == k
  {
    if s != [] {
      var n := |s| - 1;
      KeepSorted(s[..n], key, k);
      SplitLast(s);
      forall o | o in s[..n] ensures LexLeq(IdRank(o), IdRank(s[n])) {
        var i :| 0 <= i < n && s[i] == o;
      }
    }
  }

  function Lookup<K, V>(m: map<K, seq<V>>, k: K): seq<V> {
    if k in m then m[k] else []
  }

  ghost predicate AreGroups<K(!new)>(groups: map<K, seq<Observation>>, s: seq<Observation>, key: Observation -> K) {
    && groups.Keys == KeysOf(multiset(s), key)
    && forall k {:trigger Lookup(groups, k)} :: Lookup(groups, k) == Keep(s, key, k)
  }

  lemma GroupsGrow<K(!new)>(groups: map<K, seq<Observation>>, s: seq<Observation>, o: Observation, key: Observation -> K)
    requires AreGroups(groups, s, key)
    ensures AreGroups(groups[key(o) := Lookup(groups, key(o)) + [o]], s + [o], key)
  {
    var grown := groups[key(o) := Lookup(groups, key(o)) + [o]];
    KeysGrow(multiset(s), o, key);
    assert multiset(s + [o]) == multiset(s) + multiset{o};
    forall k ensures Lookup(grown, k) == Keep(s + [o], key, k) {
      KeepLast(s, o, key, k);
      assert Lookup(groups, k) == Keep(s, key, k);
    }
  }

  method GroupBy<K(==, !new)>(records: seq<Observation>, key: Observation -> K) returns (groups: map<K, seq<Observation>>)
    ensures groups.Keys == KeysOf(multiset(records), key)
    ensures forall k | k in groups :: groups[k] == Keep(records, key, k)
  {
    groups := map[];
    for i := 0 to |records|
      invariant AreGroups(groups, records[..i], key)
    {
      GroupsGrow(groups, records[..i], records[i], key);
      TakeSucc(records, i);
      groups := groups[key(records[i]) := Lookup(groups, key(records[i])) + [records[i]]];
    }
    TakeAll(records);
    forall k | k in groups ensures groups[k] == Keep(records, key, k) {
      assert Lookup(groups, k) == Keep(records, key, k);
    }
  }

  lemma KeysGrow<K>(m: Records, o: Observation, key: Observation -> K)
    ensures KeysOf(m + multiset{o}, key) == KeysOf(m, key) + {key(o)}
  {
    forall k ensures k in KeysOf(m + multiset{o}, key) <==> k in KeysOf(m, key) + {key(o)} {
      if k in KeysOf(m, key) {
        var p :| p in m && key(p) == k;
        assert p in m + multiset{o};
      }
      if k == key(o) {
        assert o in m + multiset{o};
      }
    }
  }

  // ---- rejections collected by the loops -----------------------------------

  method RejectAll(records: seq<Observation>, cause: Cause) returns (rejected: seq<Rejection>)
    ensures multiset(rejected) == Gather(multiset(records), RejectAs(cause))
  {
    rejected := [];
    for i := 0 to |records|
      invariant multiset(rejected) == Gather(multiset(records[..i]), RejectAs(cause))
    {
      TakeSucc(records, i);
      GatherAdd(multiset(records[..i]), records[i], RejectAs(cause));
      rejected := rejected + [Reject(records[i], cause)];
    }
    TakeAll(records);
  }

  /** One evidence identity: more than one record under it and none can be counted. */
  method ExcludeCollision(group: seq<Observation>) returns (excluded: bool, rejected: seq<Rejection>)
    ensures excluded <==> |group| > 1
    ensures multiset(rejected) == CollisionRejections(multiset(group))
  {
    if |group| <= 1 {
      return false, [];
    }
    rejected := RejectAll(group, IdentityCollision);
    excluded := true;
  }

  method ExcludeCollisions(byId: map<Id, seq<Observation>>, ghost f: Id -> multiset<Rejection>)
    returns (excluded: set<Id>, rejected: seq<Rejection>)
    requires forall k | k in byId :: f(k) == CollisionRejections(multiset(byId[k]))
    ensures forall id :: id in excluded <==> id in byId && |byId[id]| > 1
    ensures multiset(rejected) == Gather<Id, Rejection>(multiset(byId.Keys), f)
  {
    excluded, rejected := {}, [];
    var ids := Listing(byId.Keys);
    ListingMembers(ids, byId.Keys);
    for i := 0 to |ids|
      invariant forall id :: id in excluded <==> id in ids[..i] && |byId[id]| > 1
      invariant multiset(rejected) == Gather<Id, Rejection>(multiset(ids[..i]), f)
    {
      TakeSucc(ids, i);
      GatherAdd<Id, Rejection>(multiset(ids[..i]), ids[i], f);
      var hit, more := ExcludeCollision(byId[ids[i]]);
      rejected := rejected + more;
      if hit {
        excluded := excluded + {ids[i]};
      }
    }
    TakeAll(ids);
  }

  // ---- one group of copies -------------------------------------------------

  /** The group drops an identity: every one when its contents diverge, all but the
      first record when they agree. */
  ghost predicate Drops(group: seq<Observation>, id: Id) {
    |group| > 1 && exists i | 0 <= i < |group| :: group[i].id == id && (i > 0 || !Identical(multiset(group)))
  }

  method AllIdentical(group: seq<Observation>) returns (identical: bool)
    requires group != []
    ensures identical <==> Identical(multiset(group))
  {
    identical := true;
    var i := 0;
    while i < |group|
      invariant i <= |group|
      invariant forall k | 0 <= k < i :: group[k].content == group[0].content
    {
      if group[i].content != group[0].content {
        assert group[0] in multiset(group) && group[i] in multiset(group);
        return false;
      }
      i := i + 1;
    }
    forall p, q | p in multiset(group) && q in multiset(group) ensures p.content == q.content {
      assert p in group && q in group;
    }
  }

  method IdsFrom(group: seq<Observation>, from: nat) returns (ids: set<Id>)
    requires from <= |group|
    ensures forall id :: id in ids <==> exists i | from <= i < |group| :: group[i].id == id
  {
    ids := {};
    for i := from to |group|
      invariant forall id :: id in ids <==> exists k | from <= k < i :: group[k].id == id
    {
      ids := ids + {group[i].id};
    }
  }

  /** The identities and sources a conflict record names. */
  method NameParties(group: seq<Observation>) returns (participants: multiset<Id>, sources: set<Id>)
    ensures participants == Parties(multiset(group))
    ensures sources == SourcesOf(multiset(group))
  {
    participants, sources := multiset{}, {};
    for i := 0 to |group|
      invariant participants == Parties(multiset(group[..i]))
      invariant sources == SourcesOf(multiset(group[..i]))
    {
      TakeSucc(group, i);
      GatherAdd<Observation, Id>(multiset(group[..i]), group[i], NamedBy);
      MoreSources(multiset(group[..i]), group[i]);
      participants := participants + multiset{group[i].id};
      sources := sources + {group[i].content.source};
    }
    TakeAll(group);
  }

  lemma MoreSources(g: Records, o: Observation)
    ensures SourcesOf(g + multiset{o}) == SourcesOf(g) + {o.content.source}
  {
    assert forall p :: p in g + multiset{o} <==> p in g || p == o;
  }

  lemma OneIsIdentical(group: seq<Observation>)
    ensures |group| <= 1 ==> group == [] || Identical(multiset(group))
  {
    if |group| == 1 {
      assert group == [group[0]];
    }
  }

  method RecordDivergence(group: seq<Observation>, divergent: Cause) returns (conflicts: seq<Conflict>)
    requires group != [] && !Identical(multiset(group))
    ensures multiset(conflicts) == Divergence(group, divergent)
  {
    var participants, sources := NameParties(group);
    conflicts := [Conflict(Deliveries(divergent), DeliveryKey(group[0]), participants, sources, 0, false)];
  }

  method ExcludeGroup(group: seq<Observation>, divergent: Cause)
    returns (excluded: set<Id>, rejected: seq<Rejection>, conflicts: seq<Conflict>)
    requires SortedBy(group, IdRank)
    ensures forall id :: id in excluded <==> Drops(group, id)
    ensures multiset(rejected) == GroupRejections(multiset(group), divergent)
    ensures multiset(conflicts) == Divergence(group, divergent)
  {
    OneIsIdentical(group);
    if |group| <= 1 {
      return {}, [], [];
    }
    var identical := AllIdentical(group);
    excluded, rejected := DropCopies(group, divergent, identical);
    conflicts := [];
    if !identical {
      conflicts := RecordDivergence(group, divergent);
    }
  }

  method DropCopies(group: seq<Observation>, divergent: Cause, identical: bool)
    returns (excluded: set<Id>, rejected: seq<Rejection>)
    requires |group| > 1 && SortedBy(group, IdRank) && (identical <==> Identical(multiset(group)))
    ensures forall id :: id in excluded <==> Drops(group, id)
    ensures multiset(rejected) == GroupRejections(multiset(group), divergent)
  {
    if identical {
      excluded := IdsFrom(group, 1);
      rejected := RejectAll(group[1..], DuplicateDelivery);
      FrontIsFirst(group);
    } else {
      excluded := IdsFrom(group, 0);
      rejected := RejectAll(group, divergent);
    }
  }

  /** All copies but the first are rejected, whichever copy the sort left in front. */
  lemma FrontIsFirst(group: seq<Observation>)
    requires |group| > 1 && SortedBy(group, IdRank) && Identical(multiset(group))
    ensures Gather(multiset(group[1..]), RejectAs(DuplicateDelivery))
         == Gather(multiset(group), RejectAs(DuplicateDelivery)) - multiset{Reject(Front(multiset(group)), DuplicateDelivery)}
  {
    var g, first := multiset(group), group[0];
    FirstIsLowest(group, Front(g));
    FirstApart(group, first);
    GatherAdd(multiset(group[1..]), first, RejectAs(DuplicateDelivery));
  }

  lemma FirstApart(group: seq<Observation>, first: Observation)
    requires group != [] && first == group[0]
    ensures multiset(group) == multiset(group[1..]) + multiset{first}
  {
    assert group == [first] + group[1..];
  }

  lemma FirstIsLowest(group: seq<Observation>, front: Observation)
    requires group != [] && SortedBy(group, IdRank) && Identical(multiset(group)) && IsFront(front, multiset(group))
    ensures Reject(front, DuplicateDelivery) == Reject(group[0], DuplicateDelivery)
  {
    assert group[0] in multiset(group) && front in group;
    var i :| 0 <= i < |group| && group[i] == front;
    assert i == 0 || LexLeq(IdRank(group[0]), IdRank(group[i]));
  }

  /** A sorted group with its specified rejections and conflict record. */
  ghost predicate Expects(group: seq<Observation>, divergent: Cause, r: multiset<Rejection>, x: multiset<Conflict>) {
    SortedBy(group, IdRank) && r == GroupRejections(multiset(group), divergent) && x == Divergence(group, divergent)
  }

  method ExcludeExpected(
    group: seq<Observation>, divergent: Cause, ghost r: multiset<Rejection>, ghost x: multiset<Conflict>)
    returns (excluded: set<Id>, rejected: seq<Rejection>, conflicts: seq<Conflict>)
    requires Expects(group, divergent, r, x)
    ensures forall id :: id in excluded <==> Drops(group, id)
    ensures multiset(rejected) == r && multiset(conflicts) == x
  {
    excluded, rejected, conflicts := ExcludeGroup(group, divergent);
  }

  lemma GatherStep<K, V>(keys: seq<K>, i: nat, list: seq<V>, more: seq<V>, f: K -> multiset<V>)
    requires i < |keys| && multiset(list) == Gather(multiset(keys[..i]), f) && multiset(more) == f(keys[i])
    ensures multiset(list + more) == Gather(multiset(keys[..i + 1]), f)
  {
    TakeSucc(keys, i);
    GatherAdd(multiset(keys[..i]), keys[i], f);
  }

  method ExcludeGroups<K(==)>(
    groups: map<K, seq<Observation>>, divergent: Cause, ghost f: K -> multiset<Rejection>,
    ghost h: K -> multiset<Conflict>)
    returns (excluded: set<Id>, rejected: seq<Rejection>, conflicts: seq<Conflict>)
    requires forall k | k in groups :: Expects(groups[k], divergent, f(k), h(k))
    ensures forall id :: id in excluded <==> exists k | k in groups :: Drops(groups[k], id)
    ensures multiset(rejected) == Gather(multiset(groups.Keys), f)
    ensures multiset(conflicts) == Gather(multiset(groups.Keys), h)
  {
    excluded, rejected, conflicts := {}, [], [];
    var keys := Listing(groups.Keys);
    ListingMembers(keys, groups.Keys);
    for i := 0 to |keys|
      invariant DroppedBy(excluded, groups, keys[..i])
      invariant multiset(rejected) == Gather(multiset(keys[..i]), f)
      invariant multiset(conflicts) == Gather(multiset(keys[..i]), h)
    {
      var ids, more, found := ExcludeExpected(groups[keys[i]], divergent, f(keys[i]), h(keys[i]));
      DroppedStep(excluded, ids, groups, keys, i);
      GatherStep(keys, i, rejected, more, f);
      GatherStep(keys, i, conflicts, found, h);
      excluded, rejected, conflicts := excluded + ids, rejected + more, conflicts + found;
    }
    TakeAll(keys);
  }

  ghost predicate DroppedBy<K>(excluded: set<Id>, groups: map<K, seq<Observation>>, keys: seq<K>) {
    forall id :: id in excluded <==> exists k | k in keys :: k in groups && Drops(groups[k], id)
  }

  lemma DroppedStep<K>(excluded: set<Id>, ids: set<Id>, groups: map<K, seq<Observation>>, keys: seq<K>, i: nat)
    requires i < |keys| && keys[i] in groups && DroppedBy(excluded, groups, keys[..i])
    requires forall id :: id in ids <==> Drops(groups[keys[i]], id)
    ensures DroppedBy(excluded + ids, groups, keys[..i + 1])
  {
    TakeSucc(keys, i);
    assert forall k :: k in keys[..i + 1] <==> k in keys[..i] || k == keys[i];
  }

  // ---- what the groups exclude ---------------------------------------------

  /** For a record no other shares its identity with, the group of its key drops its
      identity exactly when some copy outranks it; no other group mentions it. */
  lemma DropsWhenOutranked<K>(s: seq<Observation>, key: Observation -> K, k: K, o: Observation)
    requires SortedBy(s, IdRank) && o in s && !Collides(multiset(s), o)
    ensures Drops(Keep(s, key, k), o.id) <==> k == key(o) && Outranked(multiset(s), key, o)
  {
    KeepSorted(s, key, k);
    KeepMembers(s, key, k);
    assert o in multiset(s);
    DropsInGroup(multiset(s), Keep(s, key, k), key, k, o);
  }

  ghost predicate IsGroup<K>(c: Records, group: seq<Observation>, key: Observation -> K, k: K) {
    && SortedBy(group, IdRank)
    && (forall o :: multiset(group)[o] == if key(o) == k then c[o] else 0)
  }

  lemma DropsInGroup<K>(c: Records, group: seq<Observation>, key: Observation -> K, k: K, o: Observation)
    requires IsGroup(c, group, key, k) && o in c && !Collides(c, o)
    ensures Drops(group, o.id) <==> k == key(o) && Outranked(c, key, o)
  {
    forall i | 0 <= i < |group| && group[i].id == o.id ensures group[i] == o && k == key(o) {
      assert group[i] in multiset(group);
    }
    if Drops(group, o.id) {
      var i :| 0 <= i < |group| && group[i].id == o.id && (i > 0 || !Identical(multiset(group)));
      if !Identical(multiset(group)) {
        DivergentOutranks(c, group, key, o);
      } else {
        FirstOutranks(c, group, key, o, i);
      }
    }
    if k == key(o) && Outranked(c, key, o) {
      OutrankedIsDropped(c, group, key, o);
    }
  }

  lemma DivergentOutranks<K>(c: Records, group: seq<Observation>, key: Observation -> K, o: Observation)
    requires IsGroup(c, group, key, key(o)) && !Identical(multiset(group))
    ensures Outranked(c, key, o)
  {
    var p, q :| p in multiset(group) && q in multiset(group) && p.content != q.content;
    var d := if p.content != o.content then p else q;
    assert d in c && key(d) == key(o) && d.content != o.content;
  }

  lemma FirstOutranks<K>(c: Records, group: seq<Observation>, key: Observation -> K, o: Observation, i: nat)
    requires IsGroup(c, group, key, key(o)) && 0 < i < |group| && group[i] == o && !Collides(c, o)
    ensures Outranked(c, key, o)
  {
    var p := group[0];
    assert p in multiset(group) && o in multiset(group);
    assert LexLeq(IdRank(p), IdRank(o));
    TwoPositions(group, 0, i);
    assert p != o && p.id < o.id;
  }

  lemma OutrankedIsDropped<K>(c: Records, group: seq<Observation>, key: Observation -> K, o: Observation)
    requires IsGroup(c, group, key, key(o)) && o in c && Outranked(c, key, o)
    ensures Drops(group, o.id)
  {
    var p :| p in c && key(p) == key(o) && (p.content != o.content || p.id < o.id);
    assert o in multiset(group) && p in multiset(group);
    var i :| 0 <= i < |group| && group[i] == o;
    var j :| 0 <= j < |group| && group[j] == p;
    if i < j {
      assert LexLeq(IdRank(group[i]), IdRank(group[j]));
    }
  }
}
