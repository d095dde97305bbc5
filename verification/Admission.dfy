/** Candidate selection, exclusion and admission, proved against their specifications. */
module Admission {

  import opened Common
  import opened Fabric
  import opened Evidence
  import opened Folds
  import opened Ordering
  import opened Dispute
  import opened Derivation
  import opened DerivationTheorems
  import opened Grouping

  // ---- candidates ----------------------------------------------------------

  lemma MembersAdd<K>(m: Records, o: Observation, key: Observation -> K, k: K)
    ensures Members(m + multiset{o}, key, k) == Members(m, key, k) + (if key(o) == k then multiset{o} else multiset{})
  {
  }

  method SelectCandidates(observations: seq<Observation>, period: Window) returns (candidates: seq<Observation>)
    ensures multiset(candidates) == Considered(multiset(observations), period)
    ensures SortedBy(candidates, IdRank)
  {
    candidates := [];
    ghost var inPeriod := InPeriod(period);
    for i := 0 to |observations|
      invariant multiset(candidates) == Members(multiset(observations[..i]), inPeriod, true)
    {
      TakeSucc(observations, i);
      MembersAdd(multiset(observations[..i]), observations[i], inPeriod, true);
      if Within(WindowOf(observations[i]), period) {
        candidates := candidates + [observations[i]];
      }
    }
    TakeAll(observations);
    candidates := Sort(candidates, IdRank);
  }

  // ---- exclusion -----------------------------------------------------------

  method ExcludeById(candidates: seq<Observation>) returns (excluded: set<Id>, rejected: seq<Rejection>)
    requires SortedBy(candidates, IdRank)
    ensures forall o | o in candidates :: o.id in excluded <==> Collides(multiset(candidates), o)
    ensures multiset(rejected) == CollisionsIn(multiset(candidates))
  {
    ghost var c := multiset(candidates);
    var byId := GroupBy<Id>(candidates, IdOf);
    forall k | k in byId ensures CollisionsAt(c)(k) == CollisionRejections(multiset(byId[k])) {
      KeepMembers<Id>(candidates, IdOf, k);
    }
    excluded, rejected := ExcludeCollisions(byId, CollisionsAt(c));
    forall o | o in candidates ensures o.id in excluded <==> Collides(c, o) {
      assert o in c && IdOf(o) in byId;
      KeepMembers<Id>(candidates, IdOf, o.id);
      CollidesInGroup(c, o);
      assert |byId[o.id]| == |multiset(byId[o.id])|;
    }
  }

  lemma CollidesInGroup(c: Records, o: Observation)
    requires o in c
    ensures |Members<Id>(c, IdOf, o.id)| > 1 <==> Collides(c, o)
  {
    var g := Members<Id>(c, IdOf, o.id);
    if Collides(c, o) {
      var p := o;
      if c[o] <= 1 {
        p :| p in c && p != o && p.id == o.id;
      }
      GroupSize<Id>(c, IdOf, o, p);
    }
    if |g| > 1 {
      var p := AnotherOf(g, o);
      assert p in c;
    }
  }

  lemma AnotherOf(g: Records, o: Observation) returns (p: Observation)
    requires o in g && |g| > 1
    ensures p in g && (p != o || g[o] > 1)
  {
    var rest := g - multiset{o};
    assert |rest| == |g| - 1;
    p :| p in rest;
  }

  /** One round of group exclusion over the records that do not collide. */
  method ExcludeBy<K(==, !new)>(
    candidates: seq<Observation>, key: Observation -> K, divergent: Cause, ghost f: K -> multiset<Rejection>)
    returns (excluded: set<Id>, rejected: seq<Rejection>, conflicts: seq<Conflict>)
    requires SortedBy(candidates, IdRank)
    requires forall k | k in KeysOf(multiset(candidates), key) ::
      f(k) == GroupRejections(Members(multiset(candidates), key, k), divergent)
    ensures forall o | o in candidates && !Collides(multiset(candidates), o) ::
      o.id in excluded <==> Outranked(multiset(candidates), key, o)
    ensures multiset(rejected) == Gather(multiset(KeysOf(multiset(candidates), key)), f)
    ensures multiset(conflicts) == Divergences(candidates, key, divergent)
  {
    var groups := GroupBy(candidates, key);
    ghost var h := DivergenceAt(candidates, key, divergent);
    forall k | k in groups ensures Expects(groups[k], divergent, f(k), h(k)) {
      GroupAt(candidates, key, k, groups[k], divergent, f);
    }
    excluded, rejected, conflicts := ExcludeGroups(groups, divergent, f, h);
    forall o | o in candidates && !Collides(multiset(candidates), o)
      ensures o.id in excluded <==> Outranked(multiset(candidates), key, o)
    {
      DroppedSomewhere(candidates, key, groups, o);
    }
  }

  lemma GroupAt<K>(
    candidates: seq<Observation>, key: Observation -> K, k: K, group: seq<Observation>, divergent: Cause,
    f: K -> multiset<Rejection>)
    requires SortedBy(candidates, IdRank) && group == Keep(candidates, key, k)
    requires f(k) == GroupRejections(Members(multiset(candidates), key, k), divergent)
    ensures SortedBy(group, IdRank)
    ensures f(k) == GroupRejections(multiset(group), divergent)
  {
    KeepSorted(candidates, key, k);
    KeepMembers(candidates, key, k);
  }

  lemma DroppedSomewhere<K>(
    candidates: seq<Observation>, key: Observation -> K, groups: map<K, seq<Observation>>, o: Observation)
    requires SortedBy(candidates, IdRank) && o in candidates && !Collides(multiset(candidates), o)
    requires groups.Keys == KeysOf(multiset(candidates), key)
    requires forall k | k in groups :: groups[k] == Keep(candidates, key, k)
    ensures (exists k | k in groups :: Drops(groups[k], o.id)) <==> Outranked(multiset(candidates), key, o)
  {
    assert o in multiset(candidates);
    assert key(o) in groups;
    DropsWhenOutranked(candidates, key, key(o), o);
    if k :| k in groups && Drops(groups[k], o.id) {
      DropsWhenOutranked(candidates, key, k, o);
    }
  }

  method Exclude(candidates: seq<Observation>)
    returns (excluded: set<Id>, rejected: seq<Rejection>, conflicts: seq<Conflict>)
    requires SortedBy(candidates, IdRank)
    ensures forall o | o in candidates :: o.id in excluded <==> Excluded(multiset(candidates), o)
    ensures multiset(rejected) == ExclusionRejections(multiset(candidates))
    ensures multiset(conflicts) == DeliveryConflicts(candidates)
  {
    var byId, collisions := ExcludeById(candidates);
    ghost var c := multiset(candidates);
    var byOrigin, origins, divergent := ExcludeBy<Id>(candidates, OriginOf, DivergentOrigin, OriginGroupAt(c));
    var bySequence, sequences, reused := ExcludeBy(candidates, SequenceOf, DivergentSequence, SequenceGroupAt(c));
    excluded := byId + byOrigin + bySequence;
    rejected := collisions + origins + sequences;
    conflicts := divergent + reused;
  }

  // ---- admission -----------------------------------------------------------

  ghost predicate ArePeaks(candidates: seq<Observation>, peak: map<Id, nat>) {
    && (forall i | 0 <= i < |candidates| ::
          candidates[i].content.incarnation in peak
          && candidates[i].content.epoch <= peak[candidates[i].content.incarnation])
    && (forall inc | inc in peak :: exists i | 0 <= i < |candidates| ::
          candidates[i].content.incarnation == inc && candidates[i].content.epoch == peak[inc])
  }

  method PeakEpochs(candidates: seq<Observation>) returns (peak: map<Id, nat>)
    ensures ArePeaks(candidates, peak)
  {
    peak := map[];
    for i := 0 to |candidates|
      invariant ArePeaks(candidates[..i], peak)
    {
      ghost var before := peak;
      var o := candidates[i].content;
      if o.incarnation !in peak || o.epoch > peak[o.incarnation] {
        peak := peak[o.incarnation := o.epoch];
      }
      ghost var now := candidates[..i + 1];
      assert now[i] == candidates[i];
      forall inc | inc in peak
        ensures exists k | 0 <= k < |now| :: now[k].content.incarnation == inc && now[k].content.epoch == peak[inc]
      {
        if inc in before && before[inc] == peak[inc] {
          var k :| 0 <= k < i && candidates[..i][k].content.incarnation == inc && candidates[..i][k].content.epoch == peak[inc];
          assert now[k] == candidates[..i][k];
        } else {
          assert now[i].content.incarnation == inc;
        }
      }
    }
    TakeAll(candidates);
  }

  lemma PeakFence(candidates: seq<Observation>, peak: map<Id, nat>, o: Observation)
    requires ArePeaks(candidates, peak) && o in candidates
    ensures o.content.incarnation in peak
    ensures AtPeak(multiset(candidates), o) <==> o.content.epoch >= peak[o.content.incarnation]
  {
    var inc := o.content.incarnation;
    var j :| 0 <= j < |candidates| && candidates[j] == o;
    var i :| 0 <= i < |candidates| && candidates[i].content.incarnation == inc && candidates[i].content.epoch == peak[inc];
    assert candidates[i] in multiset(candidates);
    forall p | p in multiset(candidates) && p.content.incarnation == inc ensures p.content.epoch <= peak[inc] {
      assert p in candidates;
    }
  }

  /** The fence and the admissibility rules for one record that survived exclusion. */
  method Judge(ctx: Context, o: Observation, peak: map<Id, nat>) returns (refusal: UnknownReason, stale: bool)
    requires o.content.incarnation in peak
    ensures refusal == Refusal(ctx, o.content.epoch >= peak[o.content.incarnation], o)
    ensures !stale
  {
    stale := false;
    var source := Find(ctx.topology.sources, o.content.source);
    if source.None? {
      return AttributionFailure, false;
    }
    var incarnation := Find(ctx.topology.incarnations, o.content.incarnation);
    if !Countable(source.value.provenance) {
      return UnsupportedProvenance, false;
    }
    if incarnation.Some? && o.content.epoch < peak[o.content.incarnation] {
      return FencedEpoch, false;
    }
    var assessment := AssessAdmissibility(o, ctx.asOf, ctx.policy, ctx.topology, source.value, incarnation);
    if !assessment.accepted && assessment.klass == Stale {
      stale := ctx.policy.stale == IncludeMarked;
    }
    refusal := assessment.reason;
  }

  method Admit(ctx: Context, candidates: seq<Observation>, excluded: set<Id>)
    returns (admitted: seq<Observation>, rejected: seq<Rejection>, staleIncluded: bool)
    requires forall o | o in candidates :: o.id in excluded <==> Excluded(multiset(candidates), o)
    ensures multiset(admitted) == multiset(Admitted(ctx, multiset(candidates)))
    ensures multiset(rejected) == AdmissionRejections(ctx, multiset(candidates))
    ensures !staleIncluded
  {
    ghost var c := multiset(candidates);
    var peak := PeakEpochs(candidates);
    ghost var yes, no, f := Admitted(ctx, c), Refused(ctx, c), RefusalOf(ctx, c);
    Sorting(ctx, candidates, excluded, peak);
    admitted, rejected, staleIncluded := JudgeAll(ctx, candidates, excluded, peak, yes, no, f);
  }

  /** What one surviving record's verdict is, in executable terms. */
  function Refuses(ctx: Context, o: Observation, peak: map<Id, nat>): UnknownReason
    requires o.content.incarnation in peak
  {
    Refusal(ctx, o.content.epoch >= peak[o.content.incarnation], o)
  }

  ghost predicate Sorted(
    ctx: Context, candidates: seq<Observation>, excluded: set<Id>, peak: map<Id, nat>,
    yes: set<Observation>, no: set<Observation>, f: Observation -> multiset<Rejection>)
  {
    && (forall o | o in candidates :: o.content.incarnation in peak)
    && (forall o | o in yes || o in no :: o in candidates)
    && (forall o {:trigger Refuses(ctx, o, peak)} | o in candidates ::
          && (o in yes <==> o.id !in excluded && Refuses(ctx, o, peak) == NoReason)
          && (o in no <==> o.id !in excluded && Refuses(ctx, o, peak) != NoReason)
          && f(o) == multiset{Reject(o, NotAdmissible(Refuses(ctx, o, peak)))})
    && (forall i | 0 <= i < |candidates| && candidates[i].id !in excluded :: candidates[i] !in candidates[..i])
  }

  lemma Sorting(ctx: Context, candidates: seq<Observation>, excluded: set<Id>, peak: map<Id, nat>)
    requires forall o | o in candidates :: o.id in excluded <==> Excluded(multiset(candidates), o)
    requires ArePeaks(candidates, peak)
    ensures var c := multiset(candidates);
      Sorted(ctx, candidates, excluded, peak, Admitted(ctx, c), Refused(ctx, c), RefusalOf(ctx, c))
  {
    var c := multiset(candidates);
    var yes, no, f := Admitted(ctx, c), Refused(ctx, c), RefusalOf(ctx, c);
    forall o | o in candidates
      ensures o.content.incarnation in peak
      ensures o in yes <==> o.id !in excluded && Refuses(ctx, o, peak) == NoReason
      ensures o in no <==> o.id !in excluded && Refuses(ctx, o, peak) != NoReason
      ensures f(o) == multiset{Reject(o, NotAdmissible(Refuses(ctx, o, peak)))}
    {
      PeakFence(candidates, peak, o);
      Standing(ctx, c, o, o.id in excluded, o.content.epoch >= peak[o.content.incarnation]);
    }
    SurvivorsAreSingle(candidates, excluded);
  }

  lemma SurvivorsAreSingle(candidates: seq<Observation>, excluded: set<Id>)
    requires forall o | o in candidates :: o.id in excluded <==> Excluded(multiset(candidates), o)
    ensures forall i | 0 <= i < |candidates| && candidates[i].id !in excluded :: candidates[i] !in candidates[..i]
  {
    forall i | 0 <= i < |candidates| && candidates[i].id !in excluded ensures candidates[i] !in candidates[..i] {
      assert !Collides(multiset(candidates), candidates[i]);
      OnlyOnce(candidates, i);
    }
  }

  lemma Standing(ctx: Context, c: Records, o: Observation, excluded: bool, atPeak: bool)
    requires o in c && (excluded <==> Excluded(c, o)) && (atPeak <==> AtPeak(c, o))
    ensures o in Admitted(ctx, c) <==> !excluded && Refusal(ctx, atPeak, o) == NoReason
    ensures o in Refused(ctx, c) <==> !excluded && Refusal(ctx, atPeak, o) != NoReason
    ensures RefusalOf(ctx, c)(o) == multiset{Reject(o, NotAdmissible(Refusal(ctx, atPeak, o)))}
  {
  }

  /** The part of a set met in the first i records. */
  ghost function Seen(s: seq<Observation>, i: nat, a: set<Observation>): set<Observation>
    requires i <= |s|
  {
    set o | o in a && o in s[..i]
  }

  lemma SeenNext(s: seq<Observation>, i: nat, a: set<Observation>)
    requires i < |s|
    ensures Seen(s, i + 1, a) == if s[i] in a then Seen(s, i, a) + {s[i]} else Seen(s, i, a)
    ensures s[i] !in s[..i] ==> s[i] !in Seen(s, i, a)
  {
    TakeSucc(s, i);
  }

  lemma SeenAll(s: seq<Observation>, a: set<Observation>)
    requires forall o | o in a :: o in s
    ensures Seen(s, |s|, a) == a
  {
    TakeAll(s);
  }

  ghost predicate Lists(s: seq<Observation>, a: set<Observation>) {
    multiset(s) == multiset(a)
  }

  lemma ListsMembers(s: seq<Observation>, a: set<Observation>)
    requires Lists(s, a)
    ensures forall o :: o in s <==> o in a
    ensures forall i | 0 <= i < |s| :: s[i] !in s[..i]
  {
    ListingMembers(s, a);
  }

  lemma ListsNext(list: seq<Observation>, s: seq<Observation>, i: nat, a: set<Observation>)
    requires i < |s| && s[i] !in s[..i] && Lists(list, Seen(s, i, a))
    ensures Lists(if s[i] in a then list + [s[i]] else list, Seen(s, i + 1, a))
  {
    SeenNext(s, i, a);
  }

  lemma GatherNext(s: seq<Observation>, i: nat, a: set<Observation>, f: Observation -> multiset<Rejection>)
    requires i < |s| && s[i] !in s[..i]
    ensures Gather(multiset(Seen(s, i + 1, a)), f)
         == Gather(multiset(Seen(s, i, a)), f) + (if s[i] in a then f(s[i]) else multiset{})
  {
    SeenNext(s, i, a);
    if s[i] in a {
      GatherInsert(Seen(s, i, a), s[i], f);
    }
  }

  method JudgeAll(
    ctx: Context, candidates: seq<Observation>, excluded: set<Id>, peak: map<Id, nat>,
    ghost yes: set<Observation>, ghost no: set<Observation>, ghost f: Observation -> multiset<Rejection>)
    returns (admitted: seq<Observation>, rejected: seq<Rejection>, staleIncluded: bool)
    requires Sorted(ctx, candidates, excluded, peak, yes, no, f)
    ensures multiset(admitted) == multiset(yes)
    ensures multiset(rejected) == Gather(multiset(no), f)
    ensures !staleIncluded
  {
    admitted, rejected, staleIncluded := [], [], false;
    for i := 0 to |candidates|
      invariant Lists(admitted, Seen(candidates, i, yes))
      invariant multiset(rejected) == Gather(multiset(Seen(candidates, i, no)), f)
      invariant !staleIncluded
    {
      SeenNext(candidates, i, yes);
      SeenNext(candidates, i, no);
      var one, other, stale := JudgeNext(ctx, candidates, i, excluded, peak, yes, no, f);
      if candidates[i] in yes {
        ListsNext(admitted, candidates, i, yes);
      }
      if candidates[i] in no {
        GatherNext(candidates, i, no, f);
      }
      admitted, rejected, staleIncluded := admitted + one, rejected + other, staleIncluded || stale;
    }
    SeenAll(candidates, yes);
    SeenAll(candidates, no);
  }

  method JudgeNext(
    ctx: Context, candidates: seq<Observation>, i: nat, excluded: set<Id>, peak: map<Id, nat>,
    ghost yes: set<Observation>, ghost no: set<Observation>, ghost f: Observation -> multiset<Rejection>)
    returns (admitted: seq<Observation>, rejected: seq<Rejection>, stale: bool)
    requires Sorted(ctx, candidates, excluded, peak, yes, no, f) && i < |candidates|
    ensures var o := candidates[i];
      && admitted == (if o in yes then [o] else [])
      && multiset(rejected) == (if o in no then f(o) else multiset{})
      && (o in yes || o in no ==> o !in candidates[..i])
    ensures !stale
  {
    var o := candidates[i];
    ghost var verdict := Refuses(ctx, o, peak);
    admitted, rejected, stale := [], [], false;
    if o.id !in excluded {
      var refusal;
      refusal, stale := Judge(ctx, o, peak);
      assert refusal == Refuses(ctx, o, peak);
      if refusal != NoReason {
        rejected := [Reject(o, NotAdmissible(refusal))];
      } else {
        admitted := [o];
      }
    }
  }

  lemma OnlyOnce(s: seq<Observation>, i: nat)
    requires i < |s| && multiset(s)[s[i]] <= 1
    ensures s[i] !in s[..i]
  {
    forall j | 0 <= j < i ensures s[j] != s[i] {
      TwoPositions(s, j, i);
    }
  }
}
