/** What becomes of each record of a batch, in terms of the record, the topology and what is
    already retained, and what the report of the batch counts. */
module Fates {

  import opened Common
  import opened Fabric
  import opened Evidence
  import opened Folds
  import opened Derivation
  import opened DerivationTheorems
  import opened Refusals
  import opened Lineage
  import opened Lifecycle

  // ---- one record ----------------------------------------------------------

  /** A reporting window with some width, all four times given, and at most 32 different
      metadata entries, each with a key of 1 to 64 bytes and a value of at most 512; and no
      category on a total. */
  predicate IsWellFormed(o: Observation) {
    && o.content.windowStart < o.content.windowEnd
    && 0 !in {o.content.windowStart, o.content.windowEnd, o.content.observedAt, o.receivedAt}
    && |o.content.metadata| <= 32
    && (forall e | e in o.content.metadata :: o.content.metadata[e] == 1 && 1 <= |e.0| <= 64 && |e.1| <= 512)
    && (o.content.role == TotalRole ==> o.content.category == UnknownUnattributed)
  }

  /** The declared incarnation exists and was not retired when the record was received. */
  predicate IsLive(t: Topology, o: Observation) {
    && o.content.incarnation in t.incarnations
    && (t.incarnations[o.content.incarnation].retiredAt.Some? ==>
          o.receivedAt <= t.incarnations[o.content.incarnation].retiredAt.value)
  }

  predicate IsBooted(t: Topology, o: Observation) {
    o.content.incarnation in t.incarnations ==> t.incarnations[o.content.incarnation].bootEpoch <= o.content.epoch
  }

  predicate IsSupported(t: Topology, o: Observation) {
    o.content.source in t.sources ==> t.sources[o.content.source].provenance != Unsupported
  }

  predicate LiesIn(o: Observation, id: PeriodId) {
    id.start <= o.content.windowStart && o.content.windowEnd <= id.end
  }

  /** The period asked for, or when none is, the one the window lies in. */
  predicate BooksTo(ids: set<PeriodId>, o: Observation, requested: Option<PeriodId>, id: PeriodId) {
    id in ids && LiesIn(o, id) && (requested.Some? ==> id == requested.value)
  }

  predicate IsSettled(periods: map<PeriodId, Period>, o: Observation, requested: Option<PeriodId>) {
    exists id | id in periods :: BooksTo(periods.Keys, o, requested, id) && periods[id].state != Open
  }

  predicate IsPlaced(periods: map<PeriodId, Period>, o: Observation, requested: Option<PeriodId>) {
    exists id | id in periods :: BooksTo(periods.Keys, o, requested, id)
  }

  predicate Includes(id: PeriodId, at: Instant) {
    id.start <= at < id.end
  }

  /** Periods overlap exactly when some instant is in both; the end of a period is not. */
  lemma OverlapExactly(a: PeriodId, b: PeriodId)
    requires a.start < a.end && b.start < b.end
    ensures Overlapping(a, b) <==> exists at :: Includes(a, at) && Includes(b, at)
  {
    if Overlapping(a, b) {
      var at := if a.start < b.start then b.start else a.start;
      assert Includes(a, at) && Includes(b, at);
    }
  }

  /** The checks a record passes on its way, in their order. */
  function Passed(t: Topology, o: Observation): nat {
    if !IsWellFormed(o) then 0
    else if o.content.source !in t.sources then 1
    else if !IsLive(t, o) then 2
    else if !IsBooted(t, o) then 3
    else if o.content.generation !in t.generations then 4
    else if !IsSupported(t, o) then 5
    else 6
  }

  lemma DeclaredExactly(t: Topology, o: Observation)
    ensures ShapeOk(o) <==> IsWellFormed(o)
    ensures var n := Passed(t, o);
      DeclaredFate(t, o) ==
        if n == 0 then Some(BadShape) else if n == 1 then Some(NoSource) else if n == 2 then Some(NoIncarnation)
        else if n == 3 then Some(FencedBoot) else if n == 4 then Some(NoGeneration) else if n == 5 then Some(NotCountable)
        else None
  {
  }

  lemma TargetExactly(periods: map<PeriodId, Period>, o: Observation, requested: Option<PeriodId>)
    requires Disjoint(periods.Keys) && IsWellFormed(o)
    ensures var target := TargetOf(periods.Keys, o, requested);
      && (target.Some? <==> IsPlaced(periods, o, requested))
      && (target.Some? ==> target.value in periods && BooksTo(periods.Keys, o, requested, target.value))
      && (target.Some? ==> (periods[target.value].state != Open <==> IsSettled(periods, o, requested)))
  {
    if id :| id in periods && BooksTo(periods.Keys, o, requested, id) {
      assert Contains(periods.Keys, o);
      forall other | other in periods && BooksTo(periods.Keys, o, requested, other) ensures other == id {
        if other != id {
          OnePeriodEach(id, other, o);
        }
      }
    }
  }

  /** The fate of a record: it is refused at the first check it fails; then for want of a
      period, or because its period is settled and late records are refused; a record already
      retained is a repeat; and everything else is accepted, colliding when a different record
      with its evidence identity is retained. */
  lemma FateExactly(
    policy: Policy, t: Topology, periods: map<PeriodId, Period>, observations: seq<Observation>,
    requested: Option<PeriodId>, o: Observation)
    requires Disjoint(periods.Keys)
    ensures var fate, n := FateOf(policy, t, periods, observations, requested, o), Passed(t, o);
      var placed := n == 6 && IsPlaced(periods, o, requested);
      var refused := placed && policy.late == RejectLate && IsSettled(periods, o, requested);
      && (fate == BadShape <==> n == 0) && (fate == NoSource <==> n == 1) && (fate == NoIncarnation <==> n == 2)
      && (fate == FencedBoot <==> n == 3) && (fate == NoGeneration <==> n == 4) && (fate == NotCountable <==> n == 5)
      && (fate == NoPeriod <==> n == 6 && !placed)
      && (fate == RefusedLate <==> refused)
      && (fate == Repeated <==> placed && !refused && o in observations)
      && (fate.Accepted? <==> placed && !refused && o !in observations)
      && (fate.Accepted? ==> (fate.collides <==> exists p | p in observations :: p.id == o.id))
  {
    DeclaredExactly(t, o);
    if IsWellFormed(o) {
      TargetExactly(periods, o, requested);
    }
    CollidesExactly(observations, o);
  }

  lemma CollidesExactly(observations: seq<Observation>, o: Observation)
    ensures Lifecycle.Collides(observations, o) <==> exists p | p in observations :: p.id == o.id
  {
  }

  lemma LateExactly(t: Topology, periods: map<PeriodId, Period>, requested: Option<PeriodId>, o: Observation)
    requires Disjoint(periods.Keys)
    ensures IsLate(t, periods, requested, o) <==> Passed(t, o) == 6 && IsSettled(periods, o, requested)
  {
    DeclaredExactly(t, o);
    if IsWellFormed(o) {
      TargetExactly(periods, o, requested);
    }
  }

  // ---- one batch -----------------------------------------------------------

  ghost function Counted(batch: seq<Observation>, which: Observation -> bool): nat {
    if batch == [] then 0
    else Counted(batch[..|batch| - 1], which) + if which(batch[|batch| - 1]) then 1 else 0
  }

  function Meeting(fate: Observation -> Fate, f: Fate): Observation -> bool {
    (o: Observation) => fate(o) == f
  }

  /** Each count is the number of records of one fate; colliding records are counted as
      accepted too, and late ones in addition to their fate. */
  ghost predicate CountsFates(r: IngestReport, batch: seq<Observation>, fate: Observation -> Fate, late: Observation -> bool) {
    && r.badShape == Counted(batch, Meeting(fate, BadShape))
    && r.noSource == Counted(batch, Meeting(fate, NoSource))
    && r.noIncarnation == Counted(batch, Meeting(fate, NoIncarnation))
    && r.fenced == Counted(batch, Meeting(fate, FencedBoot))
    && r.noGeneration == Counted(batch, Meeting(fate, NoGeneration))
    && r.notCountable == Counted(batch, Meeting(fate, NotCountable))
    && r.noPeriod == Counted(batch, Meeting(fate, NoPeriod))
    && r.repeated == Counted(batch, Meeting(fate, Repeated))
    && r.conflicts == Counted(batch, Meeting(fate, Accepted(true)))
    && r.accepted == Counted(batch, Meeting(fate, Accepted(true))) + Counted(batch, Meeting(fate, Accepted(false)))
    && r.late == Counted(batch, late)
  }

  lemma {:induction false} ReportExactly(
    received: nat, batch: seq<Observation>, fate: Observation -> Fate, late: Observation -> bool)
    ensures var r := ReportOf(received, batch, fate, late);
      r.received == received && CountsFates(r, batch, fate, late) && r.accepted == |Added(batch, fate)|
  {
    if batch != [] {
      var n := |batch| - 1;
      ReportExactly(received, batch[..n], fate, late);
      CountsOneMore(ReportOf(received, batch[..n], fate, late), batch, fate, late);
    }
  }

  lemma CountsOneMore(r: IngestReport, batch: seq<Observation>, fate: Observation -> Fate, late: Observation -> bool)
    requires batch != [] && CountsFates(r, batch[..|batch| - 1], fate, late)
    ensures CountsFates(Tallied(r, fate(batch[|batch| - 1]), late(batch[|batch| - 1])), batch, fate, late)
  {
  }

  /** No record is lost or counted twice. */
  lemma {:induction false} ReportAddsUp(
    received: nat, batch: seq<Observation>, fate: Observation -> Fate, late: Observation -> bool)
    ensures var r := ReportOf(received, batch, fate, late);
      r.accepted + r.repeated + r.badShape + r.noSource + r.noIncarnation + r.fenced + r.noGeneration + r.notCountable
      + r.noPeriod + Counted(batch, Meeting(fate, RefusedLate)) == |batch|
  {
    if batch != [] {
      ReportAddsUp(received, batch[..|batch| - 1], fate, late);
    }
  }

  // ---- one record delivered twice ------------------------------------------

  lemma {:induction false} AddedCopies(batch: seq<Observation>, fate: Observation -> Fate, o: Observation)
    ensures multiset(Added(batch, fate))[o] == if fate(o).Accepted? then multiset(batch)[o] else 0
  {
    if batch != [] {
      AddedCopies(batch[..|batch| - 1], fate, o);
      SplitLast(batch);
    }
  }

  /** Delivered again in a later batch, a record is a repeat and retained once. */
  lemma TwiceInBatches(
    policy: Policy, t: Topology, periods: map<PeriodId, Period>, observations: seq<Observation>,
    requested: Option<PeriodId>, batch: seq<Observation>, o: Observation)
    requires o in observations
    ensures multiset(observations + Added(batch, Fater(policy, t, periods, observations, requested)))[o] == multiset(observations)[o]
  {
    AddedCopies(batch, Fater(policy, t, periods, observations, requested), o);
  }

  /** Delivered twice in one batch, a record that would be accepted is retained as often, and
      from then on no derivation counts it: each copy collides with the other. */
  lemma TwiceInOneBatch(
    policy: Policy, t: Topology, periods: map<PeriodId, Period>, observations: seq<Observation>,
    requested: Option<PeriodId>, batch: seq<Observation>, o: Observation, later: Records, ctx: Context, period: Window)
    requires FateOf(policy, t, periods, observations, requested, o).Accepted? && multiset(batch)[o] > 1
    requires multiset(observations + Added(batch, Fater(policy, t, periods, observations, requested))) <= later
    requires LiesIn(o, period)
    ensures forall x | x in Contributions(ctx, Considered(later, period)) :: x.evidence != o.id
    ensures Reject(o, IdentityCollision) in Rejections(ctx, Considered(later, period))
  {
    var added, c := Added(batch, Fater(policy, t, periods, observations, requested)), Considered(later, period);
    AddedCopies(batch, Fater(policy, t, periods, observations, requested), o);
    assert multiset(observations + added) == multiset(observations) + multiset(added);
    TwinsConsidered(later, period, o);
    CollidedExactly(ctx, c, Reject(o, IdentityCollision));
    forall x | x in Contributions(ctx, c) ensures x.evidence != o.id {
      var p := CountedRecord(ctx, c, x);
      assert p in Admitted(ctx, c) && !Derivation.Collides(c, p);
    }
  }

  lemma TwinsConsidered(later: Records, period: Window, o: Observation)
    requires later[o] > 1 && LiesIn(o, period)
    ensures Considered(later, period)[o] > 1 && o in Considered(later, period)
  {
    assert InPeriod(period)(o);
  }
}
