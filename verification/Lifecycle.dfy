/** The in-memory ledger: opening, ingesting, closing and correcting accounting periods. */
module Lifecycle {

  import opened Common
  import opened Fabric
  import opened Evidence
  import opened Folds
  import opened Ordering
  import opened Derivation
  import opened Revision
  import opened Lineage

  const MIN_WINDOW_NANOS: int := 1_000_000
  const MAX_PERIODS: nat := 100_000
  const MAX_METADATA: nat := 32
  const MAX_METADATA_KEY: nat := 64
  const MAX_METADATA_VALUE: nat := 512

  datatype PeriodState = Open | Closed | Superseded

  datatype Period = Period(ordinal: nat, name: string, state: PeriodState, currentRevision: nat, ingested: nat)

  predicate Overlapping(a: PeriodId, b: PeriodId) {
    a.start < b.end && b.start < a.end
  }

  // ---- evidence ------------------------------------------------------------

  predicate MetadataOk(o: Observation) {
    && |o.content.metadata| <= MAX_METADATA
    && forall e | e in o.content.metadata ::
         0 < |e.0| <= MAX_METADATA_KEY && |e.1| <= MAX_METADATA_VALUE && o.content.metadata[e] == 1
  }

  predicate ShapeOk(o: Observation) {
    && o.content.windowStart < o.content.windowEnd
    && o.content.observedAt != 0 && o.receivedAt != 0
    && o.content.windowStart != 0 && o.content.windowEnd != 0
    && MetadataOk(o)
    && (o.content.role == TotalRole ==> o.content.category == UnknownUnattributed)
  }

  /** What becomes of one record of a batch. */
  datatype Fate =
    | BadShape | NoSource | NoIncarnation | FencedBoot | NoGeneration | NotCountable | NoPeriod
    | RefusedLate | Repeated | Accepted(collides: bool)

  function DeclaredFate(t: Topology, o: Observation): Option<Fate> {
    if !ShapeOk(o) then Some(BadShape)
    else if o.content.source !in t.sources then Some(NoSource)
    else if o.content.incarnation !in t.incarnations then Some(NoIncarnation)
    else
      var i := t.incarnations[o.content.incarnation];
      if i.retiredAt.Some? && o.receivedAt > i.retiredAt.value then Some(NoIncarnation)
      else if o.content.epoch < i.bootEpoch then Some(FencedBoot)
      else if o.content.generation !in t.generations then Some(NoGeneration)
      else if !Countable(t.sources[o.content.source].provenance) then Some(NotCountable)
      else None
  }

  predicate Collides(observations: seq<Observation>, o: Observation) {
    exists i | 0 <= i < |observations| :: observations[i].id == o.id
  }

  /** The records a batch adds. */
  function Added(batch: seq<Observation>, fate: Observation -> Fate): seq<Observation> {
    if batch == [] then []
    else
      var n := |batch| - 1;
      Added(batch[..n], fate) + if fate(batch[n]).Accepted? then [batch[n]] else []
  }

  lemma AddedNext(batch: seq<Observation>, i: nat, fate: Observation -> Fate)
    requires i < |batch|
    ensures Added(batch[..i + 1], fate) == Added(batch[..i], fate) + if fate(batch[i]).Accepted? then [batch[i]] else []
  {
    assert batch[..i + 1][..i] == batch[..i];
  }

  /** Disjoint periods never consider the same record. */
  lemma OnePeriodEach(a: PeriodId, b: PeriodId, o: Observation)
    requires !Overlapping(a, b) && o.content.windowStart < o.content.windowEnd
    ensures !(Within(WindowOf(o), a) && Within(WindowOf(o), b))
  {
  }

  datatype IngestReport = IngestReport(
    received: nat, accepted: nat, repeated: nat, late: nat, conflicts: nat, badShape: nat, noSource: nat,
    noIncarnation: nat, fenced: nat, noGeneration: nat, notCountable: nat, noPeriod: nat)

  function Unsifted(received: nat): IngestReport {
    IngestReport(received, 0, 0, 0, 0, 0, 0, 0, 0, 0, 0, 0)
  }

  function Tallied(report: IngestReport, fate: Fate, late: bool): IngestReport {
    var r := if late then report.(late := report.late + 1) else report;
    match fate
    case BadShape => r.(badShape := r.badShape + 1)
    case NoSource => r.(noSource := r.noSource + 1)
    case NoIncarnation => r.(noIncarnation := r.noIncarnation + 1)
    case FencedBoot => r.(fenced := r.fenced + 1)
    case NoGeneration => r.(noGeneration := r.noGeneration + 1)
    case NotCountable => r.(notCountable := r.notCountable + 1)
    case NoPeriod => r.(noPeriod := r.noPeriod + 1)
    case RefusedLate => r
    case Repeated => r.(repeated := r.repeated + 1)
    case Accepted(collides) => r.(accepted := r.accepted + 1, conflicts := r.conflicts + if collides then 1 else 0)
  }

  /** The report once a batch of that many records has been sifted so far. */
  function ReportOf(received: nat, batch: seq<Observation>, fate: Observation -> Fate, late: Observation -> bool): IngestReport {
    if batch == [] then Unsifted(received)
    else
      var n := |batch| - 1;
      Tallied(ReportOf(received, batch[..n], fate, late), fate(batch[n]), late(batch[n]))
  }

  lemma ReportNext(received: nat, batch: seq<Observation>, i: nat, fate: Observation -> Fate, late: Observation -> bool)
    requires i < |batch|
    ensures ReportOf(received, batch[..i + 1], fate, late)
         == Tallied(ReportOf(received, batch[..i], fate, late), fate(batch[i]), late(batch[i]))
  {
    assert batch[..i + 1][..i] == batch[..i];
  }

  // ---- what every operation keeps, part by part ----------------------------

  type Histories = map<PeriodId, seq<PeriodRevision>>
  type Ledgers = map<PeriodId, seq<CorrectionRecord>>

  function HistoryIn(revisions: Histories, id: PeriodId): seq<PeriodRevision> {
    if id in revisions then revisions[id] else []
  }

  function CorrectionsIn(corrections: Ledgers, id: PeriodId): seq<CorrectionRecord> {
    if id in corrections then corrections[id] else []
  }

  predicate Disjoint(ids: set<PeriodId>) {
    && (forall id | id in ids :: id.start < id.end)
    && (forall a, b | a in ids && b in ids && a != b :: !Overlapping(a, b))
  }

  /** Periods are numbered in the order they were opened. */
  predicate Numbered(periods: map<PeriodId, Period>) {
    && (forall id | id in periods :: 1 <= periods[id].ordinal <= |periods|)
    && (forall a, b | a in periods && b in periods && periods[a].ordinal == periods[b].ordinal :: a == b)
  }

  /** A period's state and current revision say how many revisions it has. */
  predicate StateFits(p: Period, revisionCount: nat) {
    && p.currentRevision == revisionCount
    && p.state == (if revisionCount == 0 then Open else if revisionCount == 1 then Closed else Superseded)
  }

  ghost predicate StatesFit(periods: map<PeriodId, Period>, revisions: Histories) {
    && (forall id | id in periods :: StateFits(periods[id], |HistoryIn(revisions, id)|))
    && (forall id {:trigger HistoryIn(revisions, id)} :: HistoryIn(revisions, id) != [] ==> id in periods)
  }

  ghost predicate AllLinear(naming: Naming, budget: nat, revisions: Histories, corrections: Ledgers) {
    forall id {:trigger HistoryIn(revisions, id)} {:trigger CorrectionsIn(corrections, id)} ::
      && Linear(naming, id, HistoryIn(revisions, id), CorrectionsIn(corrections, id))
      && |CorrectionsIn(corrections, id)| <= budget
  }

  predicate Contains(ids: set<PeriodId>, o: Observation) {
    exists id :: id in ids && Within(WindowOf(o), id)
  }

  /** Every retained record is well formed and lies in a period. */
  ghost predicate Placed(observations: seq<Observation>, ids: set<PeriodId>) {
    forall i {:trigger observations[i]} | 0 <= i < |observations| ::
      ShapeOk(observations[i]) && Contains(ids, observations[i])
  }

  lemma PlacedMore(observations: seq<Observation>, ids: set<PeriodId>, id: PeriodId)
    requires Placed(observations, ids)
    ensures Placed(observations, ids + {id})
  {
    forall i | 0 <= i < |observations|
      ensures Contains(ids + {id}, observations[i])
    {
      assert Contains(ids, observations[i]);
      var x :| x in ids && Within(WindowOf(observations[i]), x);
      assert x in ids + {id};
    }
  }

  lemma NumberedMore(periods: map<PeriodId, Period>, id: PeriodId, p: Period)
    requires Numbered(periods) && id !in periods && p.ordinal == |periods| + 1
    ensures Numbered(periods[id := p])
  {
    KeyAdded(periods, id, p);
  }

  lemma KeyAdded(periods: map<PeriodId, Period>, id: PeriodId, p: Period)
    ensures periods[id := p].Keys == periods.Keys + {id}
    ensures |periods[id := p]| == |periods| + if id in periods then 0 else 1
  {
    assert periods[id := p].Keys == periods.Keys + {id};
    assert |periods[id := p]| == |periods[id := p].Keys| && |periods| == |periods.Keys|;
    if id in periods {
      assert periods.Keys + {id} == periods.Keys;
    }
  }

  lemma NumberedSame(periods: map<PeriodId, Period>, id: PeriodId, p: Period)
    requires Numbered(periods) && id in periods && p.ordinal == periods[id].ordinal
    ensures Numbered(periods[id := p]) && periods[id := p].Keys == periods.Keys
  {
    KeyAdded(periods, id, p);
    assert periods.Keys + {id} == periods.Keys;
  }

  /** The corrections of one period have been replaced. */
  ghost predicate SetAt(corrections: Ledgers, corrections': Ledgers, id: PeriodId, cs: seq<CorrectionRecord>) {
    forall other {:trigger CorrectionsIn(corrections', other)} ::
      CorrectionsIn(corrections', other) == if other == id then cs else CorrectionsIn(corrections, other)
  }

  /** One more revision, and for a correction its record, in one period. */
  lemma LinearMore(
    naming: Naming, budget: nat, revisions: Histories, corrections: Ledgers, corrections': Ledgers, id: PeriodId,
    history: seq<PeriodRevision>, cs: seq<CorrectionRecord>)
    requires AllLinear(naming, budget, revisions, corrections) && SetAt(corrections, corrections', id, cs)
    requires Linear(naming, id, history, cs) && |cs| <= budget
    ensures AllLinear(naming, budget, revisions[id := history], corrections')
  {
    var rs' := revisions[id := history];
    forall other
      ensures Linear(naming, other, HistoryIn(rs', other), CorrectionsIn(corrections', other))
      ensures |CorrectionsIn(corrections', other)| <= budget
    {
      if other != id {
        assert HistoryIn(rs', other) == HistoryIn(revisions, other);
        assert CorrectionsIn(corrections', other) == CorrectionsIn(corrections, other);
      }
    }
  }

  lemma StatesMore(
    periods: map<PeriodId, Period>, revisions: Histories, id: PeriodId, p: Period, history: seq<PeriodRevision>)
    requires StatesFit(periods, revisions) && StateFits(p, |history|)
    ensures StatesFit(periods[id := p], revisions[id := history])
  {
    var rs' := revisions[id := history];
    forall other | other != id ensures HistoryIn(rs', other) == HistoryIn(revisions, other) {}
  }

  lemma RevisedConsistent(
    policy: Policy, naming: Naming, periods: map<PeriodId, Period>, revisions: Histories, corrections: Ledgers,
    observations: seq<Observation>, id: PeriodId, p: Period, history: seq<PeriodRevision>, corrections': Ledgers,
    cs: seq<CorrectionRecord>)
    requires Consistent(policy, naming, periods, revisions, corrections, observations)
    requires id in periods && p.ordinal == periods[id].ordinal && StateFits(p, |history|)
    requires SetAt(corrections, corrections', id, cs) && Linear(naming, id, history, cs) && |cs| <= policy.maxCorrections
    ensures Consistent(policy, naming, periods[id := p], revisions[id := history], corrections', observations)
  {
    NumberedSame(periods, id, p);
    StatesMore(periods, revisions, id, p, history);
    LinearMore(naming, policy.maxCorrections, revisions, corrections, corrections', id, history, cs);
    KeyAdded(periods, id, p);
  }

  lemma HistoryOf(
    policy: Policy, naming: Naming, periods: map<PeriodId, Period>, revisions: Histories, corrections: Ledgers,
    observations: seq<Observation>, id: PeriodId)
    requires Consistent(policy, naming, periods, revisions, corrections, observations) && id in periods
    ensures StateFits(periods[id], |HistoryIn(revisions, id)|)
    ensures Linear(naming, id, HistoryIn(revisions, id), CorrectionsIn(corrections, id))
    ensures |CorrectionsIn(corrections, id)| <= policy.maxCorrections
  {
  }

  lemma RevisedGrown(
    periods: map<PeriodId, Period>, revisions: Histories, corrections: Ledgers, id: PeriodId, p: Period,
    history: seq<PeriodRevision>, corrections': Ledgers, cs: seq<CorrectionRecord>)
    requires id in periods && p.ordinal == periods[id].ordinal && p.name == periods[id].name
    requires HistoryIn(revisions, id) <= history && CorrectionsIn(corrections, id) <= cs && SetAt(corrections, corrections', id, cs)
    ensures SamePeriods(periods, periods[id := p]) && Grown(revisions, revisions[id := history], corrections, corrections')
  {
    forall other ensures HistoryIn(revisions, other) <= HistoryIn(revisions[id := history], other) {
      if other != id { assert HistoryIn(revisions[id := history], other) == HistoryIn(revisions, other); }
    }
  }

  lemma StatesOpened(periods: map<PeriodId, Period>, revisions: Histories, id: PeriodId, p: Period)
    requires StatesFit(periods, revisions) && id !in periods && StateFits(p, 0)
    ensures StatesFit(periods[id := p], revisions)
  {
    assert HistoryIn(revisions, id) == [];
  }

  /** Nothing already recorded changes: histories only grow. */
  ghost predicate Grown(revisions: Histories, revisions': Histories, corrections: Ledgers, corrections': Ledgers) {
    && (forall id {:trigger HistoryIn(revisions', id)} :: HistoryIn(revisions, id) <= HistoryIn(revisions', id))
    && (forall id {:trigger CorrectionsIn(corrections', id)} :: CorrectionsIn(corrections, id) <= CorrectionsIn(corrections', id))
  }

  predicate SamePeriods(periods: map<PeriodId, Period>, periods': map<PeriodId, Period>) {
    forall id | id in periods :: id in periods' && periods'[id].ordinal == periods[id].ordinal && periods'[id].name == periods[id].name
  }

  ghost predicate Consistent(
    policy: Policy, naming: Naming, periods: map<PeriodId, Period>, revisions: Histories, corrections: Ledgers,
    observations: seq<Observation>)
  {
    && Disjoint(periods.Keys) && Numbered(periods) && |periods| <= MAX_PERIODS
    && StatesFit(periods, revisions) && AllLinear(naming, policy.maxCorrections, revisions, corrections)
    && |observations| <= policy.maxRetained && Placed(observations, periods.Keys)
  }

  lemma OpenedConsistent(
    policy: Policy, naming: Naming, periods: map<PeriodId, Period>, revisions: Histories, corrections: Ledgers,
    observations: seq<Observation>, id: PeriodId, p: Period)
    requires Consistent(policy, naming, periods, revisions, corrections, observations)
    requires id !in periods && Disjoint(periods.Keys + {id}) && |periods| < MAX_PERIODS
    requires p.ordinal == |periods| + 1 && StateFits(p, 0)
    ensures Consistent(policy, naming, periods[id := p], revisions, corrections, observations)
  {
    PlacedMore(observations, periods.Keys, id);
    NumberedMore(periods, id, p);
    StatesOpened(periods, revisions, id, p);
    KeyAdded(periods, id, p);
  }

  function CountIn(accepted: seq<Observation>, id: PeriodId): nat {
    if accepted == [] then 0
    else CountIn(accepted[..|accepted| - 1], id) + if Within(WindowOf(accepted[|accepted| - 1]), id) then 1 else 0
  }

  /** Each period's counter has grown by the accepted records that lie in it. */
  ghost predicate Booked(periods: map<PeriodId, Period>, periods': map<PeriodId, Period>, accepted: seq<Observation>) {
    && periods'.Keys == periods.Keys
    && forall id | id in periods :: periods'[id] == periods[id].(ingested := periods[id].ingested + CountIn(accepted, id))
  }

  lemma BookedNext(
    periods: map<PeriodId, Period>, periods': map<PeriodId, Period>, accepted: seq<Observation>, i: nat, target: PeriodId)
    requires i < |accepted| && Booked(periods, periods', accepted[..i])
    requires Disjoint(periods.Keys) && target in periods && ShapeOk(accepted[i]) && Within(WindowOf(accepted[i]), target)
    ensures Booked(periods, periods'[target := periods'[target].(ingested := periods'[target].ingested + 1)], accepted[..i + 1])
  {
    assert accepted[..i + 1][..i] == accepted[..i];
    forall id | id in periods && id != target ensures !Within(WindowOf(accepted[i]), id) {
      OnePeriodEach(id, target, accepted[i]);
    }
  }

  lemma BookedConsistent(
    policy: Policy, naming: Naming, periods: map<PeriodId, Period>, revisions: Histories, corrections: Ledgers,
    observations: seq<Observation>, periods': map<PeriodId, Period>, accepted: seq<Observation>)
    requires Consistent(policy, naming, periods, revisions, corrections, observations)
    requires Booked(periods, periods', accepted) && |observations| + |accepted| <= policy.maxRetained
    requires Placed(accepted, periods.Keys)
    ensures Consistent(policy, naming, periods', revisions, corrections, observations + accepted)
  {
    assert |periods'| == |periods'.Keys| == |periods.Keys| == |periods|;
    var all := observations + accepted;
    forall i | 0 <= i < |all|
      ensures ShapeOk(all[i]) && Contains(periods'.Keys, all[i])
    {
      if i < |observations| {
        assert all[i] == observations[i];
      } else {
        assert all[i] == accepted[i - |observations|];
      }
    }
  }

  lemma BookedGrown(
    periods: map<PeriodId, Period>, periods': map<PeriodId, Period>, accepted: seq<Observation>,
    revisions: Histories, corrections: Ledgers)
    requires Booked(periods, periods', accepted)
    ensures SamePeriods(periods, periods') && Grown(revisions, revisions, corrections, corrections)
  {
  }

  lemma FaterNew(
    policy: Policy, t: Topology, periods: map<PeriodId, Period>, observations: seq<Observation>,
    requested: Option<PeriodId>, batch: seq<Observation>)
    ensures |Added(batch, Fater(policy, t, periods, observations, requested))| <= CountNew(batch, observations)
  {
    AddedAreNew(batch, observations, Fater(policy, t, periods, observations, requested));
  }

  lemma DisjointMore(ids: set<PeriodId>, id: PeriodId)
    requires Disjoint(ids) && id.start < id.end && forall other | other in ids :: !Overlapping(id, other)
    ensures Disjoint(ids + {id}) && id !in ids
  {
    assert Overlapping(id, id);
  }

  // ---- where a record belongs ----------------------------------------------

  /** The period a record is booked to: the requested one, or the one its window lies in. */
  ghost function TargetOf(ids: set<PeriodId>, o: Observation, requested: Option<PeriodId>): Option<PeriodId> {
    if requested.Some? then
      if requested.value in ids && Within(WindowOf(o), requested.value) then requested else None
    else if Contains(ids, o) then
      var id :| id in ids && Within(WindowOf(o), id);
      Some(id)
    else None
  }

  lemma TargetUnique(ids: set<PeriodId>, o: Observation, id: PeriodId)
    requires Disjoint(ids) && ShapeOk(o) && id in ids && Within(WindowOf(o), id)
    ensures TargetOf(ids, o, None) == Some(id)
  {
    var t := TargetOf(ids, o, None).value;
    if t != id {
      OnePeriodEach(t, id, o);
    }
  }

  ghost function FateOf(
    policy: Policy, t: Topology, periods: map<PeriodId, Period>, observations: seq<Observation>,
    requested: Option<PeriodId>, o: Observation): Fate
  {
    if DeclaredFate(t, o).Some? then DeclaredFate(t, o).value
    else
      var target := TargetOf(periods.Keys, o, requested);
      if target.None? then NoPeriod
      else if periods[target.value].state != Open && policy.late == RejectLate then RefusedLate
      else if o in observations then Repeated
      else Accepted(Collides(observations, o))
  }

  ghost function Fater(
    policy: Policy, t: Topology, periods: map<PeriodId, Period>, observations: seq<Observation>,
    requested: Option<PeriodId>): Observation -> Fate
  {
    (o: Observation) => FateOf(policy, t, periods, observations, requested, o)
  }

  /** The period a record is booked to has already been closed. */
  ghost predicate IsLate(t: Topology, periods: map<PeriodId, Period>, requested: Option<PeriodId>, o: Observation) {
    var target := TargetOf(periods.Keys, o, requested);
    DeclaredFate(t, o).None? && target.Some? && periods[target.value].state != Open
  }

  ghost function Later(t: Topology, periods: map<PeriodId, Period>, requested: Option<PeriodId>): Observation -> bool {
    (o: Observation) => IsLate(t, periods, requested, o)
  }

  /** The closed period a late record marks for correction, even when it is a repeat. */
  ghost function MarkOf(
    policy: Policy, t: Topology, periods: map<PeriodId, Period>, requested: Option<PeriodId>, o: Observation): set<PeriodId>
  {
    if IsLate(t, periods, requested, o) && policy.late != RejectLate
    then {TargetOf(periods.Keys, o, requested).value} else {}
  }

  ghost function Marker(policy: Policy, t: Topology, periods: map<PeriodId, Period>, requested: Option<PeriodId>)
    : Observation -> set<PeriodId>
  {
    (o: Observation) => MarkOf(policy, t, periods, requested, o)
  }

  /** All periods a batch marks. */
  ghost function Marked(batch: seq<Observation>, mark: Observation -> set<PeriodId>): set<PeriodId> {
    if batch == [] then {} else Marked(batch[..|batch| - 1], mark) + mark(batch[|batch| - 1])
  }

  lemma MarkedNext(batch: seq<Observation>, i: nat, mark: Observation -> set<PeriodId>)
    requires i < |batch|
    ensures Marked(batch[..i + 1], mark) == Marked(batch[..i], mark) + mark(batch[i])
  {
    assert batch[..i + 1][..i] == batch[..i];
  }

  /** How many records of the batch are not retained yet. */
  function CountNew(batch: seq<Observation>, observations: seq<Observation>): nat {
    if batch == [] then 0
    else CountNew(batch[..|batch| - 1], observations) + if batch[|batch| - 1] in observations then 0 else 1
  }

  lemma {:induction false} AddedAreNew(batch: seq<Observation>, observations: seq<Observation>, fate: Observation -> Fate)
    requires forall o | fate(o).Accepted? :: o !in observations
    ensures |Added(batch, fate)| <= CountNew(batch, observations)
  {
    if batch != [] {
      AddedAreNew(batch[..|batch| - 1], observations, fate);
    }
  }

  lemma {:induction false} AddedMembers(batch: seq<Observation>, fate: Observation -> Fate)
    ensures forall o :: o in Added(batch, fate) <==> o in batch && fate(o).Accepted?
  {
    if batch != [] {
      AddedMembers(batch[..|batch| - 1], fate);
      SplitLast(batch);
    }
  }

  predicate SameStates(periods: map<PeriodId, Period>, periods': map<PeriodId, Period>) {
    && periods'.Keys == periods.Keys
    && forall id | id in periods :: periods'[id] == periods[id].(ingested := periods'[id].ingested)
  }

  /** A record that was admitted, or refused, is not admitted again. */
  lemma NotAgain(
    policy: Policy, t: Topology, periods: map<PeriodId, Period>, periods': map<PeriodId, Period>,
    observations: seq<Observation>, observations': seq<Observation>, requested: Option<PeriodId>, o: Observation)
    requires SameStates(periods, periods') && observations <= observations'
    requires FateOf(policy, t, periods, observations, requested, o).Accepted? ==> o in observations'
    ensures !FateOf(policy, t, periods', observations', requested, o).Accepted?
  {
    if DeclaredFate(t, o).None? {
      assert periods'.Keys == periods.Keys;
    }
  }

  /** Once a batch has been ingested, ingesting it again adds nothing. */
  lemma ReingestAddsNothing(
    policy: Policy, t: Topology, periods: map<PeriodId, Period>, periods': map<PeriodId, Period>,
    observations: seq<Observation>, observations': seq<Observation>, batch: seq<Observation>, requested: Option<PeriodId>)
    requires observations' == observations + Added(batch, Fater(policy, t, periods, observations, requested))
    requires SameStates(periods, periods')
    ensures Added(batch, Fater(policy, t, periods', observations', requested)) == []
  {
    var (before, after) := (Fater(policy, t, periods, observations, requested), Fater(policy, t, periods', observations', requested));
    AddedMembers(batch, before);
    AddedMembers(batch, after);
    forall o | o in batch ensures !after(o).Accepted? {
      NotAgain(policy, t, periods, periods', observations, observations', requested, o);
    }
    FirstMember(Added(batch, after));
  }

  /** The revision comes right after the last one and names it. */
  predicate Succeeds(naming: Naming, id: PeriodId, history: seq<PeriodRevision>, r: PeriodRevision)
    requires history != []
  {
    var previous := history[|history| - 1];
    && r.body.period == id && r.body.ordinal == previous.body.ordinal + 1
    && r.body.parent == Some(previous.digest)
    && r.body.correction == Some(naming.correction(id, r.body.ordinal, previous.digest))
  }

  /** And the correction record ties the two together. */
  predicate Links(
    naming: Naming, id: PeriodId, history: seq<PeriodRevision>, cs: seq<CorrectionRecord>, r: PeriodRevision, c: CorrectionRecord)
    requires history != []
  {
    var previous := history[|history| - 1];
    && r.digest == naming.digest(r.body) && Succeeds(naming, id, history, r)
    && r.body.correction == Some(c.id)
    && c.fromOrdinal == previous.body.ordinal && c.toOrdinal == r.body.ordinal
    && c.parentDigest == previous.digest && c.newDigest == r.digest
    && c.previous == (if cs == [] then None else Some(cs[|cs| - 1].newDigest))
  }

  /** The step from the last revision to the next keeps the history linear. */
  lemma Corrected(
    naming: Naming, id: PeriodId, history: seq<PeriodRevision>, cs: seq<CorrectionRecord>, r: PeriodRevision, c: CorrectionRecord)
    requires Linear(naming, id, history, cs) && history != []
    requires Links(naming, id, history, cs, r, c)
    ensures r.body.ordinal == |history| + 1
    ensures Linear(naming, id, history + [r], cs + [c])
  {
    assert RevisionFits(naming, id, history, cs, |history| - 1);
    LinearCorrected(naming, id, history, cs, r, c);
  }

  function PromotedPeriod(p: Period, state: PeriodState, ordinal: nat): Period {
    p.(state := state, currentRevision := ordinal)
  }

  lemma CorrectedConsistent(
    policy: Policy, naming: Naming, periods: map<PeriodId, Period>, revisions: Histories, corrections: Ledgers,
    observations: seq<Observation>, id: PeriodId, r: PeriodRevision, c: CorrectionRecord)
    requires Consistent(policy, naming, periods, revisions, corrections, observations) && id in periods
    requires HistoryIn(revisions, id) != [] && |CorrectionsIn(corrections, id)| < policy.maxCorrections
    requires Links(naming, id, HistoryIn(revisions, id), CorrectionsIn(corrections, id), r, c)
    ensures var p := PromotedPeriod(periods[id], Superseded, r.body.ordinal);
      var (rs', cs') := (revisions[id := HistoryIn(revisions, id) + [r]], corrections[id := CorrectionsIn(corrections, id) + [c]]);
      && Consistent(policy, naming, periods[id := p], rs', cs', observations)
      && SamePeriods(periods, periods[id := p]) && Grown(revisions, rs', corrections, cs')
  {
    var (history, cs) := (HistoryIn(revisions, id), CorrectionsIn(corrections, id));
    HistoryOf(policy, naming, periods, revisions, corrections, observations, id);
    Corrected(naming, id, history, cs, r, c);
    var (p, cs') := (PromotedPeriod(periods[id], Superseded, r.body.ordinal), corrections[id := cs + [c]]);
    RevisedConsistent(policy, naming, periods, revisions, corrections, observations, id, p, history + [r], cs', cs + [c]);
    RevisedGrown(periods, revisions, corrections, id, p, history + [r], cs', cs + [c]);
  }

  // ---- the effect of closing and correcting --------------------------------

  /** What a ledger has recorded. */
  datatype Snapshot = Snapshot(
    periods: map<PeriodId, Period>, revisions: Histories, corrections: Ledgers, observations: seq<Observation>,
    correctionRequired: set<PeriodId>)

  function Last<T>(s: seq<T>): T
    requires s != []
  {
    s[|s| - 1]
  }

  lemma NextSucceeds(naming: Naming, id: PeriodId, history: seq<PeriodRevision>, at: Instant, reason: string, figures: Figures)
    requires history != []
    ensures Succeeds(naming, id, history, NextRevision(naming, id, Last(history), at, reason, figures))
  {
  }

  function Drafted(naming: Naming, body: RevisionBody): PeriodRevision {
    PeriodRevision(body, naming.digest(body))
  }

  function FirstRevision(naming: Naming, id: PeriodId, at: Instant, reason: string, figures: Figures): PeriodRevision {
    Drafted(naming, RevisionBody(id, 1, None, None, reason, at, figures))
  }

  function NextRevision(
    naming: Naming, id: PeriodId, previous: PeriodRevision, at: Instant, reason: string, figures: Figures): PeriodRevision
  {
    var next := previous.body.ordinal + 1;
    var correction := naming.correction(id, next, previous.digest);
    Drafted(naming, RevisionBody(id, next, Some(previous.digest), Some(correction), reason, at, figures))
  }

  /** The record that ties a correction to the revision it replaces and the one it makes. */
  function CorrectionFor(
    naming: Naming, id: PeriodId, cs: seq<CorrectionRecord>, previous: PeriodRevision, revision: PeriodRevision): CorrectionRecord
  {
    CorrectionRecord(
      naming.correction(id, revision.body.ordinal, previous.digest), previous.body.ordinal, revision.body.ordinal,
      revision.body.closedAt, revision.body.reason, previous.digest, revision.digest,
      if cs == [] then None else Some(cs[|cs| - 1].newDigest))
  }

  /** One more revision of one period, and nothing else. */
  function Promoted(s: Snapshot, id: PeriodId, state: PeriodState, revision: PeriodRevision): Snapshot
    requires id in s.periods
  {
    s.(periods := s.periods[id := PromotedPeriod(s.periods[id], state, revision.body.ordinal)],
       revisions := s.revisions[id := HistoryIn(s.revisions, id) + [revision]],
       correctionRequired := s.correctionRequired - {id})
  }

  /** One more revision that corrects the last, and the record of that step. */
  function Amended(naming: Naming, s: Snapshot, id: PeriodId, revision: PeriodRevision): Snapshot
    requires id in s.periods && HistoryIn(s.revisions, id) != []
  {
    var (history, cs) := (HistoryIn(s.revisions, id), CorrectionsIn(s.corrections, id));
    Promoted(s, id, Superseded, revision).(
      corrections := s.corrections[id := cs + [CorrectionFor(naming, id, cs, Last(history), revision)]])
  }

  /** What a derivation gives for the records a period considers, whether it gives
      anything, and why not. */
  datatype Deriving = Deriving(
    gives: (Context, Records, Figures) -> bool,
    possible: (Context, Records) -> bool,
    fails: (Context, Records, ErrorCode) -> bool)

  ghost predicate DerivesAs(derived: Deriving) {
    && (forall ctx, c, figures {:trigger IsRevision(ctx, c, figures)} ::
          derived.gives(ctx, c, figures) <==> IsRevision(ctx, c, figures))
    && (forall ctx, c {:trigger Derivable(ctx, c)} :: derived.possible(ctx, c) <==> Derivable(ctx, c))
    && (forall ctx, c, error {:trigger FailsWith(ctx, c, error)} ::
          derived.fails(ctx, c, error) <==> FailsWith(ctx, c, error))
  }

  ghost function TheDerivation(): (derived: Deriving)
    ensures DerivesAs(derived)
  {
    Deriving((ctx: Context, c: Records, figures: Figures) => IsRevision(ctx, c, figures),
             (ctx: Context, c: Records) => Derivable(ctx, c),
             (ctx: Context, c: Records, error: ErrorCode) => FailsWith(ctx, c, error))
  }

  class Ledger {
    const policy: Policy
    const topology: Topology
    const naming: Naming
    ghost const derived: Deriving

    var periods: map<PeriodId, Period>
    var revisions: Histories
    var corrections: Ledgers
    /** The retained records, in the order they arrived. */
    var observations: seq<Observation>
    var correctionRequired: set<PeriodId>

    constructor (policy: Policy, topology: Topology, naming: Naming)
      ensures this.policy == policy && this.topology == topology && this.naming == naming
      ensures Valid() && Recorded() == Snapshot(map[], map[], map[], [], {})
    {
      this.policy, this.topology, this.naming, derived := policy, topology, naming, TheDerivation();
      periods, revisions, corrections, observations, correctionRequired := map[], map[], map[], [], {};
    }

    ghost predicate Valid()
      reads this
    {
      DerivesAs(derived) && Sound()
    }

    function Recorded(): Snapshot
      reads this
    {
      Snapshot(periods, revisions, corrections, observations, correctionRequired)
    }

    ghost predicate Sound()
      reads this
    {
      Consistent(policy, naming, periods, revisions, corrections, observations)
    }

    twostate predicate Extended()
      reads this
    {
      && SamePeriods(old(periods), periods)
      && Grown(old(revisions), revisions, old(corrections), corrections)
      && old(observations) <= observations
    }

    // ---- opening ------------------------------------------------------------

    predicate CanOpen(id: PeriodId, name: string)
      reads this
    {
      Openable(policy, periods, id, name)
    }

    method CheckOpen(id: PeriodId, name: string) returns (fault: Option<ErrorCode>)
      ensures fault.None? <==> CanOpen(id, name)
      ensures fault == Some(InvalidArgument) <==> !SpanAllowed(policy, id)
      ensures fault == Some(MetadataTooLarge) <==> SpanAllowed(policy, id) && |name| > MAX_LABEL
      ensures fault == Some(CapacityExceeded) <==> SpanAllowed(policy, id) && |name| <= MAX_LABEL && |periods| >= MAX_PERIODS
      ensures fault.Some? ==> fault.value in {InvalidArgument, MetadataTooLarge, CapacityExceeded, DuplicateDefinition}
    {
      if !(id.start < id.end) { return Some(InvalidArgument); }
      if id.end - id.start < MIN_WINDOW_NANOS || id.end - id.start > policy.maxPeriodSpan { return Some(InvalidArgument); }
      if |name| > MAX_LABEL { return Some(MetadataTooLarge); }
      if |periods| >= MAX_PERIODS { return Some(CapacityExceeded); }
      if id in periods {
        assert Overlapping(id, id);
        return Some(DuplicateDefinition);
      }
      if exists other :: other in periods && Overlapping(id, other) { return Some(DuplicateDefinition); }
      return None;
    }

    /** A period opens exactly when its span is allowed and it overlaps no other. */
    method OpenPeriod(id: PeriodId, name: string) returns (r: Result<PeriodId, ErrorCode>)
      requires Valid()
      modifies `periods
      ensures Valid() && Extended()
      ensures r.Ok? <==> old(CanOpen(id, name))
      ensures r == Err(InvalidArgument) <==> !SpanAllowed(policy, id)
      ensures r == Err(MetadataTooLarge) <==> SpanAllowed(policy, id) && |name| > MAX_LABEL
      ensures r == Err(CapacityExceeded) <==> SpanAllowed(policy, id) && |name| <= MAX_LABEL && |old(periods)| >= MAX_PERIODS
      ensures r.Err? ==> r.error in {InvalidArgument, MetadataTooLarge, CapacityExceeded, DuplicateDefinition}
      ensures r.Ok? ==> r.value == id
      ensures r.Ok? ==> id !in old(periods) && periods == old(periods)[id := Period(|old(periods)| + 1, name, Open, 0, 0)]
      ensures r.Err? ==> periods == old(periods)
    {
      var fault := CheckOpen(id, name);
      if fault.Some? {
        return Err(fault.value);
      }
      CommitOpen(id, Period(|periods| + 1, name, Open, 0, 0));
      return Ok(id);
    }

    method CommitOpen(id: PeriodId, p: Period)
      requires Sound() && CanOpen(id, p.name) && p.ordinal == |periods| + 1 && StateFits(p, 0)
      modifies `periods
      ensures Sound() && Extended() && id !in old(periods) && periods == old(periods)[id := p]
    {
      DisjointMore(periods.Keys, id);
      OpenedConsistent(policy, naming, periods, revisions, corrections, observations, id, p);
      periods := periods[id := p];
    }

    // ---- ingesting ----------------------------------------------------------

    method FindPeriodFor(o: Observation) returns (best: Option<PeriodId>)
      requires Disjoint(periods.Keys) && ShapeOk(o)
      ensures best == TargetOf(periods.Keys, o, None)
    {
      best := None;
      var ids := Listing(periods.Keys);
      ListingMembers(ids, periods.Keys);
      for i := 0 to |ids|
        invariant best.Some? ==> best.value in periods && Within(WindowOf(o), best.value)
        invariant best.None? ==> forall k | 0 <= k < i :: !Within(WindowOf(o), ids[k])
      {
        if Within(WindowOf(o), ids[i]) && (best.None? || ids[i].start < best.value.start) {
          best := Some(ids[i]);
        }
      }
      if best.Some? {
        TargetUnique(periods.Keys, o, best.value);
      }
    }

    method Judge(o: Observation, requested: Option<PeriodId>) returns (fate: Fate, target: Option<PeriodId>, late: bool)
      requires Disjoint(periods.Keys)
      ensures fate == FateOf(policy, topology, periods, observations, requested, o)
      ensures fate.Accepted? ==> ShapeOk(o) && o !in observations && Contains(periods.Keys, o)
      ensures late ==> target.Some?
      ensures late == IsLate(topology, periods, requested, o)
      ensures target.Some? ==> target.value in periods
      ensures MarkOf(policy, topology, periods, requested, o) == if late && !fate.RefusedLate? then {target.value} else {}
    {
      var declared := DeclaredFate(topology, o);
      if declared.Some? {
        return declared.value, None, false;
      }
      target := requested;
      if requested.Some? {
        if requested.value !in periods || !Within(WindowOf(o), requested.value) {
          return NoPeriod, None, false;
        }
      } else {
        target := FindPeriodFor(o);
        if target.None? {
          return NoPeriod, None, false;
        }
      }
      assert target == TargetOf(periods.Keys, o, requested) && Contains(periods.Keys, o);
      late := periods[target.value].state != Open;
      if late && policy.late == RejectLate {
        return RefusedLate, target, true;
      }
      if o in observations {
        return Repeated, target, late;
      }
      fate := Accepted(exists i | 0 <= i < |observations| :: observations[i].id == o.id);
    }

    /** Judges one record and counts it; a late one marks its period for correction. */
    method SiftOne(o: Observation, requested: Option<PeriodId>, before: IngestReport, ghost fater: Observation -> Fate,
                   ghost later: Observation -> bool, ghost marker: Observation -> set<PeriodId>)
      returns (fate: Fate, report: IngestReport)
      requires Disjoint(periods.Keys)
      requires fater == Fater(policy, topology, periods, observations, requested)
      requires later == Later(topology, periods, requested)
      requires marker == Marker(policy, topology, periods, requested)
      modifies `correctionRequired
      ensures fate == fater(o)
      ensures fate.Accepted? ==> ShapeOk(o) && o !in observations && Contains(periods.Keys, o)
      ensures report == Tallied(before, fater(o), later(o))
      ensures correctionRequired == old(correctionRequired) + marker(o)
    {
      var target, late;
      fate, target, late := Judge(o, requested);
      report := Tallied(before, fate, late);
      if late && !fate.RefusedLate? {
        correctionRequired := correctionRequired + {target.value};
      }
    }

    /** Sorts a batch into the records to add and the rest; nothing is added yet. */
    method Sift(batch: seq<Observation>, requested: Option<PeriodId>) returns (accepted: seq<Observation>, report: IngestReport)
      requires Disjoint(periods.Keys)
      modifies `correctionRequired
      ensures accepted == Added(batch, Fater(policy, topology, periods, observations, requested))
      ensures Placed(accepted, periods.Keys)
      ensures report == ReportOf(|batch|, batch, Fater(policy, topology, periods, observations, requested),
                                 Later(topology, periods, requested))
      ensures correctionRequired == old(correctionRequired) + Marked(batch, Marker(policy, topology, periods, requested))
    {
      accepted, report := [], Unsifted(|batch|);
      ghost var fater := Fater(policy, topology, periods, observations, requested);
      ghost var later := Later(topology, periods, requested);
      ghost var marker := Marker(policy, topology, periods, requested);
      for i := 0 to |batch|
        modifies `correctionRequired
        invariant accepted == Added(batch[..i], fater)
        invariant Placed(accepted, periods.Keys)
        invariant report == ReportOf(|batch|, batch[..i], fater, later)
        invariant correctionRequired == old(correctionRequired) + Marked(batch[..i], marker)
      {
        AddedNext(batch, i, fater);
        ReportNext(|batch|, batch, i, fater, later);
        MarkedNext(batch, i, marker);
        var fate;
        fate, report := SiftOne(batch[i], requested, report, fater, later, marker);
        if fate.Accepted? {
          accepted := accepted + [batch[i]];
        }
      }
      TakeAll(batch);
    }

    method Book(accepted: seq<Observation>)
      requires Disjoint(periods.Keys) && Placed(accepted, periods.Keys)
      modifies `periods, `observations
      ensures observations == old(observations) + accepted && Booked(old(periods), periods, accepted)
    {
      for i := 0 to |accepted|
        invariant observations == old(observations) + accepted[..i] && Booked(old(periods), periods, accepted[..i])
      {
        assert ShapeOk(accepted[i]) && Contains(periods.Keys, accepted[i]);
        var target := FindPeriodFor(accepted[i]);
        observations := observations + [accepted[i]];
        BookedNext(old(periods), periods, accepted, i, target.value);
        var p := periods[target.value];
        periods := periods[target.value := p.(ingested := p.ingested + 1)];
      }
      TakeAll(accepted);
    }

    method CountIncoming(batch: seq<Observation>) returns (incoming: nat)
      ensures incoming == CountNew(batch, observations)
    {
      incoming := 0;
      for i := 0 to |batch|
        invariant incoming == CountNew(batch[..i], observations)
      {
        assert batch[..i + 1][..i] == batch[..i];
        if batch[i] !in observations {
          incoming := incoming + 1;
        }
      }
      TakeAll(batch);
    }

    method Absorb(batch: seq<Observation>, requested: Option<PeriodId>) returns (report: IngestReport, ghost added: seq<Observation>)
      requires Disjoint(periods.Keys)
      modifies `periods, `observations, `correctionRequired
      ensures added == Added(batch, old(Fater(policy, topology, periods, observations, requested)))
      ensures observations == old(observations) + added && Booked(old(periods), periods, added)
      ensures correctionRequired == old(correctionRequired) + Marked(batch, old(Marker(policy, topology, periods, requested)))
      ensures Placed(added, old(periods).Keys) && |added| <= CountNew(batch, old(observations))
      ensures report == ReportOf(|batch|, batch, old(Fater(policy, topology, periods, observations, requested)),
                                 old(Later(topology, periods, requested)))
    {
      var accepted;
      accepted, report := Sift(batch, requested);
      FaterNew(policy, topology, periods, observations, requested, batch);
      Book(accepted);
      added := accepted;
    }

    /** A batch that is too big, or would exceed the evidence budget, is refused whole;
        otherwise exactly the records that deserve it are added, in order, and exactly the
        closed periods with late records are marked for correction. */
    method Ingest(batch: seq<Observation>, requested: Option<PeriodId>) returns (r: Result<IngestReport, ErrorCode>)
      requires Valid()
      modifies `periods, `observations, `correctionRequired
      ensures Valid() && Extended()
      ensures r.Err? <==> |batch| > policy.maxBatchRecords || |old(observations)| + CountNew(batch, old(observations)) > policy.maxRetained
      ensures r.Err? ==> r.error == if |batch| > policy.maxBatchRecords then TooManyItems else CapacityExceeded
      ensures r.Err? ==> periods == old(periods) && observations == old(observations) && correctionRequired == old(correctionRequired)
      ensures r.Ok? ==> var marked := Marked(batch, old(Marker(policy, topology, periods, requested)));
                correctionRequired == old(correctionRequired) + marked
      ensures r.Ok? ==> var added := Added(batch, old(Fater(policy, topology, periods, observations, requested)));
                && observations == old(observations) + added && Booked(old(periods), periods, added)
      ensures r.Ok? ==> r.value == ReportOf(|batch|, batch, old(Fater(policy, topology, periods, observations, requested)),
                                            old(Later(topology, periods, requested)))
    {
      if |batch| > policy.maxBatchRecords {
        return Err(TooManyItems);
      }
      var incoming := CountIncoming(batch);
      if |observations| + incoming > policy.maxRetained {
        return Err(CapacityExceeded);
      }
      var report, added := Absorb(batch, requested);
      BookedConsistent(policy, naming, old(periods), revisions, corrections, old(observations), periods, added);
      BookedGrown(old(periods), periods, added, revisions, corrections);
      return Ok(report);
    }

    // ---- closing and correcting ---------------------------------------------

    /** What a revision of the period derived now says. */
    ghost predicate Derives(id: PeriodId, asOf: Instant, figures: Figures)
      reads this
    {
      FromRetained(this, Recorded(), id, asOf, figures)
    }

    /** Whether a revision of the period can be derived now. */
    ghost predicate CanDerive(id: PeriodId, asOf: Instant)
      reads this
    {
      Possible(this, Recorded(), id, asOf)
    }

    ghost predicate CannotDerive(id: PeriodId, asOf: Instant, error: ErrorCode)
      reads this
    {
      derived.fails(Context(policy, topology, asOf), Considered(multiset(observations), id), error)
    }

    ghost predicate CanClose(id: PeriodId, at: Instant)
      reads this
    {
      Closable(this, Recorded(), id, at)
    }

    /** Why a period is not corrected. */
    ghost predicate CannotCorrect(id: PeriodId, at: Instant, error: ErrorCode)
      reads this
    {
      if id !in periods then error == UnknownPeriod
      else if periods[id].state == Open then error == PeriodNotClosed
      else if |CorrectionsIn(corrections, id)| >= policy.maxCorrections then error == CorrectionLimitReached
      else CannotDerive(id, at, error)
    }

    ghost predicate CanCorrect(id: PeriodId, at: Instant)
      reads this
    {
      Correctable(this, Recorded(), id, at)
    }

    method DeriveBody(
      id: PeriodId, asOf: Instant, ordinal: nat, parent: Option<Digest>, correction: Option<CorrectionId>, reason: string)
      returns (r: Result<PeriodRevision, ErrorCode>)
      requires DerivesAs(derived)
      ensures r.Ok? <==> CanDerive(id, asOf)
      ensures r.Err? ==> CannotDerive(id, asOf, r.error)
      ensures r.Ok? ==> Derives(id, asOf, r.value.body.figures)
      ensures r.Ok? ==> r.value == Drafted(naming, RevisionBody(id, ordinal, parent, correction, reason, asOf, r.value.body.figures))
    {
      var figures := Derive(Context(policy, topology, asOf), id, observations);
      if figures.Err? {
        return Err(figures.error);
      }
      var body := RevisionBody(id, ordinal, parent, correction, reason, asOf, figures.value);
      return Ok(PeriodRevision(body, naming.digest(body)));
    }

    method Promote(id: PeriodId, state: PeriodState, revision: PeriodRevision)
      requires id in periods
      modifies `periods, `revisions, `correctionRequired
      ensures Recorded() == Promoted(old(Recorded()), id, state, revision)
    {
      periods := periods[id := PromotedPeriod(periods[id], state, revision.body.ordinal)];
      revisions := revisions[id := HistoryIn(revisions, id) + [revision]];
      correctionRequired := correctionRequired - {id};
    }

    /** The first revision of an open period, or why there is none. */
    method DraftClose(id: PeriodId, closedAt: Instant, reason: string) returns (r: Result<PeriodRevision, ErrorCode>)
      requires DerivesAs(derived)
      ensures r.Ok? <==> CanClose(id, closedAt)
      ensures id !in periods ==> r == Err(UnknownPeriod)
      ensures id in periods && periods[id].state != Open ==> r == Err(PeriodAlreadyClosed)
      ensures id in periods && periods[id].state == Open && r.Err? ==> CannotDerive(id, closedAt, r.error)
      ensures r.Ok? ==> id in periods && periods[id].state == Open && Derives(id, closedAt, r.value.body.figures)
      ensures r.Ok? ==> r.value == FirstRevision(naming, id, closedAt, reason, r.value.body.figures)
    {
      if id !in periods {
        return Err(UnknownPeriod);
      }
      if periods[id].state != Open {
        return Err(PeriodAlreadyClosed);
      }
      r := DeriveBody(id, closedAt, 1, None, None, reason);
    }

    method CommitClose(id: PeriodId, revision: PeriodRevision)
      requires Sound() && id in periods && periods[id].state == Open
      requires revision.digest == naming.digest(revision.body) && revision.body.period == id && revision.body.ordinal == 1
      requires revision.body.parent == None && revision.body.correction == None
      modifies `periods, `revisions, `correctionRequired
      ensures Sound() && Extended()
      ensures HistoryIn(old(revisions), id) == []
      ensures Recorded() == Promoted(old(Recorded()), id, Closed, revision)
    {
      HistoryOf(policy, naming, periods, revisions, corrections, observations, id);
      LinearClosed(naming, id, revision.body);
      var p := PromotedPeriod(periods[id], Closed, 1);
      RevisedConsistent(policy, naming, periods, revisions, corrections, observations, id, p, [revision], corrections, []);
      RevisedGrown(periods, revisions, corrections, id, p, [revision], corrections, []);
      assert [] + [revision] == [revision];
      Promote(id, Closed, revision);
    }

    /** A period closes exactly when it is open and its evidence can be derived; closing
        derives its first revision from the evidence retained now and changes nothing else,
        and a dry run changes nothing. */
    method ClosePeriod(id: PeriodId, closedAt: Instant, reason: string, dryRun: bool) returns (r: Result<PeriodRevision, ErrorCode>)
      requires Valid()
      modifies `periods, `revisions, `correctionRequired
      ensures Valid() && Extended()
      ensures r.Ok? <==> old(CanClose(id, closedAt))
      ensures id !in old(periods) ==> r == Err(UnknownPeriod)
      ensures id in old(periods) && old(periods)[id].state != Open ==> r == Err(PeriodAlreadyClosed)
      ensures id in old(periods) && old(periods)[id].state == Open && r.Err? ==> CannotDerive(id, closedAt, r.error)
      ensures r.Ok? ==> id in old(periods) && HistoryIn(old(revisions), id) == [] && old(Derives(id, closedAt, r.value.body.figures))
      ensures r.Ok? ==> r.value == FirstRevision(naming, id, closedAt, reason, r.value.body.figures)
      ensures Recorded() == if r.Ok? && !dryRun then Promoted(old(Recorded()), id, Closed, r.value) else old(Recorded())
    {
      r := DraftClose(id, closedAt, reason);
      if r.Err? || dryRun {
        return;
      }
      CommitClose(id, r.value);
    }

    /** The next revision of a closed period, or why there is none. */
    method DraftCorrection(id: PeriodId, createdAt: Instant, reason: string) returns (r: Result<PeriodRevision, ErrorCode>)
      requires Valid()
      ensures r.Ok? <==> CanCorrect(id, createdAt)
      ensures r.Err? ==> CannotCorrect(id, createdAt, r.error)
      ensures r.Ok? ==> id in periods && periods[id].state != Open && |CorrectionsIn(corrections, id)| < policy.maxCorrections
                        && HistoryIn(revisions, id) != [] && Derives(id, createdAt, r.value.body.figures)
      ensures r.Ok? ==> r.value == NextRevision(naming, id, Last(HistoryIn(revisions, id)), createdAt, reason, r.value.body.figures)
    {
      var fault := CheckCorrection(id);
      if fault.Some? {
        return Err(fault.value);
      }
      r := DraftNext(id, createdAt, reason);
    }

    method CheckCorrection(id: PeriodId) returns (fault: Option<ErrorCode>)
      requires Sound()
      ensures id !in periods ==> fault == Some(UnknownPeriod)
      ensures id in periods && periods[id].state == Open ==> fault == Some(PeriodNotClosed)
      ensures id in periods && periods[id].state != Open ==>
                HistoryIn(revisions, id) != []
                && fault == if |CorrectionsIn(corrections, id)| >= policy.maxCorrections then Some(CorrectionLimitReached) else None
    {
      if id !in periods {
        return Some(UnknownPeriod);
      }
      HistoryOf(policy, naming, periods, revisions, corrections, observations, id);
      if periods[id].state == Open {
        return Some(PeriodNotClosed);
      }
      if |CorrectionsIn(corrections, id)| >= policy.maxCorrections {
        return Some(CorrectionLimitReached);
      }
      return None;
    }

    method DraftNext(id: PeriodId, createdAt: Instant, reason: string) returns (r: Result<PeriodRevision, ErrorCode>)
      requires DerivesAs(derived) && HistoryIn(revisions, id) != []
      ensures r.Ok? <==> CanDerive(id, createdAt)
      ensures r.Err? ==> CannotDerive(id, createdAt, r.error)
      ensures r.Ok? ==> Derives(id, createdAt, r.value.body.figures)
      ensures r.Ok? ==> r.value == NextRevision(naming, id, Last(HistoryIn(revisions, id)), createdAt, reason, r.value.body.figures)
    {
      var history := HistoryIn(revisions, id);
      var previous := history[|history| - 1];
      var next := previous.body.ordinal + 1;
      var correction := naming.correction(id, next, previous.digest);
      r := DeriveBody(id, createdAt, next, Some(previous.digest), Some(correction), reason);
    }

    method CommitCorrection(id: PeriodId, revision: PeriodRevision)
      requires Sound() && id in periods && |CorrectionsIn(corrections, id)| < policy.maxCorrections
      requires HistoryIn(revisions, id) != [] && revision.digest == naming.digest(revision.body)
      requires Succeeds(naming, id, HistoryIn(revisions, id), revision)
      modifies `periods, `revisions, `corrections, `correctionRequired
      ensures Sound() && Extended()
      ensures Recorded() == Amended(naming, old(Recorded()), id, revision)
    {
      var history, cs := HistoryIn(revisions, id), CorrectionsIn(corrections, id);
      var record := CorrectionFor(naming, id, cs, Last(history), revision);
      CorrectedConsistent(policy, naming, periods, revisions, corrections, observations, id, revision, record);
      corrections := corrections[id := cs + [record]];
      Promote(id, Superseded, revision);
    }

    /** A period is corrected exactly when it is closed, within its budget, and its evidence
        can be derived. Correcting adds one revision, derived from the evidence retained now and
        naming its predecessor, and one record of the step; the old ones stay, and so does
        every other period. */
    method CorrectPeriod(id: PeriodId, createdAt: Instant, reason: string, dryRun: bool) returns (r: Result<PeriodRevision, ErrorCode>)
      requires Valid()
      modifies `periods, `revisions, `corrections, `correctionRequired
      ensures Valid() && Extended()
      ensures r.Ok? <==> old(CanCorrect(id, createdAt))
      ensures r.Err? ==> old(CannotCorrect(id, createdAt, r.error))
      ensures r.Ok? ==> id in old(periods) && HistoryIn(old(revisions), id) != [] && old(Derives(id, createdAt, r.value.body.figures))
      ensures r.Ok? ==> r.value == NextRevision(naming, id, Last(HistoryIn(old(revisions), id)), createdAt, reason, r.value.body.figures)
      ensures Recorded() == if r.Ok? && !dryRun then Amended(naming, old(Recorded()), id, r.value) else old(Recorded())
    {
      r := DraftCorrection(id, createdAt, reason);
      if r.Err? || dryRun {
        return;
      }
      NextSucceeds(naming, id, HistoryIn(revisions, id), createdAt, reason, r.value.body.figures);
      CommitCorrection(id, r.value);
    }

    // ---- checking -----------------------------------------------------------

    /** Counts digests that do not hold and links that are broken. It finds none exactly when
        every history and every chain of corrections is intact, which is always. */
    method VerifyIntegrity() returns (f: Findings)
      ensures Finds(f, Findings(0, 0, 0, 0, 0), multiset(revisions.Keys), InHistory(naming, revisions),
                    multiset(corrections.Keys), InChain(corrections, revisions))
      ensures Clean(f) <==> IntactHistories(naming, revisions) && IntactCorrections(corrections, revisions)
      ensures Sound() ==> Clean(f)
    {
      var none := Findings(0, 0, 0, 0, 0);
      var g := CheckHistories(naming, revisions, none);
      f := CheckChains(corrections, revisions, g);
      FoundTogether(none, g, f, multiset(revisions.Keys), InHistory(naming, revisions),
                    multiset(corrections.Keys), InChain(corrections, revisions));
      FoundNone(f, none, multiset(revisions.Keys), InHistory(naming, revisions),
                multiset(corrections.Keys), InChain(corrections, revisions));
      HistoriesClean(naming, revisions);
      ChainsClean(corrections, revisions);
      if Sound() {
        LinearIntact(naming, policy.maxCorrections, revisions, corrections);
      }
    }
  }

  ghost predicate IntactHistories(naming: Naming, revisions: Histories) {
    forall id | id in revisions :: DigestsHold(naming, revisions[id]) && Chained(revisions[id])
  }

  ghost predicate IntactCorrections(corrections: Ledgers, revisions: Histories) {
    forall id | id in corrections ::
      CorrectionsChained(corrections[id]) && AllMatched(corrections[id], HistoryIn(revisions, id))
  }

  type Finding = PeriodId -> Findings

  function InHistory(naming: Naming, revisions: Histories): Finding {
    (id: PeriodId) => HistoryFindings(naming, HistoryIn(revisions, id))
  }

  function InChain(corrections: Ledgers, revisions: Histories): Finding {
    (id: PeriodId) => ChainFindings(CorrectionsIn(corrections, id), HistoryIn(revisions, id))
  }

  function RevisionsOf(each: Finding): PeriodId -> nat {
    (id: PeriodId) => each(id).revisionsChecked
  }

  function CorrectionsOf(each: Finding): PeriodId -> nat {
    (id: PeriodId) => each(id).correctionsChecked
  }

  function FailedOf(each: Finding): PeriodId -> nat {
    (id: PeriodId) => each(id).failed
  }

  function BreaksOf(each: Finding): PeriodId -> nat {
    (id: PeriodId) => each(id).breaks
  }

  function VerifiedOf(each: Finding): PeriodId -> nat {
    (id: PeriodId) => each(id).verified
  }

  /** Every figure is what it was before and what was found in each. */
  ghost predicate Found(f: Findings, before: Findings, ids: multiset<PeriodId>, each: Finding) {
    && f.revisionsChecked == before.revisionsChecked + SumOf(ids, RevisionsOf(each))
    && f.correctionsChecked == before.correctionsChecked + SumOf(ids, CorrectionsOf(each))
    && f.failed == before.failed + SumOf(ids, FailedOf(each))
    && f.breaks == before.breaks + SumOf(ids, BreaksOf(each))
    && f.verified == before.verified + SumOf(ids, VerifiedOf(each))
  }

  /** What was found in the histories and in the chains of corrections. */
  ghost predicate Finds(
    f: Findings, before: Findings, ids: multiset<PeriodId>, histories: Finding, others: multiset<PeriodId>, chains: Finding)
  {
    exists g :: Found(g, before, ids, histories) && Found(f, g, others, chains)
  }

  lemma FoundTogether(
    before: Findings, g: Findings, f: Findings, ids: multiset<PeriodId>, histories: Finding, others: multiset<PeriodId>, chains: Finding)
    requires Found(g, before, ids, histories) && Found(f, g, others, chains)
    ensures Finds(f, before, ids, histories, others, chains)
  {
  }

  lemma FoundNext(f: Findings, before: Findings, ids: multiset<PeriodId>, id: PeriodId, each: Finding)
    requires Found(f, before, ids, each)
    ensures Found(Plus(f, each(id)), before, ids + multiset{id}, each)
  {
    SumOfAdd(ids, id, RevisionsOf(each));
    SumOfAdd(ids, id, CorrectionsOf(each));
    SumOfAdd(ids, id, FailedOf(each));
    SumOfAdd(ids, id, BreaksOf(each));
    SumOfAdd(ids, id, VerifiedOf(each));
  }

  lemma {:induction false} NothingOf<A>(m: multiset<A>, f: A -> nat)
    ensures SumOf(m, f) == 0 <==> forall a | a in m :: f(a) == 0
    decreases |m|
  {
    if m != multiset{} {
      var a :| a in m;
      SumOfRemove(m, a, f);
      NothingOf(m - multiset{a}, f);
    }
  }

  lemma FoundNothing(f: Findings, before: Findings, ids: multiset<PeriodId>, each: Finding)
    requires Found(f, before, ids, each)
    ensures Clean(f) <==> Clean(before) && forall id | id in ids :: Clean(each(id))
  {
    NothingOf(ids, FailedOf(each));
    NothingOf(ids, BreaksOf(each));
  }

  lemma HistoriesClean(naming: Naming, revisions: Histories)
    ensures (forall id | id in multiset(revisions.Keys) :: Clean(InHistory(naming, revisions)(id))) <==> IntactHistories(naming, revisions)
  {
    forall id | id in revisions
      ensures Clean(InHistory(naming, revisions)(id)) <==> DigestsHold(naming, revisions[id]) && Chained(revisions[id])
    {
      HistoryClean(naming, revisions[id]);
    }
  }

  lemma ChainsClean(corrections: Ledgers, revisions: Histories)
    ensures (forall id | id in multiset(corrections.Keys) :: Clean(InChain(corrections, revisions)(id)))
       <==> IntactCorrections(corrections, revisions)
  {
    forall id | id in corrections
      ensures Clean(InChain(corrections, revisions)(id)) <==>
        CorrectionsChained(corrections[id]) && AllMatched(corrections[id], HistoryIn(revisions, id))
    {
      ChainClean(corrections[id], HistoryIn(revisions, id));
    }
  }

  lemma FoundNone(
    f: Findings, before: Findings, ids: multiset<PeriodId>, histories: Finding, others: multiset<PeriodId>, chains: Finding)
    requires Finds(f, before, ids, histories, others, chains)
    ensures Clean(f) <==> Clean(before) && (forall id | id in ids :: Clean(histories(id))) && forall id | id in others :: Clean(chains(id))
  {
    var g :| Found(g, before, ids, histories) && Found(f, g, others, chains);
    FoundNothing(g, before, ids, histories);
    FoundNothing(f, g, others, chains);
  }

  method CheckHistories(naming: Naming, revisions: Histories, before: Findings) returns (f: Findings)
    ensures Found(f, before, multiset(revisions.Keys), InHistory(naming, revisions))
  {
    f := before;
    var ids := Listing(revisions.Keys);
    ListingMembers(ids, revisions.Keys);
    for i := 0 to |ids|
      invariant Found(f, before, multiset(ids[..i]), InHistory(naming, revisions))
    {
      TakeSucc(ids, i);
      FoundNext(f, before, multiset(ids[..i]), ids[i], InHistory(naming, revisions));
      f := CheckHistory(naming, revisions[ids[i]], f);
    }
    TakeAll(ids);
  }

  method CheckChains(corrections: Ledgers, revisions: Histories, before: Findings) returns (f: Findings)
    ensures Found(f, before, multiset(corrections.Keys), InChain(corrections, revisions))
  {
    f := before;
    var ids := Listing(corrections.Keys);
    ListingMembers(ids, corrections.Keys);
    for i := 0 to |ids|
      invariant Found(f, before, multiset(ids[..i]), InChain(corrections, revisions))
    {
      TakeSucc(ids, i);
      FoundNext(f, before, multiset(ids[..i]), ids[i], InChain(corrections, revisions));
      var history := if ids[i] in revisions then Some(revisions[ids[i]]) else None;
      f := CheckCorrections(corrections[ids[i]], history, f);
    }
    TakeAll(ids);
  }

  lemma LinearIntact(naming: Naming, budget: nat, revisions: Histories, corrections: Ledgers)
    requires AllLinear(naming, budget, revisions, corrections)
    ensures IntactHistories(naming, revisions) && IntactCorrections(corrections, revisions)
  {
    forall id ensures id in revisions ==> DigestsHold(naming, revisions[id]) && Chained(revisions[id])
              ensures id in corrections ==> CorrectionsChained(corrections[id]) && AllMatched(corrections[id], HistoryIn(revisions, id))
    {
      LinearPasses(naming, id, HistoryIn(revisions, id), CorrectionsIn(corrections, id));
    }
  }

  // ---- runs ----------------------------------------------------------------

  datatype Request =
    | ToOpen(id: PeriodId, name: string)
    | ToIngest(batch: seq<Observation>, requested: Option<PeriodId>)
    | ToClose(id: PeriodId, at: Instant, reason: string, dryRun: bool)
    | ToCorrect(id: PeriodId, at: Instant, reason: string, dryRun: bool)

  /** A request is granted exactly when it can be, and then has its effect; otherwise it
      changes nothing. */
  ghost predicate Answered(ledger: Ledger, request: Request, granted: bool, s: Snapshot, s': Snapshot) {
    match request
    case ToOpen(id, name) =>
      && (granted <==> Openable(ledger.policy, s.periods, id, name))
      && s' == if granted then s.(periods := s.periods[id := Period(|s.periods| + 1, name, Open, 0, 0)]) else s
    case ToIngest(batch, requested) =>
      && (granted <==> |batch| <= ledger.policy.maxBatchRecords
                       && |s.observations| + CountNew(batch, s.observations) <= ledger.policy.maxRetained)
      && if granted then Ingested(ledger, s, s', batch, requested) else s' == s
    case ToClose(id, at, reason, dryRun) =>
      && (granted <==> Closable(ledger, s, id, at))
      && if granted && !dryRun then ClosedAs(ledger, s, s', id, at, reason) else s' == s
    case ToCorrect(id, at, reason, dryRun) =>
      && (granted <==> Correctable(ledger, s, id, at))
      && if granted && !dryRun then CorrectedAs(ledger, s, s', id, at, reason) else s' == s
  }

  /** The deserving records are added, each is booked to its period, and closed periods with
      late records are marked; nothing else changes. */
  ghost predicate Ingested(ledger: Ledger, s: Snapshot, s': Snapshot, batch: seq<Observation>, requested: Option<PeriodId>) {
    var accepted := Accepts(ledger, batch, requested, s);
    && Booked(s.periods, s'.periods, accepted)
    && s' == s.(periods := s'.periods, observations := s.observations + accepted,
                correctionRequired := s.correctionRequired
                  + Marked(batch, Marker(ledger.policy, ledger.topology, s.periods, requested)))
  }

  /** Figures derived from what was retained are the first revision; nothing else changes. */
  ghost predicate ClosedAs(ledger: Ledger, s: Snapshot, s': Snapshot, id: PeriodId, at: Instant, reason: string) {
    exists figures :: FromRetained(ledger, s, id, at, figures) && id in s.periods
      && s' == Promoted(s, id, Closed, FirstRevision(ledger.naming, id, at, reason, figures))
  }

  /** Figures derived from what was retained are the next revision; nothing else changes but
      the period's chain of corrections. */
  ghost predicate CorrectedAs(ledger: Ledger, s: Snapshot, s': Snapshot, id: PeriodId, at: Instant, reason: string) {
    exists figures :: FromRetained(ledger, s, id, at, figures) && id in s.periods && HistoryIn(s.revisions, id) != []
      && s' == Amended(ledger.naming, s, id,
                       NextRevision(ledger.naming, id, Last(HistoryIn(s.revisions, id)), at, reason, figures))
  }

  ghost predicate FromRetained(ledger: Ledger, s: Snapshot, id: PeriodId, at: Instant, figures: Figures) {
    ledger.derived.gives(Context(ledger.policy, ledger.topology, at), Considered(multiset(s.observations), id), figures)
  }

  predicate SpanAllowed(policy: Policy, id: PeriodId) {
    id.start < id.end && MIN_WINDOW_NANOS <= id.end - id.start <= policy.maxPeriodSpan
  }

  /** A period opens exactly when its span is allowed and it overlaps no other. */
  predicate Openable(policy: Policy, periods: map<PeriodId, Period>, id: PeriodId, name: string) {
    && SpanAllowed(policy, id) && |name| <= MAX_LABEL && |periods| < MAX_PERIODS
    && forall other | other in periods :: !Overlapping(id, other)
  }

  /** The records of a batch that are added. */
  ghost function Accepts(ledger: Ledger, batch: seq<Observation>, requested: Option<PeriodId>, s: Snapshot): seq<Observation> {
    Added(batch, Fater(ledger.policy, ledger.topology, s.periods, s.observations, requested))
  }

  /** A period closes exactly when it is open and its evidence can be derived. */
  ghost predicate Closable(ledger: Ledger, s: Snapshot, id: PeriodId, at: Instant) {
    id in s.periods && s.periods[id].state == Open && Possible(ledger, s, id, at)
  }

  ghost predicate Correctable(ledger: Ledger, s: Snapshot, id: PeriodId, at: Instant) {
    && id in s.periods && s.periods[id].state != Open
    && |CorrectionsIn(s.corrections, id)| < ledger.policy.maxCorrections && Possible(ledger, s, id, at)
  }

  ghost predicate Possible(ledger: Ledger, s: Snapshot, id: PeriodId, at: Instant) {
    ledger.derived.possible(Context(ledger.policy, ledger.topology, at), Considered(multiset(s.observations), id))
  }

  method ServeOpen(ledger: Ledger, id: PeriodId, name: string) returns (granted: bool)
    requires ledger.Valid()
    modifies ledger
    ensures ledger.Valid() && ledger.Extended()
    ensures Answered(ledger, ToOpen(id, name), granted, old(ledger.Recorded()), ledger.Recorded())
  {
    var r := ledger.OpenPeriod(id, name);
    granted := r.Ok?;
  }

  method ServeBatch(ledger: Ledger, batch: seq<Observation>, requested: Option<PeriodId>) returns (granted: bool)
    requires ledger.Valid()
    modifies ledger
    ensures ledger.Valid() && ledger.Extended()
    ensures Answered(ledger, ToIngest(batch, requested), granted, old(ledger.Recorded()), ledger.Recorded())
  {
    var r := ledger.Ingest(batch, requested);
    granted := r.Ok?;
  }

  method ServeClose(ledger: Ledger, id: PeriodId, at: Instant, reason: string, dryRun: bool) returns (granted: bool)
    requires ledger.Valid()
    modifies ledger
    ensures ledger.Valid() && ledger.Extended()
    ensures Answered(ledger, ToClose(id, at, reason, dryRun), granted, old(ledger.Recorded()), ledger.Recorded())
  {
    var r := ledger.ClosePeriod(id, at, reason, dryRun);
    granted := r.Ok?;
  }

  method ServeCorrection(ledger: Ledger, id: PeriodId, at: Instant, reason: string, dryRun: bool) returns (granted: bool)
    requires ledger.Valid()
    modifies ledger
    ensures ledger.Valid() && ledger.Extended()
    ensures Answered(ledger, ToCorrect(id, at, reason, dryRun), granted, old(ledger.Recorded()), ledger.Recorded())
  {
    var r := ledger.CorrectPeriod(id, at, reason, dryRun);
    granted := r.Ok?;
  }

  type Answering = (Request, bool, Snapshot, Snapshot) -> bool

  ghost predicate AnswersAs(ledger: Ledger, answered: Answering) {
    forall request, granted, s, s' {:trigger Answered(ledger, request, granted, s, s')} ::
      answered(request, granted, s, s') <==> Answered(ledger, request, granted, s, s') && Kept(s, s')
  }

  /** Nothing recorded is changed or lost. */
  ghost predicate Kept(s: Snapshot, s': Snapshot) {
    && SamePeriods(s.periods, s'.periods)
    && Grown(s.revisions, s'.revisions, s.corrections, s'.corrections)
    && s.observations <= s'.observations
  }

  lemma KeptJoin(s: Snapshot, t: Snapshot, u: Snapshot)
    requires Kept(s, t) && Kept(t, u)
    ensures Kept(s, u)
  {
    GrownJoin(s.revisions, t.revisions, u.revisions, s.corrections, t.corrections, u.corrections);
  }

  lemma {:induction false} KeptThroughout(seen: seq<Snapshot>)
    requires seen != [] && forall i | 0 <= i < |seen| - 1 :: Kept(seen[i], seen[i + 1])
    ensures Kept(seen[0], seen[|seen| - 1])
  {
    if |seen| > 1 {
      var n := |seen| - 1;
      KeptThroughout(seen[..n]);
      KeptJoin(seen[0], seen[n - 1], seen[n]);
    }
  }

  method Serve(ledger: Ledger, request: Request, ghost answered: Answering) returns (granted: bool)
    requires ledger.Valid() && AnswersAs(ledger, answered)
    modifies ledger
    ensures ledger.Valid()
    ensures answered(request, granted, old(ledger.Recorded()), ledger.Recorded())
  {
    match request
    case ToOpen(id, name) => granted := ServeOpen(ledger, id, name);
    case ToIngest(batch, requested) => granted := ServeBatch(ledger, batch, requested);
    case ToClose(id, at, reason, dryRun) => granted := ServeClose(ledger, id, at, reason, dryRun);
    case ToCorrect(id, at, reason, dryRun) => granted := ServeCorrection(ledger, id, at, reason, dryRun);
  }

  method ServeAll(ledger: Ledger, requests: seq<Request>, ghost answered: Answering)
    returns (granted: seq<bool>, ghost seen: seq<Snapshot>)
    requires ledger.Valid() && AnswersAs(ledger, answered)
    modifies ledger
    ensures ledger.Valid()
    ensures |granted| == |requests| && |seen| == |requests| + 1
    ensures seen[0] == old(ledger.Recorded()) && seen[|requests|] == ledger.Recorded()
    ensures forall i | 0 <= i < |requests| :: answered(requests[i], granted[i], seen[i], seen[i + 1])
  {
    granted, seen := [], [ledger.Recorded()];
    for i := 0 to |requests|
      invariant ledger.Valid()
      invariant |granted| == i && |seen| == i + 1 && seen[0] == old(ledger.Recorded()) && seen[i] == ledger.Recorded()
      invariant forall j | 0 <= j < i :: answered(requests[j], granted[j], seen[j], seen[j + 1])
    {
      var ok := Serve(ledger, requests[i], answered);
      granted, seen := granted + [ok], seen + [ledger.Recorded()];
    }
  }

  lemma GrownJoin(a: Histories, b: Histories, c: Histories, x: Ledgers, y: Ledgers, z: Ledgers)
    requires Grown(a, b, x, y) && Grown(b, c, y, z)
    ensures Grown(a, c, x, z)
  {
    forall id ensures HistoryIn(a, id) <= HistoryIn(c, id) {
      assert HistoryIn(a, id) <= HistoryIn(b, id) <= HistoryIn(c, id);
    }
    forall id ensures CorrectionsIn(x, id) <= CorrectionsIn(z, id) {
      assert CorrectionsIn(x, id) <= CorrectionsIn(y, id) <= CorrectionsIn(z, id);
    }
  }

  /** Whatever is asked of a ledger, in whatever order: each request is granted exactly when
      it can be and has exactly its effect, the ledger stays consistent, what it recorded stays
      as it was, and the integrity check finds nothing. */
  method Run(ledger: Ledger, requests: seq<Request>) returns (f: Findings, granted: seq<bool>, ghost seen: seq<Snapshot>)
    requires ledger.Valid()
    modifies ledger
    ensures ledger.Valid() && Clean(f)
    ensures |granted| == |requests| && |seen| == |requests| + 1
    ensures seen[0] == old(ledger.Recorded()) && seen[|requests|] == ledger.Recorded()
    ensures forall i | 0 <= i < |requests| :: Answered(ledger, requests[i], granted[i], seen[i], seen[i + 1])
    ensures ledger.Extended()
  {
    granted, seen := ServeAll(ledger, requests, (request, ok, s, s') => Answered(ledger, request, ok, s, s') && Kept(s, s'));
    KeptThroughout(seen);
    f := ledger.VerifyIntegrity();
  }

  /** In a valid ledger no record is considered in two periods. */
  lemma ConsideredOnce(ids: set<PeriodId>, observations: seq<Observation>, a: PeriodId, b: PeriodId)
    requires Disjoint(ids) && Placed(observations, ids) && a in ids && b in ids && a != b
    ensures forall o :: !(o in Considered(multiset(observations), a) && o in Considered(multiset(observations), b))
  {
    forall o | o in multiset(observations) ensures !(Within(WindowOf(o), a) && Within(WindowOf(o), b)) {
      var i :| 0 <= i < |observations| && observations[i] == o;
      OnePeriodEach(a, b, observations[i]);
    }
  }
}
