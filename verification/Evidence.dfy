/** Evidence records, policies, freshness, admissibility and attribution. */
module Evidence {

  import opened Common
  import opened Fabric

  datatype MeasureKind =
    | WireBytes | PayloadBytes | PortOccupancyNanos | CapacityNanos | ControlMessages | FrameCount

  datatype Category =
    | UsefulDeliveredWork | Retransmission | Duplication | RerouteOverhead | IdleReservation
    | FailedTransfer | StrandedCapacity | ControlOverhead | UnknownUnattributed

  datatype Usefulness = Useful | NecessaryOverhead | Avoidable | Failed | Unclassified

  datatype Role = ContributionRole | TotalRole

  datatype UnknownReason =
    | NoReason | NoEvidence | StaleEvidence | ExpiredEvidence | FencedEpoch | RetiredIncarnation
    | StaleGeneration | ConflictingReports | DuplicateSuppressed | UnsupportedProvenance
    | ResidualUnclassified | AttributionFailure | ClockAnomaly | OverAttributed

  function UsefulnessOf(c: Category): Usefulness {
    match c
    case UsefulDeliveredWork => Useful
    case ControlOverhead => NecessaryOverhead
    case Retransmission => Avoidable
    case Duplication => Avoidable
    case RerouteOverhead => Avoidable
    case IdleReservation => Avoidable
    case StrandedCapacity => Avoidable
    case FailedTransfer => Failed
    case UnknownUnattributed => Unclassified
  }

  /** Everything the content digest covers. Two records have equal digests exactly
      when their contents are equal; metadata is sorted before hashing, so its order
      does not matter. */
  datatype Content = Content(
    origin: Id,
    source: Id,
    incarnation: Id,
    epoch: nat,
    sequence: nat,
    generation: Id,
    observedAt: Instant,
    kind: MeasureKind,
    role: Role,
    category: Category,
    resource: Option<Id>,
    flow: Option<Id>,
    path: Option<Id>,
    reservation: Option<Id>,
    amount: U64,
    windowStart: Instant,
    windowEnd: Instant,
    metadata: multiset<(string, string)>)

  datatype Observation = Observation(id: Id, receivedAt: Instant, content: Content)

  datatype Window = Window(start: Instant, end: Instant)

  function WindowOf(o: Observation): Window {
    Window(o.content.windowStart, o.content.windowEnd)
  }

  predicate Within(w: Window, period: Window) {
    w.start >= period.start && w.end <= period.end
  }

  // ---- policies ------------------------------------------------------------

  datatype ConflictPolicy = RecordAndUnknown | StrictFail | PreferHigherAuthority
  datatype ResidualPolicy = AttributeToUnknown | RejectResidual
  datatype ExcessPolicy = RecordViolation | RejectExcess
  datatype StalePolicy = ExcludeStale | IncludeMarked
  datatype LatePolicy = RejectLate | RequiresCorrection
  datatype TieBreak = RejectTie | LowestSourceIdWins | HighestSourceIdWins

  datatype FreshnessPolicy = FreshnessPolicy(
    freshTtl: int,
    staleTtl: int,
    skewAllowance: int,
    requireGenerationBinding: bool,
    requireIncarnationCoverage: bool,
    rejectFuture: bool)

  datatype Policy = Policy(
    freshness: FreshnessPolicy,
    conflict: ConflictPolicy,
    residual: ResidualPolicy,
    excess: ExcessPolicy,
    stale: StalePolicy,
    late: LatePolicy,
    tieBreak: TieBreak,
    requireTotals: bool,
    maxPeriodSpan: int,
    maxBatchRecords: nat,
    maxRetained: nat,
    maxCorrections: nat)

  // ---- freshness and admissibility ----------------------------------------

  datatype FreshnessClass = Fresh | Stale | Expired | Future

  datatype Freshness = Freshness(klass: FreshnessClass, usable: bool, reason: UnknownReason)

  function AssessFreshness(o: Observation, asOf: Instant, policy: FreshnessPolicy, stale: StalePolicy): Freshness {
    if o.content.observedAt > o.receivedAt then
      Freshness(Future, false, ClockAnomaly)
    else if o.content.observedAt > asOf + policy.skewAllowance || o.receivedAt > asOf + policy.skewAllowance then
      if policy.rejectFuture then Freshness(Future, false, ClockAnomaly) else Freshness(Future, true, NoReason)
    else
      var age := if asOf - o.content.observedAt < 0 then 0 else asOf - o.content.observedAt;
      if age <= policy.freshTtl then Freshness(Fresh, true, NoReason)
      else if age <= policy.staleTtl then Freshness(Stale, stale == IncludeMarked, StaleEvidence)
      else Freshness(Expired, false, ExpiredEvidence)
  }

  function Age(o: Observation, asOf: Instant): int {
    if asOf - o.content.observedAt < 0 then 0 else asOf - o.content.observedAt
  }

  /** Time can be trusted: no record is received before it was observed, or from too far ahead. */
  predicate InTime(o: Observation, asOf: Instant, policy: FreshnessPolicy) {
    && o.content.observedAt <= o.receivedAt
    && o.content.observedAt <= asOf + policy.skewAllowance && o.receivedAt <= asOf + policy.skewAllowance
  }

  /** The classes a record passes through as it ages. */
  function Ripeness(klass: FreshnessClass): nat {
    match klass
    case Future => 0
    case Fresh => 1
    case Stale => 2
    case Expired => 3
  }

  /** A record only ages: seen later it is never in a younger class, and never usable
      again once it has expired. */
  lemma OnlyAges(o: Observation, asOf: Instant, later: Instant, policy: FreshnessPolicy, stale: StalePolicy)
    requires asOf <= later
    ensures Ripeness(AssessFreshness(o, asOf, policy, stale).klass) <= Ripeness(AssessFreshness(o, later, policy, stale).klass)
    ensures AssessFreshness(o, asOf, policy, stale).klass == Expired ==> !AssessFreshness(o, later, policy, stale).usable
  {
    assert InTime(o, asOf, policy) ==> InTime(o, later, policy);
    assert Age(o, asOf) <= Age(o, later);
  }

  datatype Assessment = Assessment(accepted: bool, reason: UnknownReason, klass: FreshnessClass)

  /** The class reported when assessment stops before freshness is looked at. */
  const UNASSESSED: FreshnessClass := Expired

  /** The source may speak for what it reports. */
  predicate Vouched(source: Source) {
    Countable(source.provenance) && source.enabled
  }

  /** The declared incarnation is one of the source's and was running when the record came in. */
  predicate Covered(o: Observation, incarnation: Option<Incarnation>) {
    && incarnation.Some? && incarnation.value.source == o.content.source
    && incarnation.value.startedAt <= o.receivedAt && !RetiredBefore(o, incarnation.value)
  }

  predicate RetiredBefore(o: Observation, incarnation: Incarnation) {
    incarnation.retiredAt.Some? && o.receivedAt > incarnation.retiredAt.value
  }

  predicate Fenced(o: Observation, incarnation: Option<Incarnation>) {
    incarnation.Some? && o.content.epoch < incarnation.value.bootEpoch
  }

  predicate Bound(o: Observation, t: Topology) {
    o.content.resource.Some? ==> GenerationBinds(t, o.content.resource.value, o.content.generation, o.content.observedAt)
  }

  /** Whatever the policy demands of a record's origin holds. */
  predicate WellFounded(o: Observation, policy: FreshnessPolicy, source: Source, incarnation: Option<Incarnation>) {
    Vouched(source) && (policy.requireIncarnationCoverage ==> Covered(o, incarnation))
  }

  predicate WellPlaced(o: Observation, policy: FreshnessPolicy, t: Topology, source: Source, incarnation: Option<Incarnation>) {
    && WellFounded(o, policy, source, incarnation) && !Fenced(o, incarnation)
    && (policy.requireGenerationBinding ==> Bound(o, t))
  }

  /** What is wrong with where a record comes from, if anything; checked in this order. */
  function OriginFault(
    o: Observation, policy: FreshnessPolicy, t: Topology, source: Source, incarnation: Option<Incarnation>)
    : (reason: UnknownReason)
    ensures reason == NoReason <==> WellPlaced(o, policy, t, source, incarnation)
    ensures reason == UnsupportedProvenance <==> !Vouched(source)
    ensures reason in {RetiredIncarnation, AttributionFailure, ClockAnomaly} <==>
              Vouched(source) && policy.requireIncarnationCoverage && !Covered(o, incarnation)
    ensures reason == AttributionFailure ==> incarnation.Some? && incarnation.value.source != o.content.source
    ensures reason == RetiredIncarnation ==> incarnation.None? || RetiredBefore(o, incarnation.value)
    ensures reason == ClockAnomaly ==> incarnation.Some? && o.receivedAt < incarnation.value.startedAt
                                       && !RetiredBefore(o, incarnation.value)
    ensures reason == FencedEpoch <==> WellFounded(o, policy, source, incarnation) && Fenced(o, incarnation)
    ensures reason == StaleGeneration <==>
              && WellFounded(o, policy, source, incarnation) && !Fenced(o, incarnation)
              && policy.requireGenerationBinding && !Bound(o, t)
  {
    var coverage := policy.requireIncarnationCoverage;
    if !Countable(source.provenance) then UnsupportedProvenance
    else if !source.enabled then UnsupportedProvenance
    else if coverage && incarnation.None? then RetiredIncarnation
    else if coverage && incarnation.value.source != o.content.source then AttributionFailure
    else if coverage && RetiredBefore(o, incarnation.value) then RetiredIncarnation
    else if coverage && o.receivedAt < incarnation.value.startedAt then ClockAnomaly
    else if Fenced(o, incarnation) then FencedEpoch
    else if policy.requireGenerationBinding && !Bound(o, t) then StaleGeneration
    else NoReason
  }

  /** A record with no fault of origin is judged by its age alone. */
  function AssessAdmissibility(
    o: Observation, asOf: Instant, policy: Policy, t: Topology, source: Source, incarnation: Option<Incarnation>)
    : (r: Assessment)
    ensures r.accepted <==> r.reason == NoReason
    ensures r.accepted <==>
              && WellPlaced(o, policy.freshness, t, source, incarnation)
              && if InTime(o, asOf, policy.freshness)
                 then Age(o, asOf) <= policy.freshness.freshTtl
                      || (Age(o, asOf) <= policy.freshness.staleTtl && policy.stale == IncludeMarked)
                 else o.content.observedAt <= o.receivedAt && !policy.freshness.rejectFuture
    ensures !WellPlaced(o, policy.freshness, t, source, incarnation) ==>
              r.reason == OriginFault(o, policy.freshness, t, source, incarnation)
    ensures WellPlaced(o, policy.freshness, t, source, incarnation) && !r.accepted ==>
              r.reason == if !InTime(o, asOf, policy.freshness) then ClockAnomaly
                          else if Age(o, asOf) <= policy.freshness.staleTtl then StaleEvidence
                          else ExpiredEvidence
  {
    var fault := OriginFault(o, policy.freshness, t, source, incarnation);
    if fault != NoReason then Assessment(false, fault, UNASSESSED)
    else
      var f := AssessFreshness(o, asOf, policy.freshness, policy.stale);
      if f.usable then Assessment(true, NoReason, f.klass) else Assessment(false, f.reason, f.klass)
  }

  // ---- attribution ---------------------------------------------------------

  datatype Basis = ResourceDirect | FlowDirect | PathDirect | ReservationDirect | ScopeDeclared | Unattributed

  datatype ClaimKey = ClaimKey(
    generation: Id, scope: Id, kind: MeasureKind, category: Category, basis: Basis,
    resource: Id, flow: Id, path: Id, reservation: Id)

  /** The cell a record is counted in: resource, path, flow and reservation are tried in this order. */
  function Attribute(o: Observation, t: Topology): Result<ClaimKey, ErrorCode> {
    var c := o.content;
    var blank := ClaimKey(c.generation, NIL, c.kind, c.category, Unattributed, NIL, NIL, NIL, NIL);
    if c.resource.Some? then
      if c.resource.value !in t.resources then Err(UnknownResource)
      else
        var scope := t.resources[c.resource.value].scope;
        if scope !in t.scopes then Err(UnknownScope)
        else Ok(blank.(basis := ResourceDirect, resource := c.resource.value, scope := scope))
    else if c.path.Some? then
      if c.path.value !in t.paths then Err(UnknownResource)
      else Ok(blank.(basis := PathDirect, path := c.path.value, scope := t.paths[c.path.value].scope))
    else if c.flow.Some? then
      if c.flow.value !in t.flows then Err(UnknownResource)
      else Ok(blank.(basis := FlowDirect, flow := c.flow.value, scope := t.flows[c.flow.value].scope))
    else if c.reservation.Some? then
      if c.reservation.value !in t.reservations then Err(UnknownResource)
      else Ok(blank.(basis := ReservationDirect, reservation := c.reservation.value,
                     scope := t.reservations[c.reservation.value].scope))
    else Ok(blank)
  }
}
