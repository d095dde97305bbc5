/** The result of one derivation pass, stated as a function of the multiset of
    records the period considers. Nothing here depends on the order in which
    evidence was stored, delivered or sorted. */
module Derivation {

  import opened Common
  import opened Fabric
  import opened Evidence
  import opened Folds
  import opened Ordering
  import opened Dispute

  type Records = multiset<Observation>

  /** What a derivation is run against, besides the evidence. */
  datatype Context = Context(policy: Policy, topology: Topology, asOf: Instant)

  // ---- restriction of a multiset -------------------------------------------

  ghost function Members<K>(m: Records, key: Observation -> K, k: K): (r: Records)
    ensures forall o :: r[o] == if key(o) == k then m[o] else 0
    decreases |m|
  {
    if m == multiset{} then multiset{}
    else
      var o :| o in m;
      var rest := Members(m - multiset{o}, key, k);
      if key(o) == k then rest + multiset{o} else rest
  }

  ghost function KeysOf<K>(m: Records, key: Observation -> K): set<K> {
    set o | o in m :: key(o)
  }

  /** The records with one key, in the order they have in s. */
  function Keep<K(==)>(s: seq<Observation>, key: Observation -> K, k: K): seq<Observation> {
    if s == [] then []
    else
      var n := |s| - 1;
      Keep(s[..n], key, k) + (if key(s[n]) == k then [s[n]] else [])
  }

  /** The records whose reporting window lies inside the period. */
  ghost function Considered(evidence: Records, period: Window): Records {
    Members(evidence, InPeriod(period), true)
  }

  function InPeriod(period: Window): Observation -> bool {
    o => Within(WindowOf(o), period)
  }

  // ---- identities of records -----------------------------------------------

  function IdOf(o: Observation): Id { o.id }

  function OriginOf(o: Observation): Id { o.content.origin }

  datatype SequenceKey = SequenceKey(source: Id, incarnation: Id, sequence: nat)

  function SequenceOf(o: Observation): SequenceKey {
    SequenceKey(o.content.source, o.content.incarnation, o.content.sequence)
  }

  // ---- exclusion -----------------------------------------------------------

  /** Another record, or another copy of this one, claims the same evidence identity. */
  ghost predicate Collides(c: Records, o: Observation) {
    c[o] > 1 || exists p | p in c :: p != o && p.id == o.id
  }

  /** Some record of the group differs in content, or is the same content delivered
      under a smaller identity. */
  ghost predicate Outranked<K>(c: Records, key: Observation -> K, o: Observation) {
    exists p | p in c :: key(p) == key(o) && (p.content != o.content || p.id < o.id)
  }

  ghost predicate Excluded(c: Records, o: Observation) {
    Collides(c, o) || Outranked<Id>(c, OriginOf, o) || Outranked(c, SequenceOf, o)
  }

  // ---- admission -----------------------------------------------------------

  /** No candidate of the same incarnation, excluded or not, carries a later epoch. */
  ghost predicate AtPeak(c: Records, o: Observation) {
    forall p | p in c && p.content.incarnation == o.content.incarnation :: p.content.epoch <= o.content.epoch
  }

  function AssessmentOf(ctx: Context, o: Observation): Assessment
    requires o.content.source in ctx.topology.sources
  {
    AssessAdmissibility(o, ctx.asOf, ctx.policy, ctx.topology, ctx.topology.sources[o.content.source],
                        Find(ctx.topology.incarnations, o.content.incarnation))
  }

  /** Why a record that survived exclusion is refused; NoReason when it is admitted. */
  function Refusal(ctx: Context, atPeak: bool, o: Observation): UnknownReason {
    if o.content.source !in ctx.topology.sources then AttributionFailure
    else if !Countable(ctx.topology.sources[o.content.source].provenance) then UnsupportedProvenance
    else if o.content.incarnation in ctx.topology.incarnations && !atPeak then FencedEpoch
    else AssessmentOf(ctx, o).reason
  }

  ghost predicate IsAdmitted(ctx: Context, c: Records, o: Observation) {
    !Excluded(c, o) && Refusal(ctx, AtPeak(c, o), o) == NoReason
  }

  ghost function Admitted(ctx: Context, c: Records): set<Observation> {
    set o | o in c && IsAdmitted(ctx, c, o)
  }

  // ---- accounting cells ----------------------------------------------------

  datatype CellKey = CellKey(key: ClaimKey, window: Window)

  function CellOf(t: Topology): Observation -> CellKey {
    o => CellKey(match Attribute(o, t)
                 case Ok(k) => k
                 case Err(_) => ClaimKey(NIL, NIL, o.content.kind, o.content.category, Unattributed, NIL, NIL, NIL, NIL),
                 WindowOf(o))
  }

  predicate IsEntry(t: Topology, o: Observation) {
    o.content.role == ContributionRole && Attribute(o, t).Ok?
  }

  ghost function Entries(ctx: Context, c: Records): set<Observation> {
    set o | o in Admitted(ctx, c) && IsEntry(ctx.topology, o)
  }

  ghost function CellKeys(ctx: Context, c: Records): set<CellKey> {
    set o | o in Entries(ctx, c) :: CellOf(ctx.topology)(o)
  }

  ghost function Cell(ctx: Context, c: Records, ck: CellKey): set<Observation> {
    set o | o in Entries(ctx, c) && CellOf(ctx.topology)(o) == ck
  }

  ghost function Amounts(cell: set<Observation>): set<nat> {
    set o | o in cell :: o.content.amount
  }

  ghost function ByAmountOf(cell: set<Observation>): ByAmount {
    map a | a in Amounts(cell) :: set o | o in cell && o.content.amount == a :: o.content.source
  }

  function AuthorityOf(t: Topology): Authority {
    map s | s in t.sources :: t.sources[s].authority
  }

  ghost function Verdict(ctx: Context, cell: set<Observation>): Result<Outcome, ErrorCode> {
    Resolve(ByAmountOf(cell), AuthorityOf(ctx.topology), ctx.policy)
  }

  /** The record of a set that has the lowest evidence identity. */
  ghost predicate IsFirst(o: Observation, s: set<Observation>) {
    o in s && forall p | p in s :: o.id <= p.id
  }

  ghost function First(s: set<Observation>): (o: Observation)
    requires s != {}
    ensures IsFirst(o, s)
  {
    FirstExists(s);
    var first :| IsFirst(first, s);
    first
  }

  lemma {:induction false} FirstExists(s: set<Observation>)
    requires s != {}
    ensures exists o :: IsFirst(o, s)
    decreases |s|
  {
    var a :| a in s;
    var rest := s - {a};
    if rest == {} {
      assert forall p | p in s :: p == a || p in rest;
      assert IsFirst(a, s);
    } else {
      FirstExists(rest);
      var b :| IsFirst(b, rest);
      var m := if a.id <= b.id then a else b;
      assert forall p | p in s :: p == a || p in rest;
      assert IsFirst(m, s);
    }
  }

  datatype Contribution = Contribution(
    key: ClaimKey, amount: U64, window: Window, evidence: Id, source: Id,
    provenance: Provenance, authority: nat, stale: bool)

  /** The contribution that counts one record. Only an undisputed cell keeps the stale mark. */
  function CountedAs(ctx: Context, ck: CellKey, o: Observation, disputed: bool): Contribution {
    var t := ctx.topology;
    Contribution(ck.key, o.content.amount, ck.window, o.id, o.content.source,
                 if o.content.source in t.sources then t.sources[o.content.source].provenance else Real,
                 Rank(AuthorityOf(t), o.content.source),
                 !disputed && o.content.source in t.sources && AssessmentOf(ctx, o).klass == Stale)
  }

  ghost function WithAmount(cell: set<Observation>, amount: nat): set<Observation> {
    set o | o in cell && o.content.amount == amount
  }

  /** The record counted for a cell, when the cell is counted at all. */
  ghost function Chosen(ctx: Context, cell: set<Observation>): Option<Observation> {
    match Verdict(ctx, cell)
    case Ok(Resolved(amount)) => if WithAmount(cell, amount) == {} then None else Some(First(WithAmount(cell, amount)))
    case _ => None
  }

  ghost function ContributionOf(ctx: Context, c: Records, ck: CellKey): Option<Contribution> {
    var cell := Cell(ctx, c, ck);
    match Chosen(ctx, cell)
    case Some(o) => Some(CountedAs(ctx, ck, o, |Amounts(cell)| > 1))
    case None => None
  }

  ghost function Contributions(ctx: Context, c: Records): set<Contribution> {
    set ck | ck in CellKeys(ctx, c) && ContributionOf(ctx, c, ck).Some? :: ContributionOf(ctx, c, ck).value
  }

  /** Under the strict conflict policy one disputed cell fails the whole derivation. */
  ghost predicate StrictlyConflicting(ctx: Context, c: Records) {
    ctx.policy.conflict == StrictFail && exists ck | ck in CellKeys(ctx, c) :: |Amounts(Cell(ctx, c, ck))| != 1
  }

  // ---- totals --------------------------------------------------------------

  datatype DomainKey = DomainKey(scope: Id, generation: Id, kind: MeasureKind)

  datatype TotalKey = TotalKey(domain: DomainKey, window: Window)

  datatype TotalCell = TotalCell(domain: DomainKey, amount: U64, window: Window, evidence: Id, source: Id)

  function TotalCellOf(t: Topology, o: Observation): TotalCell {
    TotalCell(DomainKey(match Attribute(o, t) case Ok(k) => k.scope case Err(_) => NIL,
                        o.content.generation, o.content.kind),
              o.content.amount, WindowOf(o), o.id, o.content.source)
  }

  function TotalKeyOf(t: Topology): Observation -> TotalKey {
    o => TotalKey(TotalCellOf(t, o).domain, WindowOf(o))
  }

  ghost function Totals(ctx: Context, c: Records): set<Observation> {
    set o | o in Admitted(ctx, c) && o.content.role == TotalRole
  }

  ghost function TotalKeys(ctx: Context, c: Records): set<TotalKey> {
    set o | o in Totals(ctx, c) :: TotalKeyOf(ctx.topology)(o)
  }

  ghost function TotalGroup(ctx: Context, c: Records, tk: TotalKey): set<Observation> {
    set o | o in Totals(ctx, c) && TotalKeyOf(ctx.topology)(o) == tk
  }

  ghost predicate Agreed(g: set<Observation>) {
    |Amounts(g)| == 1
  }

  ghost function KeptTotals(ctx: Context, c: Records): set<TotalCell> {
    set tk | tk in TotalKeys(ctx, c) && Agreed(TotalGroup(ctx, c, tk)) && TotalGroup(ctx, c, tk) != {} ::
      TotalCellOf(ctx.topology, First(TotalGroup(ctx, c, tk)))
  }

  // ---- rejections and the unknown bucket -----------------------------------

  /** Why a record was rejected; the constructors stand for the detail texts. */
  datatype Cause =
    | IdentityCollision
    | DuplicateDelivery
    | DivergentOrigin
    | DivergentSequence
    | NotAdmissible(why: UnknownReason)
    | NotAttributable
    | EquivalentAmount
    | OpenDispute

  function ReasonOf(cause: Cause): UnknownReason {
    match cause
    case IdentityCollision => ConflictingReports
    case DuplicateDelivery => DuplicateSuppressed
    case DivergentOrigin => DuplicateSuppressed
    case DivergentSequence => DuplicateSuppressed
    case NotAdmissible(why) => why
    case NotAttributable => AttributionFailure
    case EquivalentAmount => DuplicateSuppressed
    case OpenDispute => ConflictingReports
  }

  /** A rejected observation; the generation is the one its unknown entry is filed under. */
  datatype Rejection = Rejection(evidence: Id, source: Id, generation: Id, kind: MeasureKind, cause: Cause)

  function Reject(o: Observation, cause: Cause): Rejection {
    Rejection(o.id, o.content.source, o.content.generation, o.content.kind, cause)
  }

  datatype UnknownEntry = UnknownEntry(
    scope: Id, generation: Id, kind: MeasureKind, reason: UnknownReason, count: nat)

  function UnknownOf(r: Rejection): UnknownEntry {
    UnknownEntry(NIL, r.generation, r.kind, ReasonOf(r.cause), 1)
  }

  function RejectAs(cause: Cause): Observation -> multiset<Rejection> {
    o => multiset{Reject(o, cause)}
  }

  ghost function CollisionRejections(g: Records): multiset<Rejection> {
    if |g| <= 1 then multiset{} else Gather(g, RejectAs(IdentityCollision))
  }

  ghost predicate Identical(g: Records) {
    forall p, q | p in g && q in g :: p.content == q.content
  }

  ghost predicate IsFront(o: Observation, g: Records) {
    o in g && forall p | p in g :: o.id <= p.id
  }

  ghost function Front(g: Records): (o: Observation)
    requires g != multiset{}
    ensures IsFront(o, g)
  {
    var s := set o | o in g;
    assert s != {} by { var p :| p in g; assert p in s; }
    First(s)
  }

  /** One group of records sharing a delivery identity: identical copies keep the one
      with the lowest identity, divergent copies are all rejected. */
  ghost function GroupRejections(g: Records, divergent: Cause): multiset<Rejection> {
    if |g| <= 1 then multiset{}
    else if Identical(g) then
      Gather(g, RejectAs(DuplicateDelivery)) - multiset{Reject(Front(g), DuplicateDelivery)}
    else Gather(g, RejectAs(divergent))
  }

  ghost function CollisionsAt(c: Records): Id -> multiset<Rejection> {
    (k: Id) => CollisionRejections(Members<Id>(c, IdOf, k))
  }

  ghost function OriginGroupAt(c: Records): Id -> multiset<Rejection> {
    (k: Id) => GroupRejections(Members<Id>(c, OriginOf, k), DivergentOrigin)
  }

  ghost function SequenceGroupAt(c: Records): SequenceKey -> multiset<Rejection> {
    k => GroupRejections(Members(c, SequenceOf, k), DivergentSequence)
  }

  ghost function RefusalOf(ctx: Context, c: Records): Observation -> multiset<Rejection> {
    o => multiset{Reject(o, NotAdmissible(Refusal(ctx, AtPeak(c, o), o)))}
  }

  ghost function Refused(ctx: Context, c: Records): set<Observation> {
    set o | o in c && !Excluded(c, o) && Refusal(ctx, AtPeak(c, o), o) != NoReason
  }

  ghost function Unattributable(ctx: Context, c: Records): set<Observation> {
    set o | o in Admitted(ctx, c) && o.content.role == ContributionRole && Attribute(o, ctx.topology).Err?
  }

  ghost function CellRejections(ctx: Context, cell: set<Observation>): multiset<Rejection> {
    if |Amounts(cell)| == 1 && Chosen(ctx, cell).Some? then
      Gather(multiset(cell - {Chosen(ctx, cell).value}), RejectAs(EquivalentAmount))
    else if Chosen(ctx, cell).None? then Gather(multiset(cell), RejectAs(OpenDispute))
    else multiset{}
  }

  ghost function CellRejectionsAt(ctx: Context, c: Records): CellKey -> multiset<Rejection> {
    ck => CellRejections(ctx, Cell(ctx, c, ck))
  }

  ghost function CollisionsIn(c: Records): multiset<Rejection> {
    Gather<Id, Rejection>(multiset(KeysOf<Id>(c, IdOf)), CollisionsAt(c))
  }

  ghost function OriginGroupsIn(c: Records): multiset<Rejection> {
    Gather<Id, Rejection>(multiset(KeysOf<Id>(c, OriginOf)), OriginGroupAt(c))
  }

  ghost function SequenceGroupsIn(c: Records): multiset<Rejection> {
    Gather(multiset(KeysOf(c, SequenceOf)), SequenceGroupAt(c))
  }

  ghost function ExclusionRejections(c: Records): multiset<Rejection> {
    CollisionsIn(c) + OriginGroupsIn(c) + SequenceGroupsIn(c)
  }

  ghost function AdmissionRejections(ctx: Context, c: Records): multiset<Rejection> {
    Gather(multiset(Refused(ctx, c)), RefusalOf(ctx, c))
  }

  ghost function CorrelationRejections(ctx: Context, c: Records): multiset<Rejection> {
    Gather(multiset(Unattributable(ctx, c)), RejectAs(NotAttributable))
  }

  ghost function DisputeRejections(ctx: Context, c: Records): multiset<Rejection> {
    Gather(multiset(CellKeys(ctx, c)), CellRejectionsAt(ctx, c))
  }

  ghost function Rejections(ctx: Context, c: Records): multiset<Rejection> {
    ExclusionRejections(c) + AdmissionRejections(ctx, c) + CorrelationRejections(ctx, c) + DisputeRejections(ctx, c)
  }

  function DisagreementOf(tk: TotalKey, count: nat): UnknownEntry {
    UnknownEntry(tk.domain.scope, tk.domain.generation, tk.domain.kind, ConflictingReports, count)
  }

  ghost function Disagreements(ctx: Context, c: Records): set<UnknownEntry> {
    set tk | tk in TotalKeys(ctx, c) && !Agreed(TotalGroup(ctx, c, tk)) ::
      DisagreementOf(tk, |TotalGroup(ctx, c, tk)|)
  }

  ghost function Unknowns(ctx: Context, c: Records): set<UnknownEntry> {
    (set r | r in Rejections(ctx, c) :: UnknownOf(r)) + Disagreements(ctx, c)
  }

  // ---- conflict records ----------------------------------------------------

  /** What a conflict record is about; stands for its note. */
  datatype Matter = Deliveries(cause: Cause) | CellAmounts | TotalAmounts

  /** The sorted list of participants is a multiset here, the sorted list of distinct sources a set. */
  datatype Conflict = Conflict(
    matter: Matter, key: ClaimKey, participants: multiset<Id>, sources: set<Id>, amounts: nat, resolved: bool)

  function NamedBy(o: Observation): multiset<Id> {
    multiset{o.id}
  }

  ghost function Parties(g: Records): multiset<Id> {
    Gather<Observation, Id>(g, NamedBy)
  }

  ghost function SourcesOf(g: Records): set<Id> {
    set o | o in g :: o.content.source
  }

  function IdRank(o: Observation): seq<int> {
    [o.id]
  }

  /** The candidates as the pass walks them: any order by identity, however the sort
      arranges records that share one. */
  ghost predicate Orders(order: seq<Observation>, c: Records) {
    multiset(order) == c && SortedBy(order, IdRank)
  }

  /** A delivery group is filed under its front record. */
  function DeliveryKey(front: Observation): ClaimKey {
    ClaimKey(front.content.generation, NIL, front.content.kind, front.content.category, Unattributed, NIL, NIL, NIL, NIL)
  }

  ghost function DeliveryConflict(cause: Cause, front: Observation, g: Records): Conflict {
    Conflict(Deliveries(cause), DeliveryKey(front), Parties(g), SourcesOf(g), 0, false)
  }

  ghost function Divergence(group: seq<Observation>, cause: Cause): multiset<Conflict> {
    if group == [] || Identical(multiset(group)) then multiset{}
    else multiset{DeliveryConflict(cause, group[0], multiset(group))}
  }

  ghost function DivergenceAt<K>(order: seq<Observation>, key: Observation -> K, cause: Cause): K -> multiset<Conflict> {
    (k: K) => Divergence(Keep<K>(order, key, k), cause)
  }

  ghost function Divergences<K>(order: seq<Observation>, key: Observation -> K, cause: Cause): multiset<Conflict> {
    Gather(multiset(KeysOf(multiset(order), key)), DivergenceAt(order, key, cause))
  }

  ghost function DeliveryConflicts(order: seq<Observation>): multiset<Conflict> {
    Divergences<Id>(order, OriginOf, DivergentOrigin) + Divergences(order, SequenceOf, DivergentSequence)
  }

  ghost function CellConflict(key: ClaimKey, cell: set<Observation>, resolved: bool): Conflict {
    Conflict(CellAmounts, key, Parties(multiset(cell)), SourcesOf(multiset(cell)), |Amounts(cell)|, resolved)
  }

  ghost function CellConflictOf(ctx: Context, ck: CellKey, cell: set<Observation>): multiset<Conflict> {
    if |Amounts(cell)| == 1 then multiset{} else multiset{CellConflict(ck.key, cell, Chosen(ctx, cell).Some?)}
  }

  ghost function CellConflictAt(ctx: Context, c: Records): CellKey -> multiset<Conflict> {
    ck => CellConflictOf(ctx, ck, Cell(ctx, c, ck))
  }

  ghost function CellConflicts(ctx: Context, c: Records): multiset<Conflict> {
    Gather(multiset(CellKeys(ctx, c)), CellConflictAt(ctx, c))
  }

  ghost function TotalConflict(tk: TotalKey, g: set<Observation>): Conflict {
    Conflict(TotalAmounts, DomainClaim(tk.domain), Parties(multiset(g)), SourcesOf(multiset(g)), |Amounts(g)|, false)
  }

  ghost function TotalConflictOf(tk: TotalKey, g: set<Observation>): multiset<Conflict> {
    if Agreed(g) then multiset{} else multiset{TotalConflict(tk, g)}
  }

  function DomainClaim(d: DomainKey): ClaimKey {
    ClaimKey(d.generation, d.scope, d.kind, UnknownUnattributed, Unattributed, NIL, NIL, NIL, NIL)
  }

  ghost function TotalConflictAt(ctx: Context, c: Records): TotalKey -> multiset<Conflict> {
    tk => TotalConflictOf(tk, TotalGroup(ctx, c, tk))
  }

  ghost function TotalConflicts(ctx: Context, c: Records): multiset<Conflict> {
    Gather(multiset(TotalKeys(ctx, c)), TotalConflictAt(ctx, c))
  }

  /** The conflict records of one pass: delivery groups with divergent contents in some
      order of the candidates, cells with several amounts, totals that disagree. */
  ghost predicate AreConflicts(ctx: Context, c: Records, conflicts: seq<Conflict>) {
    exists order :: Orders(order, c) && ConflictsUnder(ctx, c, order, conflicts)
  }

  ghost predicate ConflictsUnder(ctx: Context, c: Records, order: seq<Observation>, conflicts: seq<Conflict>) {
    multiset(conflicts) == DeliveryConflicts(order) + CellConflicts(ctx, c) + TotalConflicts(ctx, c)
  }

  ghost function ResolvedConflicts(ctx: Context, c: Records): set<Conflict> {
    set ck | ck in CellKeys(ctx, c) && |Amounts(Cell(ctx, c, ck))| != 1 && ContributionOf(ctx, c, ck).Some? ::
      CellConflict(ck.key, Cell(ctx, c, ck), true)
  }

  // ---- the whole result ----------------------------------------------------

  datatype Derived = Derived(
    contributions: seq<Contribution>,
    totals: seq<TotalCell>,
    rejected: seq<Rejection>,
    unknowns: seq<UnknownEntry>,
    conflicts: seq<Conflict>,
    considered: nat,
    admitted: nat,
    duplicateSuppressed: nat,
    staleIncluded: bool)

  /** Rejections that suppress a second count of the same measurement. */
  predicate IsSuppression(r: Rejection) {
    r.cause == DuplicateDelivery || r.cause == EquivalentAmount
  }

  function Suppressions(rejected: seq<Rejection>): nat {
    if rejected == [] then 0
    else
      var n := |rejected| - 1;
      Suppressions(rejected[..n]) + (if IsSuppression(rejected[n]) then 1 else 0)
  }

  function KindRank(k: MeasureKind): int {
    match k
    case WireBytes => 1
    case PayloadBytes => 2
    case PortOccupancyNanos => 3
    case CapacityNanos => 4
    case ControlMessages => 5
    case FrameCount => 6
  }

  function CategoryRank(c: Category): int {
    match c
    case UsefulDeliveredWork => 1
    case Retransmission => 2
    case Duplication => 3
    case RerouteOverhead => 4
    case IdleReservation => 5
    case FailedTransfer => 6
    case StrandedCapacity => 7
    case ControlOverhead => 8
    case UnknownUnattributed => 9
  }

  function BasisRank(b: Basis): int {
    match b
    case ResourceDirect => 1
    case FlowDirect => 2
    case PathDirect => 3
    case ReservationDirect => 4
    case ScopeDeclared => 5
    case Unattributed => 6
  }

  /** The canonical order of contributions: claim key, then window, then evidence. */
  function ContributionRank(x: Contribution): seq<int> {
    var k := x.key;
    [k.generation, k.scope, KindRank(k.kind), CategoryRank(k.category), BasisRank(k.basis),
     k.resource, k.flow, k.path, k.reservation, x.window.start, x.window.end, x.evidence]
  }

  function ReasonRank(reason: UnknownReason): int {
    match reason
    case NoReason => 0
    case NoEvidence => 1
    case StaleEvidence => 2
    case ExpiredEvidence => 3
    case FencedEpoch => 4
    case RetiredIncarnation => 6
    case StaleGeneration => 7
    case ConflictingReports => 8
    case DuplicateSuppressed => 9
    case UnsupportedProvenance => 10
    case ResidualUnclassified => 13
    case AttributionFailure => 14
    case ClockAnomaly => 15
    case OverAttributed => 16
  }

  /** The canonical order of rejections up to their detail texts. */
  function RejectionRank(r: Rejection): seq<int> {
    [ReasonRank(ReasonOf(r.cause)), r.source, r.evidence]
  }

  function UnknownRank(u: UnknownEntry): seq<int> {
    [u.scope, u.generation, KindRank(u.kind), ReasonRank(u.reason)]
  }

  /** d is the derivation of the considered records c. */
  ghost predicate IsDerivation(ctx: Context, c: Records, d: Derived) {
    && multiset(d.contributions) == multiset(Contributions(ctx, c))
    && SortedBy(d.contributions, ContributionRank)
    && multiset(d.totals) == multiset(KeptTotals(ctx, c))
    && multiset(d.rejected) == Rejections(ctx, c)
    && SortedBy(d.rejected, RejectionRank)
    && multiset(d.unknowns) == multiset(Unknowns(ctx, c))
    && SortedBy(d.unknowns, UnknownRank)
    && AreConflicts(ctx, c, d.conflicts)
    && d.considered == |c|
    && d.admitted == |d.contributions|
    && d.duplicateSuppressed == Suppressions(d.rejected)
    && !d.staleIncluded
  }
}
