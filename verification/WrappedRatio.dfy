/** Evidence whose useful work wraps to nothing and is still reported as a determinate ratio. */
module WrappedRatio {

  import opened Common
  import opened Fabric
  import opened Evidence
  import opened Folds
  import opened Derivation
  import opened Claims
  import opened Conservation
  import opened Efficiency
  import opened Revision
  import opened Undisputed
  import opened Lineage
  import opened Lifecycle
  import opened Creation
  import Validation

  const HALF: U64 := 0x8000_0000_0000_0000
  const MILLISECOND: int := 1_000_000
  const AS_OF: Instant := 100 * MILLISECOND
  const PERIOD: Window := Window(MILLISECOND, 50 * MILLISECOND)
  const REPORTED: Window := Window(10 * MILLISECOND, 20 * MILLISECOND)

  const POLICY := Policy(
    FreshnessPolicy(1000 * MILLISECOND, 2000 * MILLISECOND, 0, true, true, true), RecordAndUnknown, AttributeToUnknown,
    RecordViolation, ExcludeStale, RequiresCorrection, RejectTie, false, 1000 * MILLISECOND, 1000, 1000, 8)

  const TOPOLOGY := Topology(
    map[1 := Generation("first"), 2 := Generation("second")], map[1 := Source("agent", 1, Real, true)],
    map[1 := Incarnation(1, 0, 0, None)], map[], map[], [], map[], map[], map[])

  const CTX := Context(POLICY, TOPOLOGY, AS_OF)

  /** The n-th record of the one source. */
  function Measured(n: Id, generation: Id, category: Category, amount: U64): Observation {
    Observation(n, 40 * MILLISECOND,
                Content(n, 1, 1, 0, n, generation, 30 * MILLISECOND, WireBytes, ContributionRole, category,
                        None, None, None, None, amount, REPORTED.start, REPORTED.end, multiset{}))
  }

  const FIRST := Measured(1, 1, UsefulDeliveredWork, HALF)
  const SECOND := Measured(2, 2, UsefulDeliveredWork, HALF)
  const WASTED := Measured(3, 1, Retransmission, 1)
  const RECORDS := [FIRST, SECOND, WASTED]

  function Counted(generation: Id, category: Category, amount: U64, evidence: Id): Contribution {
    Contribution(ClaimKey(generation, NIL, WireBytes, category, Unattributed, NIL, NIL, NIL, NIL),
                 amount, REPORTED, evidence, 1, Real, 1, false)
  }

  const X := Counted(1, UsefulDeliveredWork, HALF, 1)
  const Y := Counted(2, UsefulDeliveredWork, HALF, 2)
  const Z := Counted(1, Retransmission, 1, 3)

  lemma AllConsidered()
    ensures Considered(multiset(RECORDS), PERIOD) == multiset{FIRST, SECOND, WASTED}
  {
    assert multiset(RECORDS) == multiset{FIRST, SECOND, WASTED};
    AllWithin(multiset(RECORDS), PERIOD);
  }

  lemma AllWithin(evidence: Records, period: Window)
    requires forall o | o in evidence :: Within(WindowOf(o), period)
    ensures Considered(evidence, period) == evidence
  {
    forall o ensures Considered(evidence, period)[o] == evidence[o] {
    }
  }

  lemma MeasuredAdmitted(n: Id, generation: Id, category: Category, amount: U64)
    ensures var o := Measured(n, generation, category, amount);
      Refusal(CTX, true, o) == NoReason && IsEntry(TOPOLOGY, o)
      && CountedAs(CTX, CellOf(TOPOLOGY)(o), o, false) == Counted(generation, category, amount, n)
  {
  }

  /** Records that differ in identity, origin and sequence exclude none of one another. */
  lemma AllDiffer(c: Records)
    requires forall o | o in c :: c[o] == 1 && o.content.origin == o.id && o.content.sequence == o.id && o.content.epoch == 0
    requires forall o, p | o in c && p in c && o.id == p.id :: o == p
    ensures forall o | o in c :: !Excluded(c, o) && AtPeak(c, o)
  {
  }

  ghost predicate IsMeasured(o: Observation) {
    o == FIRST || o == SECOND || o == WASTED
  }

  lemma OnlyMeasured(c: Records)
    requires c == multiset{FIRST, SECOND, WASTED}
    ensures forall o :: o in c <==> IsMeasured(o)
    ensures forall o | o in c :: c[o] == 1 && o.content.origin == o.id && o.content.sequence == o.id && o.content.epoch == 0
    ensures forall o, p | o in c && p in c && o.id == p.id :: o == p
  {
    assert FIRST.id == 1 && SECOND.id == 2 && WASTED.id == 3;
  }

  lemma MeasuredIsAdmitted(o: Observation)
    requires IsMeasured(o)
    ensures Refusal(CTX, true, o) == NoReason && IsEntry(TOPOLOGY, o)
    ensures CellOf(TOPOLOGY)(o).key == CountedAs(CTX, CellOf(TOPOLOGY)(o), o, false).key
    ensures CountedAs(CTX, CellOf(TOPOLOGY)(o), o, false) == if o == FIRST then X else if o == SECOND then Y else Z
  {
    MeasuredAdmitted(1, 1, UsefulDeliveredWork, HALF);
    MeasuredAdmitted(2, 2, UsefulDeliveredWork, HALF);
    MeasuredAdmitted(3, 1, Retransmission, 1);
  }

  lemma AllAdmitted(c: Records)
    requires c == multiset{FIRST, SECOND, WASTED}
    ensures IsUndisputed(CTX, c)
  {
    OnlyMeasured(c);
    AllDiffer(c);
    forall o | o in c ensures IsAdmitted(CTX, c, o) && IsEntry(CTX.topology, o) {
      MeasuredIsAdmitted(o);
    }
    forall o, p | o in c && p in c && o != p ensures CellOf(CTX.topology)(o) != CellOf(CTX.topology)(p) {
      MeasuredIsAdmitted(o);
      MeasuredIsAdmitted(p);
      KeysDiffer();
    }
  }

  lemma KeysDiffer()
    ensures X.key != Y.key && Y.key != Z.key && X.key != Z.key
  {
  }

  lemma AllCounted(c: Records)
    requires c == multiset{FIRST, SECOND, WASTED}
    ensures HeldFor(CTX, c) == Taken(multiset{X, Y, Z}, multiset{}, multiset{}) && !StrictlyConflicting(CTX, c)
    ensures multiset(Contributions(CTX, c)) == multiset{X, Y, Z}
  {
    AllAdmitted(c);
    OnlyMeasured(c);
    CountedInFull(CTX, c);
    ThreeCounted(c, Contributions(CTX, c));
    ThreeOfThem();
  }

  lemma ThreeOfThem()
    ensures multiset({X, Y, Z}) == multiset{X, Y, Z}
  {
    KeysDiffer();
    ThreeOf(X, Y, Z);
  }

  lemma ThreeCounted(c: Records, xs: set<Contribution>)
    requires forall o :: o in c <==> IsMeasured(o)
    requires xs == set o | o in c :: CountedAs(CTX, CellOf(CTX.topology)(o), o, false)
    ensures xs == {X, Y, Z}
  {
    MeasuredIsAdmitted(FIRST);
    MeasuredIsAdmitted(SECOND);
    MeasuredIsAdmitted(WASTED);
    assert FIRST in c && SECOND in c && WASTED in c;
    forall x | x in xs ensures x in {X, Y, Z} {
      var o :| o in c && x == CountedAs(CTX, CellOf(CTX.topology)(o), o, false);
      MeasuredIsAdmitted(o);
    }
  }

  lemma ThreeOf<A>(x: A, y: A, z: A)
    requires x != y && y != z && x != z
    ensures multiset({x, y, z}) == multiset{x, y, z}
  {
  }

  lemma SumOfThree<A>(x: A, y: A, z: A, f: A -> nat)
    ensures SumOf(multiset{x, y, z}, f) == f(x) + f(y) + f(z)
  {
    SumOfZero(multiset{}, f);
    SumOfAdd(multiset{}, x, f);
    SumOfAdd(multiset{x}, y, f);
    SumOfAdd(multiset{x, y}, z, f);
    assert multiset{} + multiset{x} == multiset{x};
    assert multiset{x} + multiset{y} == multiset{x, y};
    assert multiset{x, y} + multiset{z} == multiset{x, y, z};
  }

  lemma EverythingFits(c: Records)
    requires c == multiset{FIRST, SECOND, WASTED}
    ensures Derivable(CTX, c)
  {
    AllCounted(c);
    DomainsFit(HeldFor(CTX, c));
    ClaimsFit(multiset(Contributions(CTX, c)));
    assert forall k :: !HasTotal(HeldFor(CTX, c), k);
  }

  lemma DomainsFit(held: Taken)
    requires held == Taken(multiset{X, Y, Z}, multiset{}, multiset{})
    ensures !TooLarge(held)
  {
    forall k ensures !DomainOverflows(held, k) {
      SumOfThree(X, Y, Z, AttributedTo(k));
      SumOfZero(held.us, UnknownIn(k));
      SumOfZero(held.ts, ObservedIn(k));
    }
  }

  lemma ClaimsFit(xs: multiset<Contribution>)
    requires xs == multiset{X, Y, Z}
    ensures forall k :: !Overflows(xs, k)
  {
    forall k ensures !Overflows(xs, k) {
      SumOfThree(X, Y, Z, AmountOn(k));
      SumOfThree(X, Y, Z, CountOn(k));
    }
  }

  /** A determinate ratio of nothing useful out of one. */
  predicate Misreports(s: Summary) {
    s.kind == WireBytes && s.determinate && s.useful == 0 && s.denominator == 1
  }

  /** The claims add up to 2^64 + 1 bytes, and that ratio is what is reported of them. */
  ghost predicate Wrapped(r: Figures) {
    Claimed(r.claims, WireBytes) == U64_MAX + 2 && r.efficiency != [] && Misreports(r.efficiency[0])
  }

  /** Three admissible, undisputed records: two of useful work of 2^63 bytes each and one of a
      single wasted byte. All are counted, and the claims add up to 2^64 + 1 bytes; but the
      useful sum wraps to nothing, so the wasted byte is the whole denominator of a ratio that
      is reported as determinate: nothing useful out of one. */
  method WrappedSumStaysDeterminate() returns (r: Figures)
    ensures IsRevision(CTX, Considered(multiset(RECORDS), PERIOD), r)
    ensures Wrapped(r)
  {
    ghost var c := multiset{FIRST, SECOND, WASTED};
    AllConsidered();
    EverythingFits(c);
    var derived := Derive(CTX, PERIOD, RECORDS);
    r := derived.value;
    AllCounted(c);
    Wraps(CTX, c, r);
  }

  lemma Wraps(ctx: Context, c: Records, r: Figures)
    requires IsRevision(ctx, c, r) && HeldFor(ctx, c) == Taken(multiset{X, Y, Z}, multiset{}, multiset{})
    ensures Wrapped(r)
  {
    FoldedFrom(ctx, c, r);
    FirstSummary(r);
    FoldsWrap(r.derived, r.folded.domains, r.claims);
  }

  lemma TopologyAccepted()
    ensures Validation.Assembled(TOPOLOGY) && Validation.IsValid(TOPOLOGY)
  {
    assert TOPOLOGY.incarnations.Keys == {1};
  }

  /** The ledger accepts each of the records once the period is open. */
  lemma AllAccepted(periods: map<PeriodId, Period>)
    requires PERIOD in periods && periods[PERIOD].state == Open && Lifecycle.Disjoint(periods.Keys)
    ensures Added(RECORDS, Fater(POLICY, TOPOLOGY, periods, [], None)) == RECORDS && CountNew(RECORDS, []) == 3
  {
    var fate := Fater(POLICY, TOPOLOGY, periods, [], None);
    forall o | IsMeasured(o) ensures fate(o).Accepted? {
      TargetUnique(periods.Keys, o, PERIOD);
    }
    assert RECORDS[..2] == [FIRST, SECOND] && RECORDS[..2][..1] == [FIRST] && RECORDS[..2][..1][..0] == [];
    assert Added([FIRST], fate) == [FIRST] && Added([FIRST, SECOND], fate) == [FIRST, SECOND];
    assert CountNew([FIRST], []) == 1 && CountNew([FIRST, SECOND], []) == 2;
  }

  /** The ledger refuses none of it: it is created under this policy, opens the period, accepts
      the records, and closes the period with a revision whose useful work has wrapped. */
  method LedgerMisreports(naming: Naming) returns (ledger: Ledger, r: PeriodRevision)
    ensures fresh(ledger) && ledger.Valid() && ledger.policy == POLICY && ledger.observations == RECORDS
    ensures HistoryIn(ledger.revisions, PERIOD) == [r]
    ensures Wrapped(r.body.figures)
  {
    ledger := OpenIt(naming);
    AllAccepted(ledger.periods);
    var report := ledger.Ingest(RECORDS, None);
    r := CloseIt(ledger);
  }

  method OpenIt(naming: Naming) returns (ledger: Ledger)
    ensures fresh(ledger) && ledger.Valid() && ledger.policy == POLICY && ledger.topology == TOPOLOGY
    ensures ledger.observations == [] && PERIOD in ledger.periods && ledger.periods[PERIOD].state == Open
  {
    TopologyAccepted();
    var created := Create(POLICY, TOPOLOGY, naming);
    ledger := created.value;
    var began := ledger.OpenPeriod(PERIOD, "");
  }

  method CloseIt(ledger: Ledger) returns (r: PeriodRevision)
    requires ledger.Valid() && ledger.policy == POLICY && ledger.topology == TOPOLOGY && ledger.observations == RECORDS
    requires PERIOD in ledger.periods && ledger.periods[PERIOD].state == Open
    modifies ledger
    ensures ledger.Valid() && ledger.observations == RECORDS && HistoryIn(ledger.revisions, PERIOD) == [r]
    ensures Wrapped(r.body.figures)
  {
    ghost var c := multiset{FIRST, SECOND, WASTED};
    AllConsidered();
    EverythingFits(c);
    var closed := ledger.ClosePeriod(PERIOD, AS_OF, "", false);
    r := closed.value;
    AllCounted(c);
    Wraps(CTX, c, r.body.figures);
  }

  lemma FoldsWrap(d: Derived, domains: seq<Domain>, claims: seq<Claim>)
    requires TakenFrom(d) == Taken(multiset{X, Y, Z}, multiset{}, multiset{})
    requires IsConservation(TakenFrom(d), domains) && IsFold(multiset(d.contributions), claims)
    ensures Claimed(claims, WireBytes) == U64_MAX + 2 && Misreports(SummaryOf(claims, domains, WireBytes))
  {
    ClaimsHaveNoUnknowns(d.contributions, claims);
    SumsOfClaims(d.contributions, claims);
    AllSettled(d, domains);
    AllClassified(d.contributions, claims);
    SummarySums(claims, domains, WireBytes);
    DeterminateExactly(claims, domains, WireBytes);
  }

  lemma SumsOfClaims(contributions: seq<Contribution>, claims: seq<Claim>)
    requires multiset(contributions) == multiset{X, Y, Z} && IsFold(multiset(contributions), claims)
    ensures Claimed(claims, WireBytes) == U64_MAX + 2
    ensures ClaimedAs(claims, WireBytes, Useful) == WORD && ClaimedAs(claims, WireBytes, Avoidable) == 1
    ensures ClaimedAs(claims, WireBytes, NecessaryOverhead) == ClaimedAs(claims, WireBytes, Failed) == 0
  {
    SumOfThree(X, Y, Z, AmountWhere(OfKind(WireBytes)));
    SumOfThree(X, Y, Z, AmountWhere(OfUse(WireBytes, Useful)));
    SumOfThree(X, Y, Z, AmountWhere(OfUse(WireBytes, Avoidable)));
    SumOfThree(X, Y, Z, AmountWhere(OfUse(WireBytes, NecessaryOverhead)));
    SumOfThree(X, Y, Z, AmountWhere(OfUse(WireBytes, Failed)));
    MeasureConserved(contributions, claims, WireBytes);
    UseConserved(contributions, claims, WireBytes, Useful);
    UseConserved(contributions, claims, WireBytes, Avoidable);
    UseConserved(contributions, claims, WireBytes, NecessaryOverhead);
    UseConserved(contributions, claims, WireBytes, Failed);
  }

  lemma AllClassified(contributions: seq<Contribution>, claims: seq<Claim>)
    requires multiset(contributions) == multiset{X, Y, Z} && IsFold(multiset(contributions), claims)
    ensures !Unclassifiable(claims, WireBytes)
  {
    forall i | 0 <= i < |claims| ensures claims[i].key.category != UnknownUnattributed {
      assert claims[i].key in ClaimKeys(claims);
      var x :| x in multiset(contributions) && x.key == claims[i].key;
      assert x in multiset{X, Y, Z};
    }
  }

  lemma AllSettled(d: Derived, domains: seq<Domain>)
    requires TakenFrom(d) == Taken(multiset{X, Y, Z}, multiset{}, multiset{}) && IsConservation(TakenFrom(d), domains)
    ensures forall x | x in domains :: Settles(x)
  {
    forall x | x in domains ensures Settles(x) {
      SumOfZero(TakenFrom(d).us, UnknownIn(x.key));
      assert IsConserved(TakenFrom(d), x) && !HasTotal(TakenFrom(d), x.key);
    }
  }
}
