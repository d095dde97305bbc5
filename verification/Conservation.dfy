/** Conservation domains: attributed work against independently reported totals. */
module Conservation {

  import opened Common
  import opened Fabric
  import opened Evidence
  import opened Folds
  import opened Ordering
  import opened Derivation

  datatype Status = Consistent | Residual | Excess | Unverifiable

  datatype Domain = Domain(
    key: DomainKey,
    attributed: U64,
    unknownContributions: U64,
    contributionCount: nat,
    observed: Option<U64>,
    delta: int,
    residual: U64,
    status: Status)

  // ---- what a domain adds up to --------------------------------------------

  function DomainOf(x: Contribution): DomainKey {
    DomainKey(x.key.scope, x.key.generation, x.key.kind)
  }

  function DomainOfUnknown(u: UnknownEntry): DomainKey {
    DomainKey(u.scope, u.generation, u.kind)
  }

  function AttributedTo(k: DomainKey): Contribution -> nat {
    (x: Contribution) => if DomainOf(x) == k then x.amount else 0
  }

  function CountedIn(k: DomainKey): Contribution -> nat {
    (x: Contribution) => if DomainOf(x) == k then 1 else 0
  }

  function UnknownIn(k: DomainKey): UnknownEntry -> nat {
    (u: UnknownEntry) => if DomainOfUnknown(u) == k then u.count else 0
  }

  function ObservedIn(k: DomainKey): TotalCell -> nat {
    (t: TotalCell) => if t.domain == k then t.amount else 0
  }

  /** The evidence a fold has taken in so far. */
  datatype Taken = Taken(xs: multiset<Contribution>, us: multiset<UnknownEntry>, ts: multiset<TotalCell>)

  ghost function Attributed(d: Taken, k: DomainKey): nat {
    SumOf(d.xs, AttributedTo(k))
  }

  ghost function Contributed(d: Taken, k: DomainKey): nat {
    SumOf(d.xs, CountedIn(k))
  }

  ghost function UnknownCount(d: Taken, k: DomainKey): nat {
    SumOf(d.us, UnknownIn(k))
  }

  ghost function ObservedTotal(d: Taken, k: DomainKey): nat {
    SumOf(d.ts, ObservedIn(k))
  }

  ghost predicate HasTotal(d: Taken, k: DomainKey) {
    exists t | t in d.ts :: t.domain == k
  }

  ghost function KeysUnder<A>(m: multiset<A>, f: A -> DomainKey): set<DomainKey> {
    set x | x in m :: f(x)
  }

  function TotalDomain(t: TotalCell): DomainKey {
    t.domain
  }

  ghost function DomainKeys(d: Taken): set<DomainKey> {
    KeysUnder(d.xs, DomainOf) + KeysUnder(d.us, DomainOfUnknown) + KeysUnder(d.ts, TotalDomain)
  }

  ghost predicate DomainOverflows(d: Taken, k: DomainKey) {
    Attributed(d, k) > U64_MAX || UnknownCount(d, k) > U64_MAX || ObservedTotal(d, k) > U64_MAX
  }

  ghost function TakenFrom(d: Derived): Taken {
    Taken(multiset(d.contributions), multiset(d.unknowns), multiset(d.totals))
  }

  // ---- the accumulators ----------------------------------------------------

  datatype Accumulator = Accumulator(attributed: U64, unknown: U64, count: nat, observed: Option<U64>)

  const BLANK := Accumulator(0, 0, 0, None)

  type Accumulators = map<DomainKey, Accumulator>

  function At(m: Accumulators, k: DomainKey): Accumulator {
    if k in m then m[k] else BLANK
  }

  ghost predicate IsAccumulator(acc: Accumulator, k: DomainKey, d: Taken) {
    && acc.attributed == Attributed(d, k)
    && acc.count == Contributed(d, k)
    && acc.unknown == UnknownCount(d, k)
    && (acc.observed.Some? <==> HasTotal(d, k))
    && (acc.observed.Some? ==> acc.observed.value == ObservedTotal(d, k))
  }

  ghost predicate Accumulated(m: Accumulators, d: Taken) {
    && m.Keys == DomainKeys(d)
    && forall k :: IsAccumulator(At(m, k), k, d)
  }

  lemma NothingTaken()
    ensures Accumulated(map[], Taken(multiset{}, multiset{}, multiset{}))
  {
  }

  function WithContribution(acc: Accumulator, amount: U64): Option<Accumulator> {
    var total := AddChecked(acc.attributed, amount);
    if total.None? then None else Some(acc.(attributed := total.value, count := acc.count + 1))
  }

  function WithUnknown(acc: Accumulator, count: nat): Option<Accumulator> {
    if acc.unknown + count > U64_MAX then None else Some(acc.(unknown := acc.unknown + count))
  }

  function WithTotal(acc: Accumulator, amount: U64): Option<Accumulator> {
    var total := AddChecked(if acc.observed.Some? then acc.observed.value else 0, amount);
    if total.None? then None else Some(acc.(observed := Some(total.value)))
  }

  /** A domain that a further piece of evidence does not concern. */
  ghost predicate SameAt(d: Taken, e: Taken, k: DomainKey) {
    && Attributed(d, k) == Attributed(e, k)
    && Contributed(d, k) == Contributed(e, k)
    && UnknownCount(d, k) == UnknownCount(e, k)
    && ObservedTotal(d, k) == ObservedTotal(e, k)
    && (HasTotal(d, k) <==> HasTotal(e, k))
  }

  lemma Replace(m: Accumulators, d: Taken, e: Taken, k: DomainKey, acc: Accumulator)
    requires Accumulated(m, d) && IsAccumulator(acc, k, e)
    requires DomainKeys(e) == DomainKeys(d) + {k}
    requires forall j | j != k :: SameAt(d, e, j)
    ensures Accumulated(m[k := acc], e)
  {
    var n := m[k := acc];
    forall j ensures IsAccumulator(At(n, j), j, e) {
      assert j != k ==> At(n, j) == At(m, j);
      if j != k {
        SameAccumulator(At(m, j), j, d, e);
      }
    }
  }

  lemma SameAccumulator(acc: Accumulator, k: DomainKey, d: Taken, e: Taken)
    requires IsAccumulator(acc, k, d) && SameAt(d, e, k)
    ensures IsAccumulator(acc, k, e)
  {
  }

  lemma ContributionConcerns(d: Taken, x: Contribution, j: DomainKey)
    ensures var e := d.(xs := d.xs + multiset{x});
      && Attributed(e, j) == Attributed(d, j) + (if j == DomainOf(x) then x.amount else 0)
      && Contributed(e, j) == Contributed(d, j) + (if j == DomainOf(x) then 1 else 0)
  {
    SumOfAdd(d.xs, x, AttributedTo(j));
    SumOfAdd(d.xs, x, CountedIn(j));
  }

  lemma TakeContribution(m: Accumulators, d: Taken, x: Contribution)
    requires Accumulated(m, d)
    ensures var e, k := d.(xs := d.xs + multiset{x}), DomainOf(x);
      var acc := WithContribution(At(m, k), x.amount);
      if acc.Some? then Accumulated(m[k := acc.value], e) else DomainOverflows(e, k)
  {
    var e, k := d.(xs := d.xs + multiset{x}), DomainOf(x);
    var acc := WithContribution(At(m, k), x.amount);
    ContributionConcerns(d, x, k);
    assert IsAccumulator(At(m, k), k, d);
    if acc.Some? {
      assert DomainKeys(e) == DomainKeys(d) + {k} by {
        MoreKeys(d.xs, x, DomainOf);
      }
      forall j | j != k ensures SameAt(d, e, j) {
        ContributionConcerns(d, x, j);
      }
      Replace(m, d, e, k, acc.value);
    }
  }

  lemma MoreKeys<A>(m: multiset<A>, a: A, f: A -> DomainKey)
    ensures KeysUnder(m + multiset{a}, f) == KeysUnder(m, f) + {f(a)}
  {
    assert a in m + multiset{a};
    forall k ensures k in KeysUnder(m + multiset{a}, f) <==> k in KeysUnder(m, f) + {f(a)} {
      if k in KeysUnder(m, f) {
        var x :| x in m && f(x) == k;
        assert x in m + multiset{a};
      }
    }
  }

  lemma UnknownConcerns(d: Taken, u: UnknownEntry, j: DomainKey)
    ensures UnknownCount(d.(us := d.us + multiset{u}), j) == UnknownCount(d, j) + (if j == DomainOfUnknown(u) then u.count else 0)
  {
    SumOfAdd(d.us, u, UnknownIn(j));
  }

  lemma TakeUnknown(m: Accumulators, d: Taken, u: UnknownEntry)
    requires Accumulated(m, d)
    ensures var e, k := d.(us := d.us + multiset{u}), DomainOfUnknown(u);
      var acc := WithUnknown(At(m, k), u.count);
      if acc.Some? then Accumulated(m[k := acc.value], e) else DomainOverflows(e, k)
  {
    var e, k := d.(us := d.us + multiset{u}), DomainOfUnknown(u);
    var acc := WithUnknown(At(m, k), u.count);
    UnknownConcerns(d, u, k);
    assert IsAccumulator(At(m, k), k, d);
    if acc.Some? {
      assert DomainKeys(e) == DomainKeys(d) + {k} by {
        MoreKeys(d.us, u, DomainOfUnknown);
      }
      forall j | j != k ensures SameAt(d, e, j) {
        UnknownConcerns(d, u, j);
      }
      Replace(m, d, e, k, acc.value);
    }
  }

  lemma TotalConcerns(d: Taken, t: TotalCell, j: DomainKey)
    ensures var e := d.(ts := d.ts + multiset{t});
      && ObservedTotal(e, j) == ObservedTotal(d, j) + (if j == t.domain then t.amount else 0)
      && (HasTotal(e, j) <==> HasTotal(d, j) || j == t.domain)
  {
    var e := d.(ts := d.ts + multiset{t});
    SumOfAdd(d.ts, t, ObservedIn(j));
    assert t in e.ts;
    if HasTotal(d, j) {
      var s :| s in d.ts && s.domain == j;
      assert s in e.ts;
    }
  }

  lemma TakeTotal(m: Accumulators, d: Taken, t: TotalCell)
    requires Accumulated(m, d)
    ensures var e, k := d.(ts := d.ts + multiset{t}), t.domain;
      var acc := WithTotal(At(m, k), t.amount);
      if acc.Some? then Accumulated(m[k := acc.value], e) else DomainOverflows(e, k)
  {
    var e, k := d.(ts := d.ts + multiset{t}), t.domain;
    var acc := WithTotal(At(m, k), t.amount);
    TotalConcerns(d, t, k);
    NoTotalNothingObserved(d, k);
    assert IsAccumulator(At(m, k), k, d);
    if acc.Some? {
      assert DomainKeys(e) == DomainKeys(d) + {k} by {
        MoreKeys(d.ts, t, TotalDomain);
      }
      forall j | j != k ensures SameAt(d, e, j) {
        TotalConcerns(d, t, j);
      }
      Replace(m, d, e, k, acc.value);
    }
  }

  lemma NoTotalNothingObserved(d: Taken, k: DomainKey)
    ensures !HasTotal(d, k) ==> ObservedTotal(d, k) == 0
  {
    if !HasTotal(d, k) {
      SumOfZero(d.ts, ObservedIn(k));
    }
  }

  lemma MoreOverflows(d: Taken, e: Taken, k: DomainKey)
    requires DomainOverflows(d, k) && d.xs <= e.xs && d.us <= e.us && d.ts <= e.ts
    ensures DomainOverflows(e, k)
  {
    SumOfSub(d.xs, e.xs, AttributedTo(k));
    SumOfSub(d.us, e.us, UnknownIn(k));
    SumOfSub(d.ts, e.ts, ObservedIn(k));
  }

  method Accumulate(d: Derived) returns (r: Result<Accumulators, ErrorCode>)
    ensures r.Err? <==> exists k :: DomainOverflows(TakenFrom(d), k)
    ensures r.Err? ==> r.error == ArithmeticOverflow
    ensures r.Ok? ==> Accumulated(r.value, TakenFrom(d))
  {
    ghost var all := TakenFrom(d);
    NothingTaken();
    r := AddContributions(map[], d.contributions, Taken(multiset{}, multiset{}, multiset{}), all);
    if r.Err? { return; }
    r := AddUnknowns(r.value, d.unknowns, all.(us := multiset{}, ts := multiset{}), all);
    if r.Err? { return; }
    r := AddTotals(r.value, d.totals, all.(ts := multiset{}), all);
    if r.Err? { return; }
    NoneOverflows(r.value, all);
  }

  method AddContributions(before: Accumulators, xs: seq<Contribution>, ghost d: Taken, ghost all: Taken)
    returns (r: Result<Accumulators, ErrorCode>)
    requires Accumulated(before, d) && d.xs == multiset{} && d.us <= all.us && d.ts <= all.ts && all.xs == multiset(xs)
    ensures r.Ok? ==> Accumulated(r.value, d.(xs := multiset(xs)))
    ensures r.Err? ==> r.error == ArithmeticOverflow && exists k :: DomainOverflows(all, k)
  {
    var m := before;
    for i := 0 to |xs|
      invariant Accumulated(m, d.(xs := multiset(xs[..i])))
    {
      ghost var taken := d.(xs := multiset(xs[..i]));
      var acc := WithContribution(At(m, DomainOf(xs[i])), xs[i].amount);
      TakeContribution(m, taken, xs[i]);
      TakePrefix(xs, i);
      if acc.None? {
        MoreOverflows(taken.(xs := multiset(xs[..i + 1])), all, DomainOf(xs[i]));
        return Err(ArithmeticOverflow);
      }
      m := m[DomainOf(xs[i]) := acc.value];
    }
    TakeAll(xs);
    return Ok(m);
  }

  method AddUnknowns(before: Accumulators, us: seq<UnknownEntry>, ghost d: Taken, ghost all: Taken)
    returns (r: Result<Accumulators, ErrorCode>)
    requires Accumulated(before, d) && d.us == multiset{} && d.xs <= all.xs && d.ts <= all.ts && all.us == multiset(us)
    ensures r.Ok? ==> Accumulated(r.value, d.(us := multiset(us)))
    ensures r.Err? ==> r.error == ArithmeticOverflow && exists k :: DomainOverflows(all, k)
  {
    var m := before;
    for i := 0 to |us|
      invariant Accumulated(m, d.(us := multiset(us[..i])))
    {
      ghost var taken := d.(us := multiset(us[..i]));
      var acc := WithUnknown(At(m, DomainOfUnknown(us[i])), us[i].count);
      TakeUnknown(m, taken, us[i]);
      TakePrefix(us, i);
      if acc.None? {
        MoreOverflows(taken.(us := multiset(us[..i + 1])), all, DomainOfUnknown(us[i]));
        return Err(ArithmeticOverflow);
      }
      m := m[DomainOfUnknown(us[i]) := acc.value];
    }
    TakeAll(us);
    return Ok(m);
  }

  method AddTotals(before: Accumulators, ts: seq<TotalCell>, ghost d: Taken, ghost all: Taken)
    returns (r: Result<Accumulators, ErrorCode>)
    requires Accumulated(before, d) && d.ts == multiset{} && d.xs <= all.xs && d.us <= all.us && all.ts == multiset(ts)
    ensures r.Ok? ==> Accumulated(r.value, d.(ts := multiset(ts)))
    ensures r.Err? ==> r.error == ArithmeticOverflow && exists k :: DomainOverflows(all, k)
  {
    var m := before;
    for i := 0 to |ts|
      invariant Accumulated(m, d.(ts := multiset(ts[..i])))
    {
      ghost var taken := d.(ts := multiset(ts[..i]));
      var acc := WithTotal(At(m, ts[i].domain), ts[i].amount);
      TakeTotal(m, taken, ts[i]);
      TakePrefix(ts, i);
      if acc.None? {
        MoreOverflows(taken.(ts := multiset(ts[..i + 1])), all, ts[i].domain);
        return Err(ArithmeticOverflow);
      }
      m := m[ts[i].domain := acc.value];
    }
    TakeAll(ts);
    return Ok(m);
  }

  lemma TakePrefix<A>(s: seq<A>, i: nat)
    requires i < |s|
    ensures multiset(s[..i + 1]) == multiset(s[..i]) + multiset{s[i]} <= multiset(s)
  {
    TakeSucc(s, i);
    assert s == s[..i + 1] + s[i + 1..];
  }

  lemma NoneOverflows(m: Accumulators, d: Taken)
    requires Accumulated(m, d)
    ensures !exists k :: DomainOverflows(d, k)
  {
    forall k ensures !DomainOverflows(d, k) {
      assert IsAccumulator(At(m, k), k, d);
      NoTotalNothingObserved(d, k);
    }
  }

  // ---- the verdict on a domain ---------------------------------------------

  /** The signed difference kept in 64 bits: it saturates where it does not fit. */
  function DeltaOf(attributed: U64, observed: U64): int {
    if attributed == observed then 0
    else if attributed < observed then
      (if observed - attributed > I64_MAX then I64_MIN else -(observed - attributed))
    else
      (if attributed - observed > I64_MAX then I64_MAX else attributed - observed)
  }

  /** The stored difference is exact precisely when the true one fits 64 signed bits. */
  lemma DeltaExact(attributed: U64, observed: U64)
    ensures FitsI64(DeltaOf(attributed, observed))
    ensures DeltaOf(attributed, observed) == attributed - observed <==> FitsI64(attributed - observed)
  {
  }

  /** A residual of the whole 64-bit range is stored as half of it. */
  lemma ResidualSaturates()
    ensures DeltaOf(0, U64_MAX) == I64_MIN && DeltaOf(0, U64_MAX) != 0 - U64_MAX
  {
  }

  function Conclude(k: DomainKey, acc: Accumulator): Domain {
    match acc.observed
    case None => Domain(k, acc.attributed, acc.unknown, acc.count, None, 0, 0, Unverifiable)
    case Some(observed) =>
      var status := if acc.attributed == observed then Consistent else if acc.attributed < observed then Residual else Excess;
      Domain(k, acc.attributed, acc.unknown, acc.count, acc.observed, DeltaOf(acc.attributed, observed),
             if acc.attributed < observed then observed - acc.attributed else 0, status)
  }

  /** The unknown entry a domain's verdict adds to the period's bucket. */
  function FindingOf(domain: Domain, policy: Policy): Option<UnknownEntry> {
    var entry := (reason: UnknownReason) =>
      Some(UnknownEntry(domain.key.scope, domain.key.generation, domain.key.kind, reason, 1));
    match domain.status
    case Consistent => None
    case Unverifiable => if policy.requireTotals then entry(NoEvidence) else None
    case Residual => entry(ResidualUnclassified)
    case Excess => entry(OverAttributed)
  }

  /** A domain of the result states exactly what the derivation holds for its key. */
  ghost predicate IsConserved(d: Taken, domain: Domain) {
    var k := domain.key;
    && domain.attributed == Attributed(d, k)
    && domain.contributionCount == Contributed(d, k)
    && domain.unknownContributions == UnknownCount(d, k)
    && (domain.status == Unverifiable <==> !HasTotal(d, k))
    && (domain.observed.Some? <==> HasTotal(d, k))
    && (domain.status != Residual ==> domain.residual == 0)
    && (!HasTotal(d, k) ==> domain.delta == 0)
    && (HasTotal(d, k) ==>
          && domain.observed.value == ObservedTotal(d, k)
          && (domain.status == Consistent <==> Attributed(d, k) == ObservedTotal(d, k))
          && (domain.status == Residual <==> Attributed(d, k) < ObservedTotal(d, k))
          && (domain.status == Residual ==> domain.attributed + domain.residual == domain.observed.value)
          && domain.delta == DeltaOf(domain.attributed, domain.observed.value))
  }

  lemma ConcludeConserves(d: Taken, k: DomainKey, acc: Accumulator)
    requires IsAccumulator(acc, k, d)
    ensures IsConserved(d, Conclude(k, acc)) && Conclude(k, acc).key == k
  {
  }

  /** Why a strict policy refuses a domain, if it does. */
  function StrictError(domain: Domain, policy: Policy): Option<ErrorCode> {
    if domain.status == Residual && policy.residual == RejectResidual then Some(ConservationViolation)
    else if domain.status == Excess && policy.excess == RejectExcess then Some(OverAttribution)
    else None
  }

  datatype Folded = Folded(
    domains: seq<Domain>, findings: seq<UnknownEntry>, hasResidual: bool, hasExcess: bool, complete: bool)

  /** One domain per key that has any evidence, each stating its exact sums. */
  ghost predicate IsConservation(d: Taken, domains: seq<Domain>) {
    && (set x | x in domains :: x.key) == DomainKeys(d)
    && (forall x | x in domains :: IsConserved(d, x))
    && (forall i, j | 0 <= i < j < |domains| :: domains[i].key != domains[j].key)
  }

  ghost predicate StatesOutcome(f: Folded, policy: Policy) {
    && (f.hasResidual <==> exists x | x in f.domains :: x.status == Residual)
    && (f.hasExcess <==> exists x | x in f.domains :: x.status == Excess)
    && (f.complete <==> forall x | x in f.domains :: x.status == Consistent)
    && (forall x | x in f.domains :: StrictError(x, policy).None?)
    && (forall x | x in f.domains && FindingOf(x, policy).Some? :: FindingOf(x, policy).value in f.findings)
    && (forall u | u in f.findings :: exists x | x in f.domains :: FindingOf(x, policy) == Some(u))
  }

  /** The order domains are concluded in. */
  function DomainRank(k: DomainKey): seq<int> {
    [k.scope, k.generation, KindRank(k.kind)]
  }

  function RankOfDomain(x: Domain): seq<int> {
    DomainRank(x.key)
  }

  /** Why a strict policy refuses what is held for a key, if it does. */
  ghost function StrictAt(d: Taken, k: DomainKey, policy: Policy): Option<ErrorCode> {
    if !HasTotal(d, k) then None
    else if Attributed(d, k) < ObservedTotal(d, k) && policy.residual == RejectResidual then Some(ConservationViolation)
    else if Attributed(d, k) > ObservedTotal(d, k) && policy.excess == RejectExcess then Some(OverAttribution)
    else None
  }

  ghost predicate TooLarge(d: Taken) {
    exists k :: DomainOverflows(d, k)
  }

  ghost predicate PolicyRefuses(d: Taken, policy: Policy) {
    exists k | k in DomainKeys(d) :: StrictAt(d, k, policy).Some?
  }

  /** The refusal of the first domain that is refused. */
  ghost predicate RefusedWith(d: Taken, policy: Policy, error: ErrorCode) {
    exists k | k in DomainKeys(d) ::
      && StrictAt(d, k, policy) == Some(error)
      && forall j | j in DomainKeys(d) && StrictAt(d, j, policy).Some? :: LexLeq(DomainRank(k), DomainRank(j))
  }

  /** The fold fails exactly when the sums of some domain do not fit, or a strict policy
      refuses some domain, and then for the first such reason. */
  method FoldConservation(d: Derived, policy: Policy) returns (r: Result<Folded, ErrorCode>)
    ensures r.Ok? <==> !TooLarge(TakenFrom(d)) && !PolicyRefuses(TakenFrom(d), policy)
    ensures r.Ok? ==> IsConservation(TakenFrom(d), r.value.domains) && StatesOutcome(r.value, policy)
    ensures r.Err? ==> if TooLarge(TakenFrom(d)) then r.error == ArithmeticOverflow else RefusedWith(TakenFrom(d), policy, r.error)
  {
    var m := Accumulate(d);
    if m.Err? {
      return Err(m.error);
    }
    r := ConcludeAll(m.value, policy, TakenFrom(d));
  }

  method ConcludeAll(m: Accumulators, policy: Policy, ghost d: Taken) returns (r: Result<Folded, ErrorCode>)
    requires Accumulated(m, d)
    ensures r.Ok? <==> !PolicyRefuses(d, policy)
    ensures r.Ok? ==> IsConservation(d, r.value.domains) && StatesOutcome(r.value, policy)
    ensures r.Err? ==> RefusedWith(d, policy, r.error)
  {
    var domains := ListDomains(m, d);
    ghost var at;
    r, at := JudgeDomains(domains, policy);
    if r.Err? {
      FirstRefused(d, domains, policy, at, r.error);
    } else {
      NoneRefused(d, domains, policy);
    }
  }

  /** The status of a domain says how its sums compare. */
  lemma StrictMeans(d: Taken, x: Domain, policy: Policy)
    requires IsConserved(d, x)
    ensures StrictError(x, policy) == StrictAt(d, x.key, policy)
  {
  }

  lemma NoneRefused(d: Taken, domains: seq<Domain>, policy: Policy)
    requires IsConservation(d, domains) && forall x | x in domains :: StrictError(x, policy).None?
    ensures !PolicyRefuses(d, policy)
  {
    forall k | k in DomainKeys(d) ensures StrictAt(d, k, policy).None? {
      var x := DomainFor(d, domains, k);
      StrictMeans(d, x, policy);
    }
  }

  lemma DomainFor(d: Taken, domains: seq<Domain>, k: DomainKey) returns (x: Domain)
    requires IsConservation(d, domains) && k in DomainKeys(d)
    ensures x in domains && x.key == k && IsConserved(d, x)
  {
    assert k in (set y | y in domains :: y.key);
    x :| x in domains && x.key == k;
  }

  lemma FirstRefused(d: Taken, domains: seq<Domain>, policy: Policy, at: nat, error: ErrorCode)
    requires IsConservation(d, domains) && SortedBy(domains, RankOfDomain)
    requires at < |domains| && StrictError(domains[at], policy) == Some(error)
    requires forall i | 0 <= i < at :: StrictError(domains[i], policy).None?
    ensures RefusedWith(d, policy, error) && PolicyRefuses(d, policy)
  {
    var first := domains[at];
    DomainBelongs(d, domains, first);
    StrictMeans(d, first, policy);
    forall j | j in DomainKeys(d) && StrictAt(d, j, policy).Some? ensures LexLeq(DomainRank(first.key), DomainRank(j)) {
      var x := DomainFor(d, domains, j);
      StrictMeans(d, x, policy);
      var i :| 0 <= i < |domains| && domains[i] == x;
      if i == at {
        LexTotal(DomainRank(j), DomainRank(j));
      } else {
        assert LexLeq(RankOfDomain(domains[at]), RankOfDomain(domains[i]));
      }
    }
  }

  lemma DomainBelongs(d: Taken, domains: seq<Domain>, x: Domain)
    requires IsConservation(d, domains) && x in domains
    ensures IsConserved(d, x) && x.key in DomainKeys(d)
  {
    assert x.key in (set y | y in domains :: y.key);
  }

  method ListDomains(m: Accumulators, ghost d: Taken) returns (domains: seq<Domain>)
    requires Accumulated(m, d)
    ensures IsConservation(d, domains) && SortedBy(domains, RankOfDomain)
  {
    var listing := Listing(m.Keys);
    ListingMembers(listing, m.Keys);
    var keys := Sort(listing, DomainRank);
    DistinctPermuted(listing, keys);
    domains := [];
    for i := 0 to |keys|
      invariant |domains| == i
      invariant forall j | 0 <= j < i :: domains[j].key == keys[j] && IsConserved(d, domains[j])
    {
      var domain := ConcludeOne(m, keys[i], d);
      domains := domains + [domain];
    }
    KeysListed(keys, domains, DomainKeys(d));
  }

  method JudgeDomains(domains: seq<Domain>, policy: Policy) returns (r: Result<Folded, ErrorCode>, ghost at: nat)
    ensures r.Ok? ==> r.value.domains == domains && StatesOutcome(r.value, policy)
    ensures r.Err? ==> at < |domains| && StrictError(domains[at], policy) == Some(r.error)
                       && forall i | 0 <= i < at :: StrictError(domains[i], policy).None?
  {
    var f := Folded([], [], false, false, true);
    at := 0;
    for i := 0 to |domains|
      invariant f.domains == domains[..i]
      invariant forall j | 0 <= j < i :: StrictError(domains[j], policy).None?
      invariant StatesOutcome(f, policy)
    {
      TakeSucc(domains, i);
      var strict := StrictError(domains[i], policy);
      if strict.Some? {
        return Err(strict.value), i;
      }
      OutcomeNext(f, domains[i], policy);
      f := Next(f, domains[i], policy);
    }
    TakeAll(domains);
    return Ok(f), 0;
  }

  method ConcludeOne(m: Accumulators, k: DomainKey, ghost d: Taken) returns (domain: Domain)
    requires Accumulated(m, d)
    ensures domain.key == k && IsConserved(d, domain)
  {
    assert IsAccumulator(At(m, k), k, d);
    ConcludeConserves(d, k, At(m, k));
    domain := Conclude(k, At(m, k));
  }

  lemma KeysListed(keys: seq<DomainKey>, domains: seq<Domain>, all: set<DomainKey>)
    requires Distinct(keys) && |domains| == |keys|
    requires forall k :: k in keys <==> k in all
    requires forall i | 0 <= i < |keys| :: domains[i].key == keys[i]
    ensures (set x | x in domains :: x.key) == all
    ensures forall i, j | 0 <= i < j < |domains| :: domains[i].key != domains[j].key
  {
    forall k ensures k in (set x | x in domains :: x.key) <==> k in all {
      if k in keys {
        var i :| 0 <= i < |keys| && keys[i] == k;
        assert domains[i] in domains;
      }
    }
  }

  function Next(f: Folded, domain: Domain, policy: Policy): Folded {
    var finding := FindingOf(domain, policy);
    Folded(f.domains + [domain],
           if finding.Some? then f.findings + [finding.value] else f.findings,
           f.hasResidual || domain.status == Residual,
           f.hasExcess || domain.status == Excess,
           f.complete && domain.status == Consistent)
  }

  lemma OutcomeNext(f: Folded, domain: Domain, policy: Policy)
    requires StatesOutcome(f, policy) && StrictError(domain, policy).None?
    ensures StatesOutcome(Next(f, domain, policy), policy)
  {
    var n := Next(f, domain, policy);
    assert forall x :: x in n.domains <==> x in f.domains || x == domain;
    assert domain in n.domains;
    forall u | u in n.findings ensures exists x | x in n.domains :: FindingOf(x, policy) == Some(u) {
      if u in f.findings {
        var x :| x in f.domains && FindingOf(x, policy) == Some(u);
        assert x in n.domains;
      }
    }
    assert (exists x | x in n.domains :: x.status == Residual) <==>
           (exists x | x in f.domains :: x.status == Residual) || domain.status == Residual;
    assert (exists x | x in n.domains :: x.status == Excess) <==>
           (exists x | x in f.domains :: x.status == Excess) || domain.status == Excess;
  }
}
