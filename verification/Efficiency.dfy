/** The efficiency summary of each measure kind, in 64-bit arithmetic. */
module Efficiency {

  import opened Arith
  import opened Common
  import opened Fabric
  import opened Evidence
  import opened Folds
  import opened Derivation
  import opened Claims
  import opened Conservation

  datatype Coverage = KnownCoverage | PartialCoverage | UnknownCoverage

  datatype Summary = Summary(
    kind: MeasureKind, coverage: Coverage, determinate: bool,
    useful: U64, overhead: U64, avoidable: U64, failed: U64, unknown: U64,
    denominator: U64, ratioNumerator: U64, ratioDenominator: U64, permille: U64)

  /** The running sums of one measure kind; amounts wrap, as the additions are unchecked. */
  datatype Tally = Tally(
    useful: U64, overhead: U64, avoidable: U64, failed: U64, unknown: U64,
    determinate: bool, balanced: bool, complete: bool)

  const FRESH_TALLY := Tally(0, 0, 0, 0, 0, true, true, true)

  function TakeClaim(t: Tally, claim: Claim): Tally {
    var amount := claim.cell.knownTotal;
    var u := match UsefulnessOf(claim.key.category)
             case Useful => t.(useful := WrapAdd(t.useful, amount))
             case NecessaryOverhead => t.(overhead := WrapAdd(t.overhead, amount))
             case Avoidable => t.(avoidable := WrapAdd(t.avoidable, amount))
             case Failed => t.(failed := WrapAdd(t.failed, amount))
             case Unclassified => t;
    var v := u.(unknown := WrapAdd(u.unknown, claim.cell.unknownContributions));
    if claim.key.category == UnknownUnattributed then v.(unknown := WrapAdd(v.unknown, 1), determinate := false) else v
  }

  function TakeDomain(t: Tally, domain: Domain): Tally {
    var next := AddChecked(t.unknown, domain.unknownContributions);
    var u := t.(balanced := t.balanced && domain.status != Residual && domain.status != Excess,
                complete := t.complete && domain.status == Consistent);
    if next.None? then u.(unknown := U64_MAX, determinate := false) else u.(unknown := next.value)
  }

  function AddSaturating(a: U64, b: U64): U64 {
    var next := AddChecked(a, b);
    if next.Some? then next.value else U64_MAX
  }

  function Denominator(t: Tally): U64 {
    AddSaturating(AddSaturating(AddSaturating(t.useful, t.overhead), t.avoidable), t.failed)
  }

  function Gcd(a: nat, b: nat): nat
    decreases b
  {
    if b == 0 then a else Gcd(b, a % b)
  }

  function Quotient(n: U64, d: nat): (q: U64)
    requires d > 0
    ensures q == n / d
  {
    DivBounds(n, d);
    n / d
  }

  function Permille(useful: U64, denominator: U64): U64
    requires denominator > 0
  {
    var scaled := MulChecked(useful, 1000);
    if scaled.None? then 0 else Quotient(WrapAdd(scaled.value, Quotient(denominator, 2)), denominator)
  }

  function Finish(kind: MeasureKind, t: Tally): Summary {
    var denominator := Denominator(t);
    var determinate := t.determinate && t.unknown == 0 && t.balanced && denominator != 0;
    var coverage :=
      if denominator == 0 then UnknownCoverage
      else if !t.complete || t.unknown > 0 then PartialCoverage
      else KnownCoverage;
    var blank := Summary(kind, coverage, determinate, t.useful, t.overhead, t.avoidable, t.failed, t.unknown,
                         denominator, 0, 0, 0);
    if !determinate then blank
    else
      GcdDivides(t.useful, denominator);
      var divisor := Gcd(t.useful, denominator);
      blank.(ratioNumerator := Quotient(t.useful, divisor), ratioDenominator := Quotient(denominator, divisor),
             permille := Permille(t.useful, denominator))
  }

  // ---- the tally of one kind, claim by claim and domain by domain ----------

  function AfterClaims(claims: seq<Claim>, kind: MeasureKind): Tally {
    if claims == [] then FRESH_TALLY
    else
      var n := |claims| - 1;
      var t := AfterClaims(claims[..n], kind);
      if claims[n].cell.kind == kind then TakeClaim(t, claims[n]) else t
  }

  function AfterDomains(t: Tally, domains: seq<Domain>, kind: MeasureKind): Tally {
    if domains == [] then t
    else
      var n := |domains| - 1;
      var u := AfterDomains(t, domains[..n], kind);
      if domains[n].key.kind == kind then TakeDomain(u, domains[n]) else u
  }

  function SummaryOf(claims: seq<Claim>, domains: seq<Domain>, kind: MeasureKind): Summary {
    Finish(kind, AfterDomains(AfterClaims(claims, kind), domains, kind))
  }

  const KINDS: seq<MeasureKind> :=
    [WireBytes, PayloadBytes, PortOccupancyNanos, CapacityNanos, ControlMessages, FrameCount]

  method FoldEfficiency(claims: seq<Claim>, domains: seq<Domain>) returns (out: seq<Summary>)
    ensures |out| == |KINDS| && forall i | 0 <= i < |KINDS| :: out[i] == SummaryOf(claims, domains, KINDS[i])
  {
    var tallies: map<MeasureKind, Tally> := map kind | kind in KINDS :: FRESH_TALLY;
    assert forall kind: MeasureKind :: kind in KINDS by { AllKinds(); }
    for i := 0 to |claims|
      invariant forall kind: MeasureKind :: kind in tallies && tallies[kind] == AfterClaims(claims[..i], kind)
    {
      var kind := claims[i].cell.kind;
      assert claims[..i + 1][..i] == claims[..i];
      tallies := tallies[kind := TakeClaim(tallies[kind], claims[i])];
    }
    TakeAll(claims);
    for i := 0 to |domains|
      invariant forall kind: MeasureKind ::
        kind in tallies && tallies[kind] == AfterDomains(AfterClaims(claims, kind), domains[..i], kind)
    {
      var kind := domains[i].key.kind;
      assert domains[..i + 1][..i] == domains[..i];
      tallies := tallies[kind := TakeDomain(tallies[kind], domains[i])];
    }
    TakeAll(domains);
    out := [];
    for i := 0 to |KINDS|
      invariant |out| == i && forall j | 0 <= j < i :: out[j] == SummaryOf(claims, domains, KINDS[j])
    {
      out := out + [Finish(KINDS[i], tallies[KINDS[i]])];
    }
  }

  lemma AllKinds()
    ensures forall kind: MeasureKind :: kind in KINDS
  {
    forall kind: MeasureKind ensures kind in KINDS {
      var i := KindRank(kind) - 1;
      assert KINDS[i] == kind;
    }
  }

  // ---- what a tally holds --------------------------------------------------

  function AmountAs(kind: MeasureKind, usefulness: Usefulness): Claim -> nat {
    (c: Claim) => if c.cell.kind == kind && UsefulnessOf(c.key.category) == usefulness then c.cell.knownTotal else 0
  }

  function AmountIn(kind: MeasureKind): Claim -> nat {
    (c: Claim) => if c.cell.kind == kind then c.cell.knownTotal else 0
  }

  ghost function ClaimedAs(claims: seq<Claim>, kind: MeasureKind, usefulness: Usefulness): nat {
    SumOf(multiset(claims), AmountAs(kind, usefulness))
  }

  /** Everything claimed for one measure kind. */
  ghost function Claimed(claims: seq<Claim>, kind: MeasureKind): nat {
    SumOf(multiset(claims), AmountIn(kind))
  }

  predicate Unclassifiable(claims: seq<Claim>, kind: MeasureKind) {
    exists i | 0 <= i < |claims| :: claims[i].cell.kind == kind && claims[i].key.category == UnknownUnattributed
  }

  const WORD := U64_MAX + 1

  ghost predicate Tallies(t: Tally, claims: seq<Claim>, kind: MeasureKind) {
    && t.useful == ClaimedAs(claims, kind, Useful) % WORD
    && t.overhead == ClaimedAs(claims, kind, NecessaryOverhead) % WORD
    && t.avoidable == ClaimedAs(claims, kind, Avoidable) % WORD
    && t.failed == ClaimedAs(claims, kind, Failed) % WORD
    && (t.determinate <==> !Unclassifiable(claims, kind))
    && (t.determinate ==> t.unknown == 0)
    && t.balanced && t.complete
  }

  lemma ClaimedNext(claims: seq<Claim>, kind: MeasureKind, usefulness: Usefulness)
    requires claims != []
    ensures var n := |claims| - 1;
      ClaimedAs(claims, kind, usefulness) == ClaimedAs(claims[..n], kind, usefulness) + AmountAs(kind, usefulness)(claims[n])
  {
    SplitLast(claims);
    SumOfAdd(multiset(claims[..|claims| - 1]), claims[|claims| - 1], AmountAs(kind, usefulness));
  }

  lemma WrapsOn(a: nat, b: U64)
    ensures WrapAdd(a % WORD, b) == (a + b) % WORD
  {
    assert a == WORD * (a / WORD) + a % WORD;
    assert a + b == WORD * (a / WORD) + (a % WORD + b);
    ModShift(a % WORD + b, a / WORD);
  }

  lemma ModShift(x: nat, q: nat)
    ensures (WORD * q + x) % WORD == x % WORD
  {
    if q > 0 {
      ModShift(x, q - 1);
      assert WORD * q + x == (WORD * (q - 1) + x) + WORD;
    }
  }

  lemma UnclassifiableNext(claims: seq<Claim>, kind: MeasureKind)
    requires claims != []
    ensures var n := |claims| - 1;
      Unclassifiable(claims, kind) <==>
        Unclassifiable(claims[..n], kind) || (claims[n].cell.kind == kind && claims[n].key.category == UnknownUnattributed)
  {
    var n := |claims| - 1;
    if Unclassifiable(claims, kind) {
      var i :| 0 <= i < |claims| && claims[i].cell.kind == kind && claims[i].key.category == UnknownUnattributed;
      assert i < n ==> claims[..n][i] == claims[i];
    }
    if Unclassifiable(claims[..n], kind) {
      var i :| 0 <= i < n && claims[..n][i].cell.kind == kind && claims[..n][i].key.category == UnknownUnattributed;
      assert claims[i] == claims[..n][i];
    }
  }

  lemma {:induction false} TallyOfClaims(claims: seq<Claim>, kind: MeasureKind)
    requires forall c | c in claims :: c.cell.unknownContributions == 0
    ensures Tallies(AfterClaims(claims, kind), claims, kind)
  {
    if claims == [] {
      assert multiset(claims) == multiset{};
    } else {
      var n := |claims| - 1;
      var c := claims[n];
      TallyOfClaims(claims[..n], kind);
      UnclassifiableNext(claims, kind);
      TallyNext(AfterClaims(claims[..n], kind), claims, kind);
    }
  }

  lemma SumNext(sum: U64, claims: seq<Claim>, kind: MeasureKind, usefulness: Usefulness)
    requires claims != [] && sum == ClaimedAs(claims[..|claims| - 1], kind, usefulness) % WORD
    ensures var c := claims[|claims| - 1];
      ClaimedAs(claims, kind, usefulness) % WORD
      == if c.cell.kind == kind && UsefulnessOf(c.key.category) == usefulness then WrapAdd(sum, c.cell.knownTotal) else sum
  {
    ClaimedNext(claims, kind, usefulness);
    WrapsOn(ClaimedAs(claims[..|claims| - 1], kind, usefulness), claims[|claims| - 1].cell.knownTotal);
  }

  lemma TallyNext(t: Tally, claims: seq<Claim>, kind: MeasureKind)
    requires claims != [] && Tallies(t, claims[..|claims| - 1], kind)
    requires claims[|claims| - 1].cell.unknownContributions == 0
    ensures var c := claims[|claims| - 1];
      Tallies(if c.cell.kind == kind then TakeClaim(t, c) else t, claims, kind)
  {
    UnclassifiableNext(claims, kind);
    SumNext(t.useful, claims, kind, Useful);
    SumNext(t.overhead, claims, kind, NecessaryOverhead);
    SumNext(t.avoidable, claims, kind, Avoidable);
    SumNext(t.failed, claims, kind, Failed);
  }

  // ---- the verdict ---------------------------------------------------------

  /** A domain that leaves nothing of its measure in doubt. */
  predicate Settles(x: Domain) {
    x.unknownContributions == 0 && x.status != Residual && x.status != Excess
  }

  lemma {:induction false} DomainsDecide(t: Tally, domains: seq<Domain>, kind: MeasureKind)
    requires t.balanced
    ensures var u := AfterDomains(t, domains, kind);
      && u.(unknown := t.unknown, determinate := t.determinate, balanced := true, complete := t.complete) == t
      && (u.determinate && u.unknown == 0 && u.balanced <==>
          t.determinate && t.unknown == 0 && forall x | x in domains && x.key.kind == kind :: Settles(x))
      && u.unknown >= t.unknown
  {
    if domains != [] {
      var n := |domains| - 1;
      DomainsDecide(t, domains[..n], kind);
      SplitLast(domains);
      assert forall x :: x in domains <==> x in domains[..n] || x == domains[n];
    }
  }

  /** A summary is determinate exactly when every claim of its kind is classified, no
      domain of its kind holds an unmeasured contribution, a residual or an excess, and
      some known work was claimed. */
  lemma DeterminateExactly(claims: seq<Claim>, domains: seq<Domain>, kind: MeasureKind)
    requires forall c | c in claims :: c.cell.unknownContributions == 0
    ensures var s := SummaryOf(claims, domains, kind);
      s.determinate <==>
        && !Unclassifiable(claims, kind)
        && (forall x | x in domains && x.key.kind == kind :: Settles(x))
        && s.denominator != 0
  {
    TallyOfClaims(claims, kind);
    DomainsDecide(AfterClaims(claims, kind), domains, kind);
  }

  lemma ClaimsByUsefulness(claims: seq<Claim>, kind: MeasureKind)
    ensures Claimed(claims, kind) ==
      ClaimedAs(claims, kind, Useful) + ClaimedAs(claims, kind, NecessaryOverhead) + ClaimedAs(claims, kind, Avoidable)
      + ClaimedAs(claims, kind, Failed) + ClaimedAs(claims, kind, Unclassified)
  {
    if claims != [] {
      var n := |claims| - 1;
      ClaimsByUsefulness(claims[..n], kind);
      SplitLast(claims);
      SumOfAdd(multiset(claims[..n]), claims[n], AmountIn(kind));
      ClaimedNext(claims, kind, Useful);
      ClaimedNext(claims, kind, NecessaryOverhead);
      ClaimedNext(claims, kind, Avoidable);
      ClaimedNext(claims, kind, Failed);
      ClaimedNext(claims, kind, Unclassified);
    }
  }

  lemma NothingUnclassified(claims: seq<Claim>, kind: MeasureKind)
    requires !Unclassifiable(claims, kind)
    ensures ClaimedAs(claims, kind, Unclassified) == 0
  {
    if claims != [] {
      var n := |claims| - 1;
      UnclassifiableNext(claims, kind);
      NothingUnclassified(claims[..n], kind);
      ClaimedNext(claims, kind, Unclassified);
    }
  }

  /** For a determinate kind the denominator is the sum of all its claims exactly when
      that sum fits 64 bits: the four sums wrap separately and the final one saturates. */
  lemma DenominatorExactly(claims: seq<Claim>, domains: seq<Domain>, kind: MeasureKind)
    requires forall c | c in claims :: c.cell.unknownContributions == 0
    requires !Unclassifiable(claims, kind)
    ensures var s := SummaryOf(claims, domains, kind);
      s.denominator == Claimed(claims, kind) <==> FitsU64(Claimed(claims, kind))
    ensures var s := SummaryOf(claims, domains, kind);
      FitsU64(Claimed(claims, kind)) ==> s.useful == ClaimedAs(claims, kind, Useful)
  {
    TallyOfClaims(claims, kind);
    DomainsDecide(AfterClaims(claims, kind), domains, kind);
    ClaimsByUsefulness(claims, kind);
    NothingUnclassified(claims, kind);
    SaturatedSum(ClaimedAs(claims, kind, Useful), ClaimedAs(claims, kind, NecessaryOverhead),
                 ClaimedAs(claims, kind, Avoidable), ClaimedAs(claims, kind, Failed));
  }

  lemma SaturatedSum(a: nat, b: nat, c: nat, d: nat)
    ensures AddSaturating(AddSaturating(AddSaturating(a % WORD, b % WORD), c % WORD), d % WORD) == a + b + c + d
       <==> FitsU64(a + b + c + d)
    ensures FitsU64(a) ==> a % WORD == a
  {
    Remainder(a);
    Remainder(b);
    Remainder(c);
    Remainder(d);
  }

  lemma Remainder(a: nat)
    ensures 0 <= a % WORD <= U64_MAX && (a <= U64_MAX ==> a % WORD == a)
  {
  }

  /** The sums of a summary: each wraps on its own, and the denominator saturates. */
  lemma SummarySums(claims: seq<Claim>, domains: seq<Domain>, kind: MeasureKind)
    requires forall c | c in claims :: c.cell.unknownContributions == 0
    ensures var s := SummaryOf(claims, domains, kind);
      && s.useful == ClaimedAs(claims, kind, Useful) % WORD
      && s.denominator == AddSaturating(AddSaturating(AddSaturating(s.useful, ClaimedAs(claims, kind, NecessaryOverhead) % WORD),
                                                      ClaimedAs(claims, kind, Avoidable) % WORD),
                                        ClaimedAs(claims, kind, Failed) % WORD)
  {
    TallyOfClaims(claims, kind);
    DomainsDecide(AfterClaims(claims, kind), domains, kind);
  }

  // ---- the reduced ratio ---------------------------------------------------

  ghost predicate Divides(d: nat, n: nat) {
    exists q: nat :: Product(q, d) == n
  }

  function Product(q: nat, d: nat): nat {
    q * d
  }

  lemma {:induction false} GcdDivides(a: nat, b: nat)
    requires a > 0 || b > 0
    ensures Gcd(a, b) > 0 && Divides(Gcd(a, b), a) && Divides(Gcd(a, b), b)
    decreases b
  {
    if b == 0 {
      assert Product(1, a) == a && Product(0, a) == 0;
    } else {
      GcdDivides(b, a % b);
      var g := Gcd(a, b);
      var p: nat :| Product(p, g) == b;
      var q: nat :| Product(q, g) == a % b;
      var k := a / b;
      assert a == k * b + a % b;
      assert k * (p * g) == (k * p) * g;
      assert a == (k * p + q) * g;
      assert Product(k * p + q, g) == a;
    }
  }

  lemma {:induction false} GcdGreatest(a: nat, b: nat, d: nat)
    requires Divides(d, a) && Divides(d, b)
    ensures Divides(d, Gcd(a, b))
    decreases b
  {
    if b != 0 {
      var p: nat :| Product(p, d) == a;
      var q: nat :| Product(q, d) == b;
      var k := a / b;
      assert a % b == a - k * b;
      assert k * (q * d) == (k * q) * d;
      assert a % b == (p - k * q) * d;
      MulGap(p - k * q, 0, d);
      assert Product(p - k * q, d) == a % b;
      GcdGreatest(b, a % b, d);
    }
  }

  lemma ExactQuotient(n: nat, g: nat)
    requires g > 0 && Divides(g, n)
    ensures (n / g) * g == n
  {
    var q: nat :| Product(q, g) == n;
    DivUnique(n, g, q, 0);
  }

  /** The reported ratio equals useful over denominator and is in lowest terms. */
  lemma RatioIsReduced(claims: seq<Claim>, domains: seq<Domain>, kind: MeasureKind, d: nat)
    requires SummaryOf(claims, domains, kind).determinate
    ensures var s := SummaryOf(claims, domains, kind);
      s.ratioDenominator > 0 && s.ratioNumerator * s.denominator == s.useful * s.ratioDenominator
    ensures var s := SummaryOf(claims, domains, kind);
      Divides(d, s.ratioNumerator) && Divides(d, s.ratioDenominator) ==> d == 1
  {
    var s := SummaryOf(claims, domains, kind);
    Reduced(s.useful, s.denominator, d);
  }

  lemma Reduced(u: nat, n: nat, d: nat)
    requires n > 0
    ensures var g := Gcd(u, n);
      && g > 0 && n / g > 0
      && (u / g) * n == u * (n / g)
      && (Divides(d, u / g) && Divides(d, n / g) ==> d == 1)
  {
    var g := Gcd(u, n);
    GcdDivides(u, n);
    ExactQuotient(u, g);
    ExactQuotient(n, g);
    CrossProduct(u / g, n / g, g);
    if Divides(d, u / g) && Divides(d, n / g) {
      CommonFactor(u, n, u / g, n / g, g, d);
    }
  }

  lemma CrossProduct(a: nat, b: nat, g: nat)
    ensures a * (b * g) == (a * g) * b
  {
  }

  lemma CommonFactor(u: nat, n: nat, a: nat, b: nat, g: nat, d: nat)
    requires g > 0 && g == Gcd(u, n) && u == a * g && n == b * g
    requires Divides(d, a) && Divides(d, b)
    ensures d == 1
  {
    var p: nat :| Product(p, d) == a;
    var q: nat :| Product(q, d) == b;
    Regroup(p, d, g);
    Regroup(q, d, g);
    assert Product(p, d * g) == u && Product(q, d * g) == n;
    GcdGreatest(u, n, d * g);
    var m: nat :| Product(m, d * g) == g;
    Regroup(m, d, g);
    UnitFactor(m, d, g);
  }

  lemma Regroup(p: nat, d: nat, g: nat)
    ensures (p * d) * g == p * (d * g)
  {
  }

  lemma UnitFactor(m: nat, d: nat, g: nat)
    requires g > 0 && (m * d) * g == g
    ensures d == 1
  {
    MulGap(m * d, 1, g);
    MulGap(1, m * d, g);
    assert m * d == 1;
    MulGap(1, m, d);
    MulGap(1, d, m);
  }

  /** The per-mille figure rounds half up exactly when the scaled sum fits 64 bits;
      beyond that it is silently a different number. */
  lemma PermilleExactly(useful: U64, denominator: U64)
    requires denominator > 0 && useful <= denominator
    ensures Permille(useful, denominator) == (useful * 1000 + denominator / 2) / denominator
       <==> FitsU64(useful * 1000 + denominator / 2)
    ensures FitsU64(useful * 1000 + denominator / 2) ==> Permille(useful, denominator) <= 1000
  {
    var x := useful * 1000 + denominator / 2;
    if FitsU64(x) {
      DivAtMost(x, denominator, 1000);
    } else if FitsU64(useful * 1000) {
      assert WrapAdd(useful * 1000, denominator / 2) == x - WORD;
      DivStep(x - WORD, x, denominator);
    } else {
      DivBounds(x, denominator);
    }
  }

  /** Just below the guarded product, the unguarded rounding term wraps: work that was all
      useful is reported as 0 per mille. */
  lemma AllUsefulReportedAsNothing(amount: U64)
    requires amount == 18_446_744_073_709_551
    ensures MulChecked(amount, 1000).Some? && Permille(amount, amount) == 0
    ensures (amount * 1000 + amount / 2) / amount == 1000
  {
    var half, wrapped := 9_223_372_036_854_775, 9_223_372_036_854_159;
    DivUnique(amount, 2, half, 1);
    assert amount * 1000 + half == wrapped + WORD;
    DivUnique(amount * 1000 + half, WORD, 1, wrapped);
    DivUnique(wrapped, amount, 0, wrapped);
    DivUnique(amount * 1000 + half, amount, 1000, half);
  }
}
