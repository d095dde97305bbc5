/** What the folds of a revision add up to, in terms of the contributions, unknowns and totals
    themselves, and of the categories of work. */
module Balances {

  import opened Common
  import opened Fabric
  import opened Evidence
  import opened Folds
  import opened Derivation
  import opened Claims
  import opened Conservation
  import opened Efficiency

  // ---- sums under distinct keys --------------------------------------------

  function OnKey<X, K(==)>(key: X -> K, amount: X -> nat, k: K): X -> nat {
    (x: X) => if key(x) == k then amount(x) else 0
  }

  function OnKeys<X, K(==)>(key: X -> K, amount: X -> nat, keys: set<K>): X -> nat {
    (x: X) => if key(x) in keys then amount(x) else 0
  }

  ghost function KeysOfItems<V, K>(items: seq<V>, key: V -> K): set<K> {
    set v | v in items :: key(v)
  }

  lemma {:induction false} ItemsAddUp<V, X, K>(
    items: seq<V>, key: V -> K, value: V -> nat, xs: multiset<X>, xkey: X -> K, amount: X -> nat)
    requires forall i, j | 0 <= i < j < |items| :: key(items[i]) != key(items[j])
    requires forall v | v in items :: value(v) == SumOf(xs, OnKey(xkey, amount, key(v)))
    ensures SumOf(multiset(items), value) == SumOf(xs, OnKeys(xkey, amount, KeysOfItems(items, key)))
  {
    if items == [] {
      SumOfZero(xs, OnKeys(xkey, amount, KeysOfItems(items, key)));
    } else {
      var n := |items| - 1;
      SplitLast(items);
      ItemsAddUp(items[..n], key, value, xs, xkey, amount);
      SumOfAdd(multiset(items[..n]), items[n], value);
      LastKey(items, key);
      OneKeyMore(xs, xkey, amount, KeysOfItems(items[..n], key), key(items[n]));
    }
  }

  lemma LastKey<V, K>(items: seq<V>, key: V -> K)
    requires items != [] && forall i, j | 0 <= i < j < |items| :: key(items[i]) != key(items[j])
    ensures var n := |items| - 1;
      KeysOfItems(items, key) == KeysOfItems(items[..n], key) + {key(items[n])} && key(items[n]) !in KeysOfItems(items[..n], key)
  {
    SplitLast(items);
    assert forall v :: v in items <==> v in items[..|items| - 1] || v == items[|items| - 1];
  }

  lemma OneKeyMore<X, K>(xs: multiset<X>, xkey: X -> K, amount: X -> nat, keys: set<K>, k: K)
    requires k !in keys
    ensures SumOf(xs, OnKeys(xkey, amount, keys + {k})) == SumOf(xs, OnKeys(xkey, amount, keys)) + SumOf(xs, OnKey(xkey, amount, k))
  {
    SumOfPlus(xs, OnKeys(xkey, amount, keys), OnKey(xkey, amount, k), OnKeys(xkey, amount, keys + {k}));
  }

  /** When every element has an item of its key, the items add up to the elements. */
  lemma AllAddUp<V, X, K>(
    items: seq<V>, key: V -> K, value: V -> nat, xs: multiset<X>, xkey: X -> K, amount: X -> nat)
    requires forall i, j | 0 <= i < j < |items| :: key(items[i]) != key(items[j])
    requires forall v | v in items :: value(v) == SumOf(xs, OnKey(xkey, amount, key(v)))
    requires forall x | x in xs :: xkey(x) in KeysOfItems(items, key)
    ensures SumOf(multiset(items), value) == SumOf(xs, amount)
  {
    ItemsAddUp(items, key, value, xs, xkey, amount);
    SumOfAgree(xs, OnKeys(xkey, amount, KeysOfItems(items, key)), amount);
  }

  // ---- conservation domains ------------------------------------------------

  /** A choice of scope, generation and measure. */
  type Choice = (Id, Id, MeasureKind) -> bool

  /** An amount that counts only where it is chosen. */
  function Weigh(counts: bool, amount: nat): nat {
    if counts then amount else 0
  }

  function DomainKeyOf(x: Domain): DomainKey { x.key }

  function ChosenAttributed(chosen: Choice): Domain -> nat {
    (x: Domain) => Weigh(chosen(x.key.scope, x.key.generation, x.key.kind), x.attributed)
  }

  function ChosenCount(chosen: Choice): Domain -> nat {
    (x: Domain) => Weigh(chosen(x.key.scope, x.key.generation, x.key.kind), x.contributionCount)
  }

  function ChosenUnknown(chosen: Choice): Domain -> nat {
    (x: Domain) => Weigh(chosen(x.key.scope, x.key.generation, x.key.kind), x.unknownContributions)
  }

  function ObservedAmount(x: Domain): nat {
    if x.observed.Some? then x.observed.value else 0
  }

  function ChosenObserved(chosen: Choice): Domain -> nat {
    (x: Domain) => Weigh(chosen(x.key.scope, x.key.generation, x.key.kind), ObservedAmount(x))
  }

  function AmountChosen(chosen: Choice): Contribution -> nat {
    (x: Contribution) => Weigh(chosen(x.key.scope, x.key.generation, x.key.kind), x.amount)
  }

  function OneChosen(chosen: Choice): Contribution -> nat {
    (x: Contribution) => Weigh(chosen(x.key.scope, x.key.generation, x.key.kind), 1)
  }

  function UnknownChosen(chosen: Choice): UnknownEntry -> nat {
    (u: UnknownEntry) => Weigh(chosen(u.scope, u.generation, u.kind), u.count)
  }

  function TotalChosen(chosen: Choice): TotalCell -> nat {
    (t: TotalCell) => Weigh(chosen(t.domain.scope, t.domain.generation, t.domain.kind), t.amount)
  }

  lemma DomainListed(d: Taken, domains: seq<Domain>)
    requires IsConservation(d, domains)
    ensures KeysOfItems(domains, DomainKeyOf) == DomainKeys(d)
    ensures forall i, j | 0 <= i < j < |domains| :: DomainKeyOf(domains[i]) != DomainKeyOf(domains[j])
  {
  }

  /** Over any choice of scope, generation and measure the domains attribute what the chosen
      contributions add up to, and count them. */
  lemma AttributedConserved(d: Taken, domains: seq<Domain>, chosen: Choice)
    requires IsConservation(d, domains)
    ensures SumOf(multiset(domains), ChosenAttributed(chosen)) == SumOf(d.xs, AmountChosen(chosen))
    ensures SumOf(multiset(domains), ChosenCount(chosen)) == SumOf(d.xs, OneChosen(chosen))
  {
    DomainListed(d, domains);
    forall x | x in domains
      ensures ChosenAttributed(chosen)(x) == SumOf(d.xs, OnKey(DomainOf, AmountChosen(chosen), x.key))
      ensures ChosenCount(chosen)(x) == SumOf(d.xs, OnKey(DomainOf, OneChosen(chosen), x.key))
    {
      AttributedUnder(d, x, chosen);
    }
    forall x | x in d.xs ensures DomainOf(x) in DomainKeys(d) {
      assert DomainOf(x) in KeysUnder(d.xs, DomainOf);
    }
    AllAddUp(domains, DomainKeyOf, ChosenAttributed(chosen), d.xs, DomainOf, AmountChosen(chosen));
    AllAddUp(domains, DomainKeyOf, ChosenCount(chosen), d.xs, DomainOf, OneChosen(chosen));
  }

  lemma AttributedUnder(d: Taken, x: Domain, chosen: Choice)
    requires IsConserved(d, x)
    ensures ChosenAttributed(chosen)(x) == SumOf(d.xs, OnKey(DomainOf, AmountChosen(chosen), x.key))
    ensures ChosenCount(chosen)(x) == SumOf(d.xs, OnKey(DomainOf, OneChosen(chosen), x.key))
  {
    if chosen(x.key.scope, x.key.generation, x.key.kind) {
      SumOfAgree(d.xs, OnKey(DomainOf, AmountChosen(chosen), x.key), AttributedTo(x.key));
      SumOfAgree(d.xs, OnKey(DomainOf, OneChosen(chosen), x.key), CountedIn(x.key));
    } else {
      SumOfZero(d.xs, OnKey(DomainOf, AmountChosen(chosen), x.key));
      SumOfZero(d.xs, OnKey(DomainOf, OneChosen(chosen), x.key));
    }
  }

  /** They count as unknown what the chosen entries of the unknown bucket count. */
  lemma UnknownsConserved(d: Taken, domains: seq<Domain>, chosen: Choice)
    requires IsConservation(d, domains)
    ensures SumOf(multiset(domains), ChosenUnknown(chosen)) == SumOf(d.us, UnknownChosen(chosen))
  {
    DomainListed(d, domains);
    forall x | x in domains ensures ChosenUnknown(chosen)(x) == SumOf(d.us, OnKey(DomainOfUnknown, UnknownChosen(chosen), x.key)) {
      if chosen(x.key.scope, x.key.generation, x.key.kind) {
        SumOfAgree(d.us, OnKey(DomainOfUnknown, UnknownChosen(chosen), x.key), UnknownIn(x.key));
      } else {
        SumOfZero(d.us, OnKey(DomainOfUnknown, UnknownChosen(chosen), x.key));
      }
    }
    forall u | u in d.us ensures DomainOfUnknown(u) in DomainKeys(d) {
      assert DomainOfUnknown(u) in KeysUnder(d.us, DomainOfUnknown);
    }
    AllAddUp(domains, DomainKeyOf, ChosenUnknown(chosen), d.us, DomainOfUnknown, UnknownChosen(chosen));
  }

  /** And they observe what the chosen totals report. */
  lemma TotalsConserved(d: Taken, domains: seq<Domain>, chosen: Choice)
    requires IsConservation(d, domains)
    ensures SumOf(multiset(domains), ChosenObserved(chosen)) == SumOf(d.ts, TotalChosen(chosen))
    ensures forall x | x in domains :: x.observed.Some? <==> exists t | t in d.ts :: t.domain == x.key
  {
    DomainListed(d, domains);
    forall x | x in domains ensures ChosenObserved(chosen)(x) == SumOf(d.ts, OnKey(TotalDomain, TotalChosen(chosen), x.key)) {
      NoTotalNothingObserved(d, x.key);
      if chosen(x.key.scope, x.key.generation, x.key.kind) {
        SumOfAgree(d.ts, OnKey(TotalDomain, TotalChosen(chosen), x.key), ObservedIn(x.key));
      } else {
        SumOfZero(d.ts, OnKey(TotalDomain, TotalChosen(chosen), x.key));
      }
    }
    forall t | t in d.ts ensures TotalDomain(t) in DomainKeys(d) {
      assert TotalDomain(t) in KeysUnder(d.ts, TotalDomain);
    }
    AllAddUp(domains, DomainKeyOf, ChosenObserved(chosen), d.ts, TotalDomain, TotalChosen(chosen));
  }

  /** What the verdict on a domain adds to the period's bucket. */
  ghost predicate FoundIn(u: UnknownEntry, x: Domain, policy: Policy) {
    && u.scope == x.key.scope && u.generation == x.key.generation && u.kind == x.key.kind && u.count == 1
    && match u.reason
       case ResidualUnclassified => x.observed.Some? && x.attributed < x.observed.value
       case OverAttributed => x.observed.Some? && x.attributed > x.observed.value
       case NoEvidence => x.observed == None && policy.requireTotals
       case _ => false
  }

  /** The findings are exactly those: a residual, an excess, or a total that is demanded and missing. */
  lemma FindingsExactly(d: Taken, f: Folded, policy: Policy, u: UnknownEntry)
    requires IsConservation(d, f.domains) && StatesOutcome(f, policy)
    ensures u in f.findings <==> exists x | x in f.domains :: FoundIn(u, x, policy)
  {
    forall x | x in f.domains ensures FindingOf(x, policy) == Some(u) <==> FoundIn(u, x, policy) {
      FindingMeans(d, x, policy, u);
    }
    FindingsFrom(f, policy, u);
  }

  lemma FindingMeans(d: Taken, x: Domain, policy: Policy, u: UnknownEntry)
    requires IsConserved(d, x)
    ensures FindingOf(x, policy) == Some(u) <==> FoundIn(u, x, policy)
  {
  }

  lemma FindingsFrom(f: Folded, policy: Policy, u: UnknownEntry)
    requires StatesOutcome(f, policy)
    ensures u in f.findings <==> exists x | x in f.domains :: FindingOf(x, policy) == Some(u)
  {
  }

  // ---- claims --------------------------------------------------------------

  function KeyOf(x: Contribution): ClaimKey { x.key }

  function ClaimKeyOf(c: Claim): ClaimKey { c.key }

  function KnownContributions(c: Claim): nat { c.cell.knownContributions }

  function One(): Contribution -> nat {
    (x: Contribution) => 1
  }

  /** Every contribution is counted in one claim. */
  lemma ClaimsCount(xs: multiset<Contribution>, claims: seq<Claim>)
    requires IsFold(xs, claims)
    ensures SumOf(multiset(claims), KnownContributions) == |xs|
  {
    forall c | c in claims ensures KnownContributions(c) == SumOf(xs, OnKey(KeyOf, One(), c.key)) {
      assert IsClaim(xs, c);
      SumOfAgree(xs, OnKey(KeyOf, One(), c.key), CountOn(c.key));
    }
    forall x | x in xs ensures KeyOf(x) in KeysOfItems(claims, ClaimKeyOf) {
      assert x.key in KeysIn(xs) && x.key in ClaimKeys(claims);
    }
    AllAddUp(claims, ClaimKeyOf, KnownContributions, xs, KeyOf, One());
    Ones(xs);
  }

  lemma {:induction false} Ones(xs: multiset<Contribution>)
    ensures SumOf(xs, One()) == |xs|
    decreases |xs|
  {
    if xs != multiset{} {
      var x :| x in xs;
      SumOfRemove(xs, x, One());
      Ones(xs - multiset{x});
    }
  }

  /** A claim carries the stale mark exactly when a contribution to its cell does. */
  lemma StaleClaims(xs: multiset<Contribution>, claims: seq<Claim>, c: Claim)
    requires IsFold(xs, claims) && c in claims
    ensures c.staleIncluded <==> exists x | x in xs :: x.key == c.key && x.stale
  {
    assert IsClaim(xs, c);
    if x :| x in xs && x.key == c.key && x.stale {
      SumOfRemove(xs, x, StaleOn(c.key));
    }
    if forall x | x in xs :: !(x.key == c.key && x.stale) {
      SumOfZero(xs, StaleOn(c.key));
    }
  }

  // ---- summaries by category -----------------------------------------------

  /** The claimed amounts of some categories of one measure. */
  function AmountFor(kind: MeasureKind, categories: set<Category>): Claim -> nat {
    (c: Claim) => if c.cell.kind == kind && c.key.category in categories then c.cell.knownTotal else 0
  }

  ghost function ClaimedFor(claims: seq<Claim>, kind: MeasureKind, categories: set<Category>): nat {
    SumOf(multiset(claims), AmountFor(kind, categories))
  }

  lemma ClaimedByUse(claims: seq<Claim>, kind: MeasureKind, usefulness: Usefulness, categories: set<Category>)
    requires forall category: Category :: category in categories <==> UsefulnessOf(category) == usefulness
    ensures ClaimedAs(claims, kind, usefulness) == ClaimedFor(claims, kind, categories)
  {
    SumOfAgree(multiset(claims), AmountAs(kind, usefulness), AmountFor(kind, categories));
  }

  lemma SumsByUse(claims: seq<Claim>, domains: seq<Domain>, kind: MeasureKind)
    requires forall c | c in claims :: c.cell.unknownContributions == 0
    ensures var s := SummaryOf(claims, domains, kind);
      && s.useful == ClaimedAs(claims, kind, Useful) % WORD
      && s.overhead == ClaimedAs(claims, kind, NecessaryOverhead) % WORD
      && s.avoidable == ClaimedAs(claims, kind, Avoidable) % WORD
      && s.failed == ClaimedAs(claims, kind, Failed) % WORD
  {
    TallyOfClaims(claims, kind);
    DomainsDecide(AfterClaims(claims, kind), domains, kind);
  }

  /** Useful is what was delivered; overhead is control traffic; avoidable is what was sent
      again, doubled, rerouted, reserved idle or stranded; failed is what failed. Each sum
      wraps at 2^64. */
  lemma SumsByCategory(claims: seq<Claim>, domains: seq<Domain>, kind: MeasureKind)
    requires forall c | c in claims :: c.cell.unknownContributions == 0
    ensures var s := SummaryOf(claims, domains, kind);
      && s.useful == ClaimedFor(claims, kind, {UsefulDeliveredWork}) % 0x1_0000_0000_0000_0000
      && s.overhead == ClaimedFor(claims, kind, {ControlOverhead}) % 0x1_0000_0000_0000_0000
      && s.avoidable == ClaimedFor(claims, kind, AVOIDABLE) % 0x1_0000_0000_0000_0000
      && s.failed == ClaimedFor(claims, kind, {FailedTransfer}) % 0x1_0000_0000_0000_0000
  {
    SumsByUse(claims, domains, kind);
    ClaimedByUse(claims, kind, Useful, {UsefulDeliveredWork});
    ClaimedByUse(claims, kind, NecessaryOverhead, {ControlOverhead});
    ClaimedByUse(claims, kind, Avoidable, AVOIDABLE);
    ClaimedByUse(claims, kind, Failed, {FailedTransfer});
  }

  const AVOIDABLE: set<Category> := {Retransmission, Duplication, RerouteOverhead, IdleReservation, StrandedCapacity}

  // ---- coverage ------------------------------------------------------------

  lemma {:induction false} CompleteExactly(t: Tally, domains: seq<Domain>, kind: MeasureKind)
    ensures AfterDomains(t, domains, kind).complete <==>
      t.complete && forall x | x in domains && x.key.kind == kind :: x.status == Consistent
  {
    if domains != [] {
      CompleteExactly(t, domains[..|domains| - 1], kind);
      SplitLast(domains);
      assert forall x :: x in domains <==> x in domains[..|domains| - 1] || x == domains[|domains| - 1];
    }
  }

  function UnknownOfKind(kind: MeasureKind): Domain -> nat {
    (x: Domain) => if x.key.kind == kind then x.unknownContributions else 0
  }

  lemma {:induction false} UnknownsAdded(t: Tally, domains: seq<Domain>, kind: MeasureKind)
    ensures var sum := t.unknown + SumOf(multiset(domains), UnknownOfKind(kind));
      AfterDomains(t, domains, kind).unknown == if sum <= U64_MAX then sum else U64_MAX
  {
    if domains == [] {
      assert multiset(domains) == multiset{};
    } else {
      var n := |domains| - 1;
      SplitLast(domains);
      UnknownsAdded(t, domains[..n], kind);
      SumOfAdd(multiset(domains[..n]), domains[n], UnknownOfKind(kind));
    }
  }

  function Unattributable(kind: MeasureKind): Claim -> nat {
    (c: Claim) => if c.cell.kind == kind && c.key.category == UnknownUnattributed then 1 else 0
  }

  lemma {:induction false} UnknownClaims(claims: seq<Claim>, kind: MeasureKind)
    requires forall c | c in claims :: c.cell.unknownContributions == 0
    ensures AfterClaims(claims, kind).unknown == SumOf(multiset(claims), Unattributable(kind)) % WORD
  {
    if claims == [] {
      assert multiset(claims) == multiset{};
    } else {
      var n := |claims| - 1;
      SplitLast(claims);
      UnknownClaims(claims[..n], kind);
      SumOfAdd(multiset(claims[..n]), claims[n], Unattributable(kind));
      OneMoreUnknown(AfterClaims(claims[..n], kind), SumOf(multiset(claims[..n]), Unattributable(kind)), claims[n], kind,
                     SumOf(multiset(claims), Unattributable(kind)));
    }
  }

  lemma OneMoreUnknown(t: Tally, count: nat, c: Claim, kind: MeasureKind, next: nat)
    requires t.unknown == count % WORD && c.cell.unknownContributions == 0 && next == count + Unattributable(kind)(c)
    ensures (if c.cell.kind == kind then TakeClaim(t, c) else t).unknown == next % WORD
  {
    WrapsOn(count, 1);
    Remainder(count);
    assert WrapAdd(t.unknown, 0) == t.unknown;
  }

  /** What a summary leaves unknown: the claims that could not be classified, wrapped, and what
      the domains of the measure hold unknown, saturated. */
  lemma UnknownExactly(claims: seq<Claim>, domains: seq<Domain>, kind: MeasureKind)
    requires forall c | c in claims :: c.cell.unknownContributions == 0
    ensures var sum := SumOf(multiset(claims), Unattributable(kind)) % WORD + SumOf(multiset(domains), UnknownOfKind(kind));
      SummaryOf(claims, domains, kind).unknown == if sum <= U64_MAX then sum else U64_MAX
  {
    UnknownClaims(claims, kind);
    UnknownsAdded(AfterClaims(claims, kind), domains, kind);
  }

  /** A measure is covered wholly when some work of it is claimed, nothing of it is unknown and
      every domain of it is consistent; partly when one of the last two fails; and not at all
      when no work of it is claimed. */
  lemma CoverageExactly(claims: seq<Claim>, domains: seq<Domain>, kind: MeasureKind)
    requires forall c | c in claims :: c.cell.unknownContributions == 0
    ensures var s := SummaryOf(claims, domains, kind);
      var settled := s.unknown == 0 && forall x | x in domains && x.key.kind == kind :: x.status == Consistent;
      && (s.coverage == UnknownCoverage <==> s.denominator == 0)
      && (s.coverage == KnownCoverage <==> s.denominator > 0 && settled)
      && (s.coverage == PartialCoverage <==> s.denominator > 0 && !settled)
  {
    TallyOfClaims(claims, kind);
    CompleteExactly(AfterClaims(claims, kind), domains, kind);
  }

  // ---- figures -------------------------------------------------------------

  /** A measure that is not determinate has no figures. For one that is, the per-mille figure is
      its share of useful work, rounded half up, exactly when the scaled sum fits 64 bits. */
  lemma FiguresReported(claims: seq<Claim>, domains: seq<Domain>, kind: MeasureKind)
    ensures var s := SummaryOf(claims, domains, kind);
      && s.kind == kind
      && (!s.determinate ==> s.ratioNumerator == s.ratioDenominator == s.permille == 0)
      && (s.determinate ==> 0 < s.denominator && s.useful <= s.denominator)
      && (s.determinate ==>
            (s.permille == (s.useful * 1000 + s.denominator / 2) / s.denominator
             <==> s.useful * 1000 + s.denominator / 2 < 0x1_0000_0000_0000_0000))
  {
    var s := SummaryOf(claims, domains, kind);
    if s.determinate {
      PermilleExactly(s.useful, s.denominator);
    }
  }
}
