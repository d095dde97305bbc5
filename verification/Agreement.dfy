/** When revisions agree: with evidence in another order, and with copies of it delivered again. */
module Agreement {

  import opened Common
  import opened Fabric
  import opened Evidence
  import opened Folds
  import opened Ordering
  import opened Derivation
  import opened DerivationTheorems
  import opened DerivationRun
  import opened Claims
  import opened Conservation
  import opened Efficiency
  import opened Revision

  // ---- lists with distinct keys --------------------------------------------

  ghost predicate DistinctKeys<V, K>(s: seq<V>, key: V -> K) {
    forall i, j | 0 <= i < j < |s| :: key(s[i]) != key(s[j])
  }

  ghost function KeysIn<V, K>(s: seq<V>, key: V -> K): set<K> {
    set v | v in s :: key(v)
  }

  /** Lists of distinct keys are equal up to order when they have the same keys and hold the
      same under each. */
  lemma SameUnderKeys<V, K>(s: seq<V>, t: seq<V>, key: V -> K)
    requires DistinctKeys(s, key) && DistinctKeys(t, key) && KeysIn(s, key) == KeysIn(t, key)
    requires forall v, w | v in s && w in t && key(v) == key(w) :: v == w
    ensures multiset(s) == multiset(t)
  {
    ContainedUnderKeys(s, t, key);
    ContainedUnderKeys(t, s, key);
    assert Elements(s) == Elements(t);
    DistinctListing(s);
    DistinctListing(t);
  }

  lemma ContainedUnderKeys<V, K>(s: seq<V>, t: seq<V>, key: V -> K)
    requires KeysIn(s, key) == KeysIn(t, key)
    requires forall v, w | v in s && w in t && key(v) == key(w) :: v == w
    ensures forall v | v in s :: v in t
  {
    forall v | v in s ensures v in t {
      assert key(v) in KeysIn(t, key);
      var w :| w in t && key(w) == key(v);
    }
  }

  // ---- folds that do not mind the order ------------------------------------

  function FoldAll<T, V>(t: T, s: seq<V>, f: (T, V) -> T): T {
    if s == [] then t else f(FoldAll(t, s[..|s| - 1], f), s[|s| - 1])
  }

  ghost predicate Commutes<T(!new), V(!new)>(f: (T, V) -> T) {
    forall t, a, b :: f(f(t, a), b) == f(f(t, b), a)
  }

  lemma FoldLast<T, V>(t: T, s: seq<V>, v: V, f: (T, V) -> T)
    ensures FoldAll(t, s + [v], f) == f(FoldAll(t, s, f), v)
  {
    assert (s + [v])[..|s|] == s;
  }

  lemma {:induction false} FoldMoved<T(!new), V(!new)>(t: T, a: seq<V>, v: V, b: seq<V>, f: (T, V) -> T)
    requires Commutes(f)
    ensures FoldAll(t, a + [v] + b, f) == f(FoldAll(t, a + b, f), v)
  {
    if b == [] {
      assert a + [v] + b == a + [v] && a + b == a;
      FoldLast(t, a, v, f);
    } else {
      var n := |b| - 1;
      assert a + [v] + b == (a + [v] + b[..n]) + [b[n]] && a + b == (a + b[..n]) + [b[n]];
      FoldLast(t, a + [v] + b[..n], b[n], f);
      FoldLast(t, a + b[..n], b[n], f);
      FoldMoved(t, a, v, b[..n], f);
    }
  }

  lemma {:induction false} FoldPermuted<T(!new), V(!new)>(t: T, s: seq<V>, s': seq<V>, f: (T, V) -> T)
    requires Commutes(f) && multiset(s) == multiset(s')
    ensures FoldAll(t, s, f) == FoldAll(t, s', f)
    decreases |s'|
  {
    if s' == [] {
      assert |multiset(s)| == 0;
    } else {
      var n := |s'| - 1;
      var v := s'[n];
      SplitLast(s');
      assert v in multiset(s);
      var i :| 0 <= i < |s| && s[i] == v;
      var a, b := s[..i], s[i + 1..];
      assert s == a + [v] + b;
      assert multiset(a + b) == multiset(s) - multiset{v} == multiset(s'[..n]);
      FoldPermuted(t, a + b, s'[..n], f);
      FoldMoved(t, a, v, b, f);
    }
  }

  // ---- summaries -----------------------------------------------------------

  function ClaimStep(kind: MeasureKind): (Tally, Claim) -> Tally {
    (t: Tally, c: Claim) => if c.cell.kind == kind then TakeClaim(t, c) else t
  }

  function DomainStep(kind: MeasureKind): (Tally, Domain) -> Tally {
    (t: Tally, x: Domain) => if x.key.kind == kind then TakeDomain(t, x) else t
  }

  lemma {:induction false} ClaimsFold(claims: seq<Claim>, kind: MeasureKind)
    ensures AfterClaims(claims, kind) == FoldAll(FRESH_TALLY, claims, ClaimStep(kind))
  {
    if claims != [] {
      ClaimsFold(claims[..|claims| - 1], kind);
    }
  }

  lemma {:induction false} DomainsFold(t: Tally, domains: seq<Domain>, kind: MeasureKind)
    ensures AfterDomains(t, domains, kind) == FoldAll(t, domains, DomainStep(kind))
  {
    if domains != [] {
      DomainsFold(t, domains[..|domains| - 1], kind);
    }
  }

  /** A sum that takes an amount only where it belongs. */
  function AddWhere(here: bool, x: U64, amount: U64): U64 {
    if here then WrapAdd(x, amount) else x
  }

  lemma AddsCommute(p: bool, q: bool, x: U64, a: U64, b: U64)
    ensures AddWhere(q, AddWhere(p, x, a), b) == AddWhere(p, AddWhere(q, x, b), a)
  {
    WrapsOn(x + a, b);
    WrapsOn(x + b, a);
  }

  lemma ClaimStepsCommute(kind: MeasureKind)
    ensures Commutes(ClaimStep(kind))
  {
    forall t, a, b ensures ClaimStep(kind)(ClaimStep(kind)(t, a), b) == ClaimStep(kind)(ClaimStep(kind)(t, b), a) {
      TwoClaims(t, a, b);
    }
  }

  lemma TwoClaims(t: Tally, a: Claim, b: Claim)
    ensures TakeClaim(TakeClaim(t, a), b) == TakeClaim(TakeClaim(t, b), a)
  {
    var (x, y) := (a.cell.knownTotal, b.cell.knownTotal);
    var (u, v) := (UsefulnessOf(a.key.category), UsefulnessOf(b.key.category));
    TakenTwice(t, a, b);
    TakenTwice(t, b, a);
    AddsCommute(u == Useful, v == Useful, t.useful, x, y);
    AddsCommute(u == NecessaryOverhead, v == NecessaryOverhead, t.overhead, x, y);
    AddsCommute(u == Avoidable, v == Avoidable, t.avoidable, x, y);
    AddsCommute(u == Failed, v == Failed, t.failed, x, y);
    UnknownsWrap(t.unknown, a, b);
  }

  function TallyWith(t: Tally, u: Usefulness, x: U64, v: Usefulness, y: U64): Tally {
    t.(useful := AddWhere(v == Useful, AddWhere(u == Useful, t.useful, x), y),
       overhead := AddWhere(v == NecessaryOverhead, AddWhere(u == NecessaryOverhead, t.overhead, x), y),
       avoidable := AddWhere(v == Avoidable, AddWhere(u == Avoidable, t.avoidable, x), y),
       failed := AddWhere(v == Failed, AddWhere(u == Failed, t.failed, x), y))
  }

  lemma TakenTwice(t: Tally, a: Claim, b: Claim)
    ensures TakeClaim(TakeClaim(t, a), b) ==
      TallyWith(t, UsefulnessOf(a.key.category), a.cell.knownTotal, UsefulnessOf(b.key.category), b.cell.knownTotal).(
        unknown := UnknownAfter(UnknownAfter(t.unknown, a), b),
        determinate := t.determinate && a.key.category != UnknownUnattributed && b.key.category != UnknownUnattributed)
  {
    TakenOnce(t, a);
    TakenOnce(TakeClaim(t, a), b);
  }

  lemma TakenOnce(t: Tally, c: Claim)
    ensures var u := UsefulnessOf(c.key.category);
      TakeClaim(t, c) == t.(
        useful := AddWhere(u == Useful, t.useful, c.cell.knownTotal),
        overhead := AddWhere(u == NecessaryOverhead, t.overhead, c.cell.knownTotal),
        avoidable := AddWhere(u == Avoidable, t.avoidable, c.cell.knownTotal),
        failed := AddWhere(u == Failed, t.failed, c.cell.knownTotal),
        unknown := UnknownAfter(t.unknown, c),
        determinate := t.determinate && c.key.category != UnknownUnattributed)
  {
  }

  function UnknownAfter(unknown: U64, c: Claim): U64 {
    var u := WrapAdd(unknown, c.cell.unknownContributions);
    if c.key.category == UnknownUnattributed then WrapAdd(u, 1) else u
  }

  lemma UnknownsWrap(unknown: U64, a: Claim, b: Claim)
    ensures UnknownAfter(UnknownAfter(unknown, a), b) == UnknownAfter(UnknownAfter(unknown, b), a)
  {
    var x, y := a.cell.unknownContributions, b.cell.unknownContributions;
    var p := if a.key.category == UnknownUnattributed then 1 else 0;
    var q := if b.key.category == UnknownUnattributed then 1 else 0;
    AddedTo(unknown, x, p, a);
    AddedTo(unknown, y, q, b);
    WrapsOn(unknown + x + p, y);
    WrapsOn(unknown + x + p + y, q);
    WrapsOn(unknown + y + q, x);
    WrapsOn(unknown + y + q + x, p);
  }

  lemma AddedTo(unknown: U64, x: U64, p: U64, c: Claim)
    requires x == c.cell.unknownContributions && p == (if c.key.category == UnknownUnattributed then 1 else 0)
    ensures UnknownAfter(unknown, c) == (unknown + x + p) % WORD
  {
    WrapsOn(unknown + x, p);
    Remainder(unknown + x);
  }

  lemma DomainStepsCommute(kind: MeasureKind)
    ensures Commutes(DomainStep(kind))
  {
    forall t, a, b ensures DomainStep(kind)(DomainStep(kind)(t, a), b) == DomainStep(kind)(DomainStep(kind)(t, b), a) {
      TwoDomains(t, a, b);
    }
  }

  lemma TwoDomains(t: Tally, a: Domain, b: Domain)
    ensures TakeDomain(TakeDomain(t, a), b) == TakeDomain(TakeDomain(t, b), a)
  {
  }

  /** A summary depends on its claims and domains, not on the order they are listed in. */
  lemma SummaryPermuted(
    claims: seq<Claim>, claims': seq<Claim>, domains: seq<Domain>, domains': seq<Domain>, kind: MeasureKind)
    requires multiset(claims) == multiset(claims') && multiset(domains) == multiset(domains')
    ensures SummaryOf(claims, domains, kind) == SummaryOf(claims', domains', kind)
  {
    TallyPermuted(claims, claims', kind);
    var t := AfterClaims(claims, kind);
    DomainStepsCommute(kind);
    DomainsFold(t, domains, kind);
    DomainsFold(t, domains', kind);
    FoldPermuted(t, domains, domains', DomainStep(kind));
  }

  lemma TallyPermuted(claims: seq<Claim>, claims': seq<Claim>, kind: MeasureKind)
    requires multiset(claims) == multiset(claims')
    ensures AfterClaims(claims, kind) == AfterClaims(claims', kind)
  {
    ClaimStepsCommute(kind);
    ClaimsFold(claims, kind);
    ClaimsFold(claims', kind);
    FoldPermuted(FRESH_TALLY, claims, claims', ClaimStep(kind));
  }

  // ---- the folds -----------------------------------------------------------

  function KeyOfClaim(c: Claim): ClaimKey { c.key }

  function KeyOfDomain(x: Domain): DomainKey { x.key }

  lemma SameClaims(xs: multiset<Contribution>, claims: seq<Claim>, claims': seq<Claim>)
    requires IsFold(xs, claims) && IsFold(xs, claims')
    ensures multiset(claims) == multiset(claims')
  {
    assert KeysIn(claims, KeyOfClaim) == ClaimKeys(claims) && KeysIn(claims', KeyOfClaim) == ClaimKeys(claims');
    SameUnderKeys(claims, claims', KeyOfClaim);
  }

  lemma SameDomains(d: Taken, domains: seq<Domain>, domains': seq<Domain>)
    requires IsConservation(d, domains) && IsConservation(d, domains')
    ensures multiset(domains) == multiset(domains')
  {
    forall x, y | x in domains && y in domains' && x.key == y.key ensures x == y {
      OneDomain(d, x, y);
    }
    assert KeysIn(domains, KeyOfDomain) == DomainKeys(d) && KeysIn(domains', KeyOfDomain) == DomainKeys(d);
    SameUnderKeys(domains, domains', KeyOfDomain);
  }

  /** What is held for a key determines its domain. */
  lemma OneDomain(d: Taken, x: Domain, y: Domain)
    requires IsConserved(d, x) && IsConserved(d, y) && x.key == y.key
    ensures x == y
  {
  }

  // ---- whole revisions -----------------------------------------------------

  /** Equal up to the order of lists. */
  ghost predicate Agree(r: Figures, s: Figures) {
    && r.derived.contributions == s.derived.contributions
    && multiset(r.claims) == multiset(s.claims)
    && multiset(r.folded.domains) == multiset(s.folded.domains)
    && (forall u :: u in r.folded.findings <==> u in s.folded.findings)
    && r.folded.hasResidual == s.folded.hasResidual && r.folded.hasExcess == s.folded.hasExcess
    && r.folded.complete == s.folded.complete
    && r.efficiency == s.efficiency
  }

  /** Whatever order evidence is stored in, the revisions derived from it agree in every claim,
      domain, finding and summary. */
  lemma RevisionsAgree(
    ctx: Context, evidence: seq<Observation>, shuffled: seq<Observation>, period: Window, r: Figures, s: Figures)
    requires multiset(evidence) == multiset(shuffled)
    requires IsRevision(ctx, Considered(multiset(evidence), period), r)
    requires IsRevision(ctx, Considered(multiset(shuffled), period), s)
    ensures Agree(r, s)
  {
    var c := Considered(multiset(evidence), period);
    FoldedFrom(ctx, c, r);
    FoldedFrom(ctx, c, s);
    OrderIndependence(ctx, evidence, shuffled, period, r.derived, s.derived);
    SameClaims(HeldFor(ctx, c).xs, r.claims, s.claims);
    SameDomains(HeldFor(ctx, c), r.folded.domains, s.folded.domains);
    SameOutcome(r.folded, s.folded, ctx.policy);
    SameSummaries(r, s);
  }

  lemma SameOutcome(f: Folded, g: Folded, policy: Policy)
    requires StatesOutcome(f, policy) && StatesOutcome(g, policy) && multiset(f.domains) == multiset(g.domains)
    ensures forall u :: u in f.findings <==> u in g.findings
    ensures f.hasResidual == g.hasResidual && f.hasExcess == g.hasExcess && f.complete == g.complete
  {
    assert forall x :: x in f.domains <==> x in multiset(f.domains);
    assert forall x :: x in g.domains <==> x in multiset(g.domains);
  }

  lemma SameSummaries(r: Figures, s: Figures)
    requires AreSummaries(r.efficiency, r.claims, r.folded.domains) && AreSummaries(s.efficiency, s.claims, s.folded.domains)
    requires multiset(r.claims) == multiset(s.claims) && multiset(r.folded.domains) == multiset(s.folded.domains)
    ensures r.efficiency == s.efficiency
  {
    forall i | 0 <= i < |KINDS| ensures r.efficiency[i] == s.efficiency[i] {
      SummaryPermuted(r.claims, s.claims, r.folded.domains, s.folded.domains, KINDS[i]);
    }
  }

  // ---- redelivery ----------------------------------------------------------

  /** Two domains that differ in the number of unknown contributions alone. */
  predicate SameButUnknown(x: Domain, y: Domain) {
    y == x.(unknownContributions := y.unknownContributions)
  }

  /** Two summaries with the same sums. */
  predicate SameSums(s: Summary, t: Summary) {
    && s.useful == t.useful && s.overhead == t.overhead && s.avoidable == t.avoidable && s.failed == t.failed
    && s.denominator == t.denominator
  }

  /** Copies delivered again under larger identities change no claim, no sum of any measure,
      and of a domain only how much is unknown; a domain with anything counted or observed
      stays. */
  lemma RedeliveryKeepsAmounts(ctx: Context, c: Records, extra: Records, r: Figures, s: Figures)
    requires Redelivers(c, extra) && IsRevision(ctx, c, r) && IsRevision(ctx, c + extra, s)
    ensures multiset(r.claims) == multiset(s.claims)
    ensures forall x, y | x in r.folded.domains && y in s.folded.domains && x.key == y.key :: SameButUnknown(x, y)
    ensures forall k | k in Substantial(HeldFor(ctx, c)) ::
      (exists x | x in r.folded.domains :: x.key == k) && (exists y | y in s.folded.domains :: y.key == k)
    ensures forall kind ::
      SameSums(SummaryOf(r.claims, r.folded.domains, kind), SummaryOf(s.claims, s.folded.domains, kind))
  {
    HeldAgain(ctx, c, extra);
    FoldedFrom(ctx, c, r);
    FoldedFrom(ctx, c + extra, s);
    FoldsKeep(HeldFor(ctx, c), HeldFor(ctx, c + extra), r, s);
  }

  lemma HeldAgain(ctx: Context, c: Records, extra: Records)
    requires Redelivers(c, extra)
    ensures HeldFor(ctx, c).xs == HeldFor(ctx, c + extra).xs && HeldFor(ctx, c).ts == HeldFor(ctx, c + extra).ts
  {
    RedeliveryInvariance(ctx, c, extra);
  }

  /** What two folds of the same contributions and totals share, whatever is unknown. */
  lemma FoldsKeep(d: Taken, e: Taken, r: Figures, s: Figures)
    requires d.xs == e.xs && d.ts == e.ts
    requires IsConservation(d, r.folded.domains) && IsFold(d.xs, r.claims)
    requires IsConservation(e, s.folded.domains) && IsFold(e.xs, s.claims)
    ensures multiset(r.claims) == multiset(s.claims)
    ensures forall x, y | x in r.folded.domains && y in s.folded.domains && x.key == y.key :: SameButUnknown(x, y)
    ensures forall k | k in Substantial(d) ::
      (exists x | x in r.folded.domains :: x.key == k) && (exists y | y in s.folded.domains :: y.key == k)
    ensures forall kind ::
      SameSums(SummaryOf(r.claims, r.folded.domains, kind), SummaryOf(s.claims, s.folded.domains, kind))
  {
    SameClaims(d.xs, r.claims, s.claims);
    DomainsKeep(d, e, r.folded.domains, s.folded.domains);
    forall kind ensures
        SameSums(SummaryOf(r.claims, r.folded.domains, kind), SummaryOf(s.claims, s.folded.domains, kind))
    {
      TallyPermuted(r.claims, s.claims, kind);
      SumsKeep(AfterClaims(r.claims, kind), r.folded.domains, kind);
      SumsKeep(AfterClaims(s.claims, kind), s.folded.domains, kind);
    }
  }

  /** The keys something is counted or observed under. */
  ghost function Substantial(d: Taken): set<DomainKey> {
    KeysUnder(d.xs, DomainOf) + KeysUnder(d.ts, TotalDomain)
  }

  lemma DomainsKeep(d: Taken, e: Taken, domains: seq<Domain>, domains': seq<Domain>)
    requires d.xs == e.xs && d.ts == e.ts && IsConservation(d, domains) && IsConservation(e, domains')
    ensures forall x, y | x in domains && y in domains' && x.key == y.key :: SameButUnknown(x, y)
    ensures forall k | k in Substantial(d) :: (exists x | x in domains :: x.key == k) && (exists y | y in domains' :: y.key == k)
  {
    forall k | k in Substantial(d) ensures (exists x | x in domains :: x.key == k) && (exists y | y in domains' :: y.key == k) {
      assert k in DomainKeys(d) && k in DomainKeys(e);
      assert k in KeysIn(domains, KeyOfDomain) && k in KeysIn(domains', KeyOfDomain);
    }
  }

  /** Domains do not touch the sums of a measure. */
  lemma {:induction false} SumsKeep(t: Tally, domains: seq<Domain>, kind: MeasureKind)
    ensures var u := AfterDomains(t, domains, kind);
      u.useful == t.useful && u.overhead == t.overhead && u.avoidable == t.avoidable && u.failed == t.failed
  {
    if domains != [] {
      SumsKeep(t, domains[..|domains| - 1], kind);
    }
  }
}
