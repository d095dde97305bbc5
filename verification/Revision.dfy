/** One derived revision: derivation, conservation, claims and efficiency together. */
module Revision {

  import opened Common
  import opened Fabric
  import opened Evidence
  import opened Folds
  import opened Ordering
  import opened Derivation
  import opened DerivationTheorems
  import opened DerivationRun
  import opened Claims
  import opened Conservation
  import opened Efficiency

  datatype Figures = Figures(derived: Derived, folded: Folded, claims: seq<Claim>, efficiency: seq<Summary>)

  /** The content of a revision of a period that considers the records c. */
  ghost predicate IsRevision(ctx: Context, c: Records, r: Figures) {
    && IsDerivation(ctx, c, r.derived)
    && IsConservation(TakenFrom(r.derived), r.folded.domains)
    && StatesOutcome(r.folded, ctx.policy)
    && IsFold(multiset(r.derived.contributions), r.claims)
    && AreSummaries(r.efficiency, r.claims, r.folded.domains)
  }

  /** One summary for each measure. */
  ghost predicate AreSummaries(efficiency: seq<Summary>, claims: seq<Claim>, domains: seq<Domain>) {
    && |efficiency| == |KINDS|
    && forall i | 0 <= i < |KINDS| :: efficiency[i] == SummaryOf(claims, domains, KINDS[i])
  }

  /** What conservation is folded from. */
  ghost function HeldFor(ctx: Context, c: Records): Taken {
    Taken(multiset(Contributions(ctx, c)), multiset(Unknowns(ctx, c)), multiset(KeptTotals(ctx, c)))
  }

  ghost predicate ClaimsTooLarge(ctx: Context, c: Records) {
    exists k :: Overflows(multiset(Contributions(ctx, c)), k)
  }

  /** No strict policy refuses the records, and every sum of theirs fits. */
  ghost predicate Derivable(ctx: Context, c: Records) {
    && !StrictlyConflicting(ctx, c)
    && !TooLarge(HeldFor(ctx, c)) && !PolicyRefuses(HeldFor(ctx, c), ctx.policy)
    && !ClaimsTooLarge(ctx, c)
  }

  /** Why the records cannot be derived: the first step that fails says so. */
  ghost predicate FailsWith(ctx: Context, c: Records, error: ErrorCode) {
    if StrictlyConflicting(ctx, c) then error == ConflictingEvidence
    else if TooLarge(HeldFor(ctx, c)) then error == ArithmeticOverflow
    else if PolicyRefuses(HeldFor(ctx, c), ctx.policy) then RefusedWith(HeldFor(ctx, c), ctx.policy, error)
    else ClaimsTooLarge(ctx, c) && error == ArithmeticOverflow
  }

  method Derive(ctx: Context, period: Window, observations: seq<Observation>) returns (r: Result<Figures, ErrorCode>)
    ensures r.Ok? <==> Derivable(ctx, Considered(multiset(observations), period))
    ensures r.Ok? ==> IsRevision(ctx, Considered(multiset(observations), period), r.value)
    ensures r.Err? ==> FailsWith(ctx, Considered(multiset(observations), period), r.error)
  {
    var derived := RunDerivation(ctx, period, observations);
    if derived.Err? {
      return Err(derived.error);
    }
    var folded := FoldConservation(derived.value, ctx.policy);
    if folded.Err? {
      return Err(folded.error);
    }
    var claims := FoldClaims(derived.value.contributions);
    if claims.Err? {
      return Err(claims.error);
    }
    var efficiency := FoldEfficiency(claims.value, folded.value.domains);
    r := Ok(Figures(derived.value, folded.value, claims.value, efficiency));
  }

  /** What the folds of a revision were made from. */
  lemma FoldedFrom(ctx: Context, c: Records, r: Figures)
    requires IsRevision(ctx, c, r)
    ensures TakenFrom(r.derived) == HeldFor(ctx, c)
    ensures IsConservation(HeldFor(ctx, c), r.folded.domains) && IsFold(HeldFor(ctx, c).xs, r.claims)
  {
  }

  lemma FirstSummary(r: Figures)
    requires AreSummaries(r.efficiency, r.claims, r.folded.domains)
    ensures |r.efficiency| == |KINDS| && r.efficiency[0] == SummaryOf(r.claims, r.folded.domains, WireBytes)
  {
    assert KINDS[0] == WireBytes;
  }

  // ---- no efficiency from missing evidence ---------------------------------

  lemma UnknownUnsettles(d: Derived, domains: seq<Domain>, u: UnknownEntry)
    requires IsConservation(TakenFrom(d), domains) && u in d.unknowns && u.count > 0
    ensures exists x | x in domains :: x.key.kind == u.kind && !Settles(x)
  {
    var t, k := TakenFrom(d), DomainOfUnknown(u);
    assert u in t.us;
    assert k in KeysUnder(t.us, DomainOfUnknown);
    assert k in (set x | x in domains :: x.key);
    var x :| x in domains && x.key == k;
    SumOfRemove(t.us, u, UnknownIn(k));
    assert IsConserved(t, x);
  }

  lemma DeterminateSettles(ctx: Context, c: Records, r: Figures, kind: MeasureKind, u: UnknownEntry)
    requires IsRevision(ctx, c, r) && SummaryOf(r.claims, r.folded.domains, kind).determinate
    requires u in Unknowns(ctx, c) && u.count > 0
    ensures u.kind != kind
  {
    ClaimsHaveNoUnknowns(r.derived.contributions, r.claims);
    DeterminateExactly(r.claims, r.folded.domains, kind);
    assert u in multiset(r.derived.unknowns);
    UnknownUnsettles(r.derived, r.folded.domains, u);
  }

  lemma ClaimsHaveNoUnknowns(contributions: seq<Contribution>, claims: seq<Claim>)
    requires IsFold(multiset(contributions), claims)
    ensures forall claim | claim in claims :: claim.cell.unknownContributions == 0
  {
  }

  /** A determinate efficiency for a measure means that no considered record of that
      measure was rejected and no totals of it disagreed, so each record was counted,
      took part in a dispute the policy resolved, or is a total in agreement; and the
      denominator is the sum of every claim of the measure exactly when that sum fits
      64 bits. */
  lemma NoEfficiencyFromMissingEvidence(ctx: Context, c: Records, r: Figures, kind: MeasureKind)
    requires IsRevision(ctx, c, r)
    requires SummaryOf(r.claims, r.folded.domains, kind).determinate
    ensures forall x | x in Rejections(ctx, c) :: x.kind != kind
    ensures forall u | u in Disagreements(ctx, c) :: u.kind != kind
    ensures forall o | o in c && o.content.kind == kind :: HasItsPlace(ctx, c, o)
    ensures var s := SummaryOf(r.claims, r.folded.domains, kind);
      s.denominator == Claimed(r.claims, kind) <==> FitsU64(Claimed(r.claims, kind))
  {
    NothingRejected(ctx, c, r, kind);
    NoDisagreement(ctx, c, r, kind);
    forall o | o in c && o.content.kind == kind ensures HasItsPlace(ctx, c, o) {
      KeepsItsPlace(ctx, c, o);
    }
    ClaimsHaveNoUnknowns(r.derived.contributions, r.claims);
    DeterminateExactly(r.claims, r.folded.domains, kind);
    DenominatorExactly(r.claims, r.folded.domains, kind);
  }

  lemma NothingRejected(ctx: Context, c: Records, r: Figures, kind: MeasureKind)
    requires IsRevision(ctx, c, r) && SummaryOf(r.claims, r.folded.domains, kind).determinate
    ensures forall x | x in Rejections(ctx, c) :: x.kind != kind
  {
    forall x | x in Rejections(ctx, c) ensures x.kind != kind {
      assert UnknownOf(x) in Unknowns(ctx, c);
      DeterminateSettles(ctx, c, r, kind, UnknownOf(x));
    }
  }

  lemma NoDisagreement(ctx: Context, c: Records, r: Figures, kind: MeasureKind)
    requires IsRevision(ctx, c, r) && SummaryOf(r.claims, r.folded.domains, kind).determinate
    ensures forall u | u in Disagreements(ctx, c) :: u.kind != kind
  {
    forall u | u in Disagreements(ctx, c) ensures u.kind != kind {
      DisagreementCounts(ctx, c, u);
      DeterminateSettles(ctx, c, r, kind, u);
    }
  }

  /** A record that reached the result, other than by being rejected or disagreed with. */
  ghost predicate HasItsPlace(ctx: Context, c: Records, o: Observation) {
    || (o in Entries(ctx, c) && exists x | x in Contributions(ctx, c) :: x.evidence == o.id)
    || (o in Entries(ctx, c) && exists f | f in ResolvedConflicts(ctx, c) :: o.id in f.participants)
    || (o in Totals(ctx, c) && Agreed(TotalGroup(ctx, c, TotalKeyOf(ctx.topology)(o))))
  }

  lemma KeepsItsPlace(ctx: Context, c: Records, o: Observation)
    requires o in c
    requires forall x | x in Rejections(ctx, c) :: x.kind != o.content.kind
    requires forall u | u in Disagreements(ctx, c) :: u.kind != o.content.kind
    ensures HasItsPlace(ctx, c, o)
  {
    NothingDisappears(ctx, c, o);
    forall cause ensures Reject(o, cause) !in Rejections(ctx, c) {
      assert Reject(o, cause).kind == o.content.kind;
    }
  }

  lemma DisagreementCounts(ctx: Context, c: Records, u: UnknownEntry)
    requires u in Disagreements(ctx, c)
    ensures u.count > 0
  {
    var tk :| tk in TotalKeys(ctx, c) && !Agreed(TotalGroup(ctx, c, tk))
      && u == DisagreementOf(tk, |TotalGroup(ctx, c, tk)|);
    var o :| o in Totals(ctx, c) && TotalKeyOf(ctx.topology)(o) == tk;
    assert o in TotalGroup(ctx, c, tk);
  }

  /** Two considered records of one content, whatever their identities, make the efficiency
      of their measure indeterminate: the suppressed copy stands in the unknown bucket. */
  lemma RedeliveryBlocksEfficiency(ctx: Context, c: Records, o: Observation, e: Observation, r: Figures)
    requires o in c && e in c && e != o && e.content == o.content
    requires IsRevision(ctx, c, r)
    ensures !SummaryOf(r.claims, r.folded.domains, o.content.kind).determinate
  {
    var later := if o.id < e.id then e else o;
    assert Excluded(c, later) by {
      assert later.id == (if later == o then e else o).id || Outranked<Id>(c, OriginOf, later);
    }
    var cause := ExcludedIsRejected(c, later);
    assert Reject(later, cause) in Rejections(ctx, c);
    assert UnknownOf(Reject(later, cause)) in Unknowns(ctx, c);
    if SummaryOf(r.claims, r.folded.domains, o.content.kind).determinate {
      DeterminateSettles(ctx, c, r, o.content.kind, UnknownOf(Reject(later, cause)));
    }
  }

  // ---- claims conserve contributions ---------------------------------------

  type Selection = ClaimKey -> bool

  /** An amount that counts only where its cell is chosen. */
  function Kept(chosen: Selection, k: ClaimKey, amount: nat): nat {
    if chosen(k) then amount else 0
  }

  function AmountUnder(keys: set<ClaimKey>, chosen: Selection): Contribution -> nat {
    (x: Contribution) => if x.key in keys then Kept(chosen, x.key, x.amount) else 0
  }

  function AmountWhere(chosen: Selection): Contribution -> nat {
    (x: Contribution) => Kept(chosen, x.key, x.amount)
  }

  function TotalWhere(chosen: Selection): Claim -> nat {
    (c: Claim) => Kept(chosen, c.key, c.cell.knownTotal)
  }

  lemma {:induction false} ClaimedUnder(xs: multiset<Contribution>, claims: seq<Claim>, chosen: Selection)
    requires forall claim | claim in claims :: IsClaim(xs, claim)
    requires forall i, j | 0 <= i < j < |claims| :: claims[i].key != claims[j].key
    ensures SumOf(multiset(claims), TotalWhere(chosen)) == SumOf(xs, AmountUnder(ClaimKeys(claims), chosen))
  {
    if claims == [] {
      SumOfZero(xs, AmountUnder(ClaimKeys([]), chosen));
    } else {
      var n := |claims| - 1;
      var claim := claims[n];
      ClaimedUnder(xs, claims[..n], chosen);
      SplitLast(claims);
      SumOfAdd(multiset(claims[..n]), claim, TotalWhere(chosen));
      KeysSplit(claims);
      OneKeyMore(xs, ClaimKeys(claims[..n]), claim.key, chosen);
    }
  }

  lemma KeysSplit(claims: seq<Claim>)
    requires claims != []
    requires forall i, j | 0 <= i < j < |claims| :: claims[i].key != claims[j].key
    ensures var n := |claims| - 1;
      ClaimKeys(claims) == ClaimKeys(claims[..n]) + {claims[n].key} && claims[n].key !in ClaimKeys(claims[..n])
  {
    var n := |claims| - 1;
    SplitLast(claims);
    assert forall claim :: claim in claims <==> claim in claims[..n] || claim == claims[n];
  }

  lemma OneKeyMore(xs: multiset<Contribution>, keys: set<ClaimKey>, k: ClaimKey, chosen: Selection)
    requires k !in keys
    ensures SumOf(xs, AmountUnder(keys + {k}, chosen)) == SumOf(xs, AmountUnder(keys, chosen)) + (if chosen(k) then KeyTotal(xs, k) else 0)
  {
    if chosen(k) {
      SumOfPlus(xs, AmountUnder(keys, chosen), AmountOn(k), AmountUnder(keys + {k}, chosen));
    } else {
      SumOfAgree(xs, AmountUnder(keys + {k}, chosen), AmountUnder(keys, chosen));
    }
  }

  /** Folding into claims neither loses nor invents work: over any selection of accounting
      cells the claims add up to the contributions. */
  lemma ClaimsConserve(contributions: seq<Contribution>, claims: seq<Claim>, chosen: Selection)
    requires IsFold(multiset(contributions), claims)
    ensures SumOf(multiset(claims), TotalWhere(chosen)) == SumOf(multiset(contributions), AmountWhere(chosen))
  {
    var xs := multiset(contributions);
    ClaimedUnder(xs, claims, chosen);
    forall x | x in xs ensures AmountUnder(ClaimKeys(claims), chosen)(x) == AmountWhere(chosen)(x) {
      assert x.key in KeysIn(xs);
    }
    SumOfAgree(xs, AmountUnder(ClaimKeys(claims), chosen), AmountWhere(chosen));
  }

  function OfKind(kind: MeasureKind): Selection {
    (k: ClaimKey) => k.kind == kind
  }

  function OfUse(kind: MeasureKind, usefulness: Usefulness): Selection {
    (k: ClaimKey) => k.kind == kind && UsefulnessOf(k.category) == usefulness
  }

  lemma CellsMatch(xs: multiset<Contribution>, claims: seq<Claim>)
    requires IsFold(xs, claims)
    ensures forall claim | claim in claims :: claim.cell.kind == claim.key.kind
  {
  }

  /** So are the sums of a measure. */
  lemma MeasureConserved(contributions: seq<Contribution>, claims: seq<Claim>, kind: MeasureKind)
    requires IsFold(multiset(contributions), claims)
    ensures Claimed(claims, kind) == SumOf(multiset(contributions), AmountWhere(OfKind(kind)))
  {
    ClaimsConserve(contributions, claims, OfKind(kind));
    CellsMatch(multiset(contributions), claims);
    SumOfAgree(multiset(claims), AmountIn(kind), TotalWhere(OfKind(kind)));
  }

  /** And of each use of it. */
  lemma UseConserved(contributions: seq<Contribution>, claims: seq<Claim>, kind: MeasureKind, usefulness: Usefulness)
    requires IsFold(multiset(contributions), claims)
    ensures ClaimedAs(claims, kind, usefulness) == SumOf(multiset(contributions), AmountWhere(OfUse(kind, usefulness)))
  {
    ClaimsConserve(contributions, claims, OfUse(kind, usefulness));
    CellsMatch(multiset(contributions), claims);
    SumOfAgree(multiset(claims), AmountAs(kind, usefulness), TotalWhere(OfUse(kind, usefulness)));
  }
}
