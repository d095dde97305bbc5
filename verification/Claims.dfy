/** Aggregate cells and the fold of contributions into claims. */
module Claims {

  import opened Common
  import opened Fabric
  import opened Evidence
  import opened Folds
  import opened Ordering
  import opened Derivation

  // ---- aggregate cells -----------------------------------------------------

  datatype AggregateCell = AggregateCell(
    kind: MeasureKind, knownTotal: U64, knownContributions: U64, unknownContributions: U64)

  function AddKnown(cell: AggregateCell, amount: U64): Result<AggregateCell, ErrorCode> {
    var total := AddChecked(cell.knownTotal, amount);
    var count := AddChecked(cell.knownContributions, 1);
    if total.None? || count.None? then Err(ArithmeticOverflow)
    else Ok(cell.(knownTotal := total.value, knownContributions := count.value))
  }

  function Merge(cell: AggregateCell, other: AggregateCell): Result<AggregateCell, ErrorCode> {
    if other.kind != cell.kind then Err(IncompatibleMeasureKind)
    else
      var total := AddChecked(cell.knownTotal, other.knownTotal);
      var known := AddChecked(cell.knownContributions, other.knownContributions);
      var unknown := AddChecked(cell.unknownContributions, other.unknownContributions);
      if total.None? || known.None? || unknown.None? then Err(ArithmeticOverflow)
      else Ok(AggregateCell(cell.kind, total.value, known.value, unknown.value))
  }

  // ---- sums over contributions ---------------------------------------------

  function AmountOn(k: ClaimKey): Contribution -> nat {
    (x: Contribution) => if x.key == k then x.amount else 0
  }

  function CountOn(k: ClaimKey): Contribution -> nat {
    (x: Contribution) => if x.key == k then 1 else 0
  }

  function StaleOn(k: ClaimKey): Contribution -> nat {
    (x: Contribution) => if x.key == k && x.stale then 1 else 0
  }

  /** Everything contributed to one accounting cell. */
  ghost function KeyTotal(xs: multiset<Contribution>, k: ClaimKey): nat {
    SumOf(xs, AmountOn(k))
  }

  ghost function KeyCount(xs: multiset<Contribution>, k: ClaimKey): nat {
    SumOf(xs, CountOn(k))
  }

  datatype Claim = Claim(key: ClaimKey, cell: AggregateCell, staleIncluded: bool)

  ghost predicate Overflows(xs: multiset<Contribution>, k: ClaimKey) {
    KeyTotal(xs, k) > U64_MAX || KeyCount(xs, k) > U64_MAX
  }

  ghost predicate IsClaim(xs: multiset<Contribution>, claim: Claim) {
    && claim.cell.kind == claim.key.kind
    && claim.cell.knownTotal == KeyTotal(xs, claim.key)
    && claim.cell.knownContributions == KeyCount(xs, claim.key)
    && claim.cell.unknownContributions == 0
    && (claim.staleIncluded <==> SumOf(xs, StaleOn(claim.key)) > 0)
  }

  function Empty(k: ClaimKey): Claim {
    Claim(k, AggregateCell(k.kind, 0, 0, 0), false)
  }

  lemma NothingOn(k: ClaimKey)
    ensures IsClaim(multiset{}, Empty(k))
  {
  }

  lemma OneMore(xs: multiset<Contribution>, x: Contribution, k: ClaimKey)
    ensures KeyTotal(xs + multiset{x}, k) == KeyTotal(xs, k) + (if x.key == k then x.amount else 0)
    ensures KeyCount(xs + multiset{x}, k) == KeyCount(xs, k) + (if x.key == k then 1 else 0)
    ensures SumOf(xs + multiset{x}, StaleOn(k)) == SumOf(xs, StaleOn(k)) + (if x.key == k && x.stale then 1 else 0)
  {
    SumOfAdd(xs, x, AmountOn(k));
    SumOfAdd(xs, x, CountOn(k));
    SumOfAdd(xs, x, StaleOn(k));
  }

  lemma PartOverflows(xs: seq<Contribution>, i: nat, k: ClaimKey)
    requires i <= |xs| && Overflows(multiset(xs[..i]), k)
    ensures Overflows(multiset(xs), k)
  {
    assert xs == xs[..i] + xs[i..];
    SumOfUnion(multiset(xs[..i]), multiset(xs[i..]), AmountOn(k));
    SumOfUnion(multiset(xs[..i]), multiset(xs[i..]), CountOn(k));
  }

  ghost predicate AreCells(xs: multiset<Contribution>, cells: map<ClaimKey, Claim>) {
    && (forall k :: k in cells <==> exists x | x in xs :: x.key == k)
    && (forall k | k in cells :: cells[k].key == k && IsClaim(xs, cells[k]))
    && (forall k | k !in cells :: IsClaim(xs, Empty(k)))
  }

  lemma StillCells(xs: multiset<Contribution>, cells: map<ClaimKey, Claim>, x: Contribution, claim: Claim)
    requires AreCells(xs, cells)
    requires claim.key == x.key && IsClaim(xs + multiset{x}, claim)
    ensures AreCells(xs + multiset{x}, cells[x.key := claim])
  {
    var ys, after := xs + multiset{x}, cells[x.key := claim];
    forall k ensures k in after <==> exists y | y in ys :: y.key == k {
      if k == x.key {
        assert x in ys;
      } else if k in cells {
        var y :| y in xs && y.key == k;
        assert y in ys;
      }
    }
    forall k | k != x.key ensures k in cells ==> IsClaim(ys, cells[k])
                          ensures k !in cells ==> IsClaim(ys, Empty(k))
    {
      OneMore(xs, x, k);
    }
  }

  method AddToCells(cells: map<ClaimKey, Claim>, x: Contribution, ghost xs: multiset<Contribution>)
    returns (r: Result<map<ClaimKey, Claim>, ErrorCode>)
    requires AreCells(xs, cells)
    ensures r.Ok? ==> AreCells(xs + multiset{x}, r.value)
    ensures r.Err? ==> r.error == ArithmeticOverflow && Overflows(xs + multiset{x}, x.key)
  {
    var claim := if x.key in cells then cells[x.key] else Empty(x.key);
    OneMore(xs, x, x.key);
    var cell := AddKnown(claim.cell, x.amount);
    if cell.Err? {
      return Err(cell.error);
    }
    claim := Claim(x.key, cell.value, claim.staleIncluded || x.stale);
    StillCells(xs, cells, x, claim);
    return Ok(cells[x.key := claim]);
  }

  ghost function KeysIn(xs: multiset<Contribution>): set<ClaimKey> {
    set x | x in xs :: x.key
  }

  ghost function ClaimKeys(claims: seq<Claim>): set<ClaimKey> {
    set claim | claim in claims :: claim.key
  }

  /** The claims fold the contributions: one exact claim per cell that has any. */
  ghost predicate IsFold(xs: multiset<Contribution>, claims: seq<Claim>) {
    && ClaimKeys(claims) == KeysIn(xs)
    && (forall claim | claim in claims :: IsClaim(xs, claim))
    && (forall i, j | 0 <= i < j < |claims| :: claims[i].key != claims[j].key)
  }

  /** Folding succeeds exactly when no accounting cell overflows; each claim then
      carries the exact sum and number of the contributions to its cell. */
  method FoldClaims(contributions: seq<Contribution>) returns (r: Result<seq<Claim>, ErrorCode>)
    ensures r.Err? <==> exists k :: Overflows(multiset(contributions), k)
    ensures r.Err? ==> r.error == ArithmeticOverflow
    ensures r.Ok? ==> IsFold(multiset(contributions), r.value)
  {
    var cells: map<ClaimKey, Claim> := map[];
    forall k ensures IsClaim(multiset(contributions[..0]), Empty(k)) {
      NothingOn(k);
    }
    for i := 0 to |contributions|
      invariant AreCells(multiset(contributions[..i]), cells)
    {
      TakeSucc(contributions, i);
      var next := AddToCells(cells, contributions[i], multiset(contributions[..i]));
      if next.Err? {
        PartOverflows(contributions, i + 1, contributions[i].key);
        return Err(next.error);
      }
      cells := next.value;
    }
    TakeAll(contributions);
    NoOverflow(multiset(contributions), cells);
    var claims := ListClaims(cells, multiset(contributions));
    return Ok(claims);
  }

  lemma NoOverflow(xs: multiset<Contribution>, cells: map<ClaimKey, Claim>)
    requires AreCells(xs, cells)
    ensures !exists k :: Overflows(xs, k)
  {
    forall k ensures !Overflows(xs, k) {
      var claim := if k in cells then cells[k] else Empty(k);
      assert IsClaim(xs, claim);
    }
  }

  method ListClaims(cells: map<ClaimKey, Claim>, ghost xs: multiset<Contribution>) returns (claims: seq<Claim>)
    requires AreCells(xs, cells)
    ensures IsFold(xs, claims)
  {
    var keys := Listing(cells.Keys);
    ListingMembers(keys, cells.Keys);
    claims := [];
    for i := 0 to |keys|
      invariant |claims| == i && forall k | 0 <= k < i :: claims[k] == cells[keys[k]]
    {
      claims := claims + [cells[keys[i]]];
    }
    ListedClaims(cells, xs, keys, claims);
  }

  lemma ListedClaims(cells: map<ClaimKey, Claim>, xs: multiset<Contribution>, keys: seq<ClaimKey>, claims: seq<Claim>)
    requires AreCells(xs, cells)
    requires Distinct(keys) && forall k :: k in keys <==> k in cells
    requires |claims| == |keys| && forall i | 0 <= i < |keys| :: claims[i] == cells[keys[i]]
    ensures IsFold(xs, claims)
  {
    forall i | 0 <= i < |keys| ensures claims[i].key == keys[i] && IsClaim(xs, claims[i]) {
      assert keys[i] in cells;
    }
    forall k ensures k in ClaimKeys(claims) <==> k in KeysIn(xs) {
      if k in cells {
        var i :| 0 <= i < |keys| && keys[i] == k;
        assert claims[i] in claims;
      }
    }
  }
}
