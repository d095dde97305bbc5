/** Resolution of an amount dispute inside one accounting cell and window. */
module Dispute {

  import opened Common
  import opened Fabric
  import opened Evidence
  import opened Folds
  import opened Ordering

  type ByAmount = map<nat, set<Id>>
  type Authority = map<Id, nat>

  datatype Outcome = Unresolved | Resolved(amount: nat)

  /** A source without a declared authority has the lowest rank. */
  function Rank(authority: Authority, s: Id): nat {
    if s in authority then authority[s] else 0
  }

  // ---- the order in which the sources are looked at ------------------------

  ghost function Least(s: set<nat>): (m: nat)
    requires s != {}
    ensures m in s && forall x | x in s :: m <= x
  {
    assert exists a | a in s :: forall x | x in s :: a <= x by {
      var low := LeastExists(s);
    }
    var low :| low in s && forall x | x in s :: low <= x;
    low
  }

  lemma {:induction false} LeastExists(s: set<nat>) returns (m: nat)
    requires s != {}
    ensures m in s && forall x | x in s :: m <= x
    decreases |s|
  {
    m :| m in s;
    var rest := s - {m};
    if rest != {} {
      var b := LeastExists(rest);
      var a := m;
      m := if a <= b then a else b;
      forall x | x in s ensures m <= x {
        if x != a { assert x in rest; }
      }
    }
  }

  ghost function AscendingOf(s: set<nat>): seq<nat>
    decreases |s|
  {
    if s == {} then [] else [Least(s)] + AscendingOf(s - {Least(s)})
  }

  lemma {:induction false} AscendingMembers(s: set<nat>)
    ensures forall x :: x in AscendingOf(s) <==> x in s
    decreases |s|
  {
    if s != {} {
      AscendingMembers(s - {Least(s)});
    }
  }

  lemma AscendingUnique(t: seq<nat>, s: set<nat>)
    requires multiset(t) == multiset(s)
    requires forall i, j | 0 <= i < j < |t| :: t[i] < t[j]
    ensures t == AscendingOf(s)
  {
    ListingMembers(t, s);
    AscendingMembers(s);
    AscendingAscends(s);
    AscendingSame(t, AscendingOf(s));
  }

  lemma {:induction false} AscendingAscends(s: set<nat>)
    ensures StrictlyAscending(AscendingOf(s))
    decreases |s|
  {
    if s != {} {
      var rest := s - {Least(s)};
      var (t, u) := (AscendingOf(rest), AscendingOf(s));
      AscendingAscends(rest);
      AscendingMembers(rest);
      forall i, j | 0 <= i < j < |u| ensures u[i] < u[j] {
        assert u[j] == t[j - 1] && t[j - 1] in t;
        if i > 0 { assert u[i] == t[i - 1]; }
      }
    }
  }

  /** The sources met when walking the listed amounts in order. */
  ghost function Walk(byAmount: ByAmount, amounts: seq<nat>): seq<Id>
    requires forall a | a in amounts :: a in byAmount
  {
    if amounts == [] then []
    else
      var n := |amounts| - 1;
      Walk(byAmount, amounts[..n]) + AscendingOf(byAmount[amounts[n]])
  }

  ghost function Reports(byAmount: ByAmount): seq<Id> {
    AscendingMembers(byAmount.Keys);
    Walk(byAmount, AscendingOf(byAmount.Keys))
  }

  ghost function SourcesOf(byAmount: ByAmount): set<Id> {
    set a, s | a in byAmount && s in byAmount[a] :: s
  }

  lemma {:induction false} WalkMembers(byAmount: ByAmount, amounts: seq<nat>)
    requires forall a | a in amounts :: a in byAmount
    ensures forall s :: s in Walk(byAmount, amounts) <==> exists a | a in amounts :: s in byAmount[a]
  {
    if amounts != [] {
      var n := |amounts| - 1;
      SplitLast(amounts);
      WalkMembers(byAmount, amounts[..n]);
      AscendingMembers(byAmount[amounts[n]]);
      assert forall a :: a in amounts <==> a in amounts[..n] || a == amounts[n];
    }
  }

  lemma ReportsMembers(byAmount: ByAmount)
    ensures forall s :: s in Reports(byAmount) <==> s in SourcesOf(byAmount)
  {
    AscendingMembers(byAmount.Keys);
    WalkMembers(byAmount, AscendingOf(byAmount.Keys));
  }

  // ---- the running preference ----------------------------------------------

  datatype Preference = NoneYet | Best(rank: nat, source: Id) | Tied

  function Consider(p: Preference, s: Id, authority: Authority, tieBreak: TieBreak): Preference {
    var rank := Rank(authority, s);
    match p
    case Tied => Tied
    case NoneYet => Best(rank, s)
    case Best(bestRank, best) =>
      if rank > bestRank then Best(rank, s)
      else if rank == bestRank && s != best then
        match tieBreak
        case LowestSourceIdWins => if s < best then Best(rank, s) else p
        case HighestSourceIdWins => if s > best then Best(rank, s) else p
        case RejectTie => Tied
      else p
  }

  function Prefer(order: seq<Id>, authority: Authority, tieBreak: TieBreak): Preference {
    if order == [] then NoneYet
    else
      var n := |order| - 1;
      Consider(Prefer(order[..n], authority, tieBreak), order[n], authority, tieBreak)
  }

  ghost function AmountsOf(byAmount: ByAmount, s: Id): set<nat> {
    set a | a in byAmount && s in byAmount[a]
  }

  predicate ByAuthority(policy: Policy) {
    policy.conflict == PreferHigherAuthority || policy.tieBreak != RejectTie
  }

  ghost function TheOne<A>(s: set<A>): (a: A)
    requires |s| == 1
    ensures s == {a}
  {
    assert s != {};
    var one :| one in s;
    assert |s - {one}| == 0;
    one
  }

  /** What a dispute resolves to, stated over the order the sources are met in. */
  ghost function Resolve(byAmount: ByAmount, authority: Authority, policy: Policy): Result<Outcome, ErrorCode> {
    if |byAmount.Keys| == 1 then Ok(Resolved(TheOne(byAmount.Keys)))
    else if policy.conflict == StrictFail then Err(ConflictingEvidence)
    else if ByAuthority(policy) then
      var p := Prefer(Reports(byAmount), authority, policy.tieBreak);
      if p.Best? && |AmountsOf(byAmount, p.source)| == 1 then
        Ok(Resolved(TheOne(AmountsOf(byAmount, p.source))))
      else Ok(Unresolved)
    else Ok(Unresolved)
  }

  method ResolveAmountDispute(byAmount: ByAmount, authority: Authority, policy: Policy)
    returns (r: Result<Outcome, ErrorCode>)
    ensures r == Resolve(byAmount, authority, policy)
  {
    if |byAmount.Keys| == 1 {
      var a :| a in byAmount;
      ghost var one := TheOne(byAmount.Keys);
      return Ok(Resolved(a));
    }
    if policy.conflict == StrictFail {
      return Err(ConflictingEvidence);
    }
    if policy.conflict == PreferHigherAuthority || policy.tieBreak != RejectTie {
      var amounts := Ascending(byAmount.Keys);
      AscendingUnique(amounts, byAmount.Keys);
      ListingMembers(amounts, byAmount.Keys);
      var preference := WalkSources(byAmount, amounts, authority, policy.tieBreak);
      if !preference.Best? {
        return Ok(Unresolved);
      }
      var matches, chosen := CountMatches(byAmount, amounts, preference.source);
      if matches != 1 {
        return Ok(Unresolved);
      }
      ghost var one := TheOne(AmountsOf(byAmount, preference.source));
      return Ok(Resolved(chosen));
    }
    return Ok(Unresolved);
  }

  method WalkSources(byAmount: ByAmount, amounts: seq<nat>, authority: Authority, tieBreak: TieBreak)
    returns (preference: Preference)
    requires forall a | a in amounts :: a in byAmount
    ensures preference == Prefer(Walk(byAmount, amounts), authority, tieBreak)
  {
    preference := NoneYet;
    for i := 0 to |amounts|
      invariant preference == Prefer(Walk(byAmount, amounts[..i]), authority, tieBreak)
    {
      var sources := Ascending(byAmount[amounts[i]]);
      AscendingUnique(sources, byAmount[amounts[i]]);
      WalkLast(byAmount, amounts[..i], amounts[i]);
      TakeSucc(amounts, i);
      preference := WalkAmount(preference, sources, authority, tieBreak, Walk(byAmount, amounts[..i]));
    }
    TakeAll(amounts);
  }

  /** The inner loop: the sources that reported one amount. */
  method WalkAmount(
    before: Preference, sources: seq<Id>, authority: Authority, tieBreak: TieBreak, ghost walked: seq<Id>)
    returns (preference: Preference)
    requires before == Prefer(walked, authority, tieBreak)
    ensures preference == Prefer(walked + sources, authority, tieBreak)
  {
    preference := before;
    ghost var order := walked;
    for j := 0 to |sources|
      invariant order == walked + sources[..j]
      invariant preference == Prefer(order, authority, tieBreak)
    {
      PreferLast(order, sources[j], authority, tieBreak);
      preference := Consider(preference, sources[j], authority, tieBreak);
      TakeSucc(sources, j);
      Associative(walked, sources[..j], [sources[j]]);
      order := order + [sources[j]];
    }
    TakeAll(sources);
  }

  lemma PreferLast(order: seq<Id>, s: Id, authority: Authority, tieBreak: TieBreak)
    ensures Prefer(order + [s], authority, tieBreak) == Consider(Prefer(order, authority, tieBreak), s, authority, tieBreak)
  {
    assert (order + [s])[..|order|] == order;
  }

  lemma WalkLast(byAmount: ByAmount, amounts: seq<nat>, a: nat)
    requires a in byAmount && forall b | b in amounts :: b in byAmount
    ensures Walk(byAmount, amounts + [a]) == Walk(byAmount, amounts) + AscendingOf(byAmount[a])
  {
    assert (amounts + [a])[..|amounts|] == amounts;
  }

  method CountMatches(byAmount: ByAmount, amounts: seq<nat>, source: Id) returns (matches: nat, chosen: nat)
    requires Distinct(amounts) && forall a :: a in amounts <==> a in byAmount
    ensures matches == |AmountsOf(byAmount, source)|
    ensures matches > 0 ==> chosen in AmountsOf(byAmount, source)
  {
    matches, chosen := 0, 0;
    ghost var found: set<nat> := {};
    for i := 0 to |amounts|
      invariant forall a :: a in found ==> a in byAmount && source in byAmount[a]
      invariant forall k | 0 <= k < i :: source in byAmount[amounts[k]] ==> amounts[k] in found
      invariant forall k | i <= k < |amounts| :: amounts[k] !in found
      invariant matches == |found|
      invariant matches > 0 ==> chosen in found
    {
      if source in byAmount[amounts[i]] {
        matches, chosen := matches + 1, amounts[i];
        found := found + {amounts[i]};
      }
    }
    assert found == AmountsOf(byAmount, source);
  }

  // ---- what the walk decides, independent of its order ---------------------

  /** The preferred source: maximal authority, ties going to the extreme identity. */
  ghost predicate Preferred(s: Id, sources: set<Id>, authority: Authority, tieBreak: TieBreak) {
    && s in sources
    && forall x | x in sources ::
         || Rank(authority, x) < Rank(authority, s)
         || (Rank(authority, x) == Rank(authority, s) && (if tieBreak == HighestSourceIdWins then x <= s else s <= x))
  }

  lemma {:induction false} WalkFindsExtreme(order: seq<Id>, authority: Authority, tieBreak: TieBreak)
    requires order != [] && tieBreak != RejectTie
    ensures var p := Prefer(order, authority, tieBreak);
      && p.Best? && p.rank == Rank(authority, p.source)
      && Preferred(p.source, (set x | x in order), authority, tieBreak)
  {
    var n := |order| - 1;
    SplitLast(order);
    if n > 0 {
      WalkFindsExtreme(order[..n], authority, tieBreak);
    }
  }

  /** A deterministic tie break picks the extreme-identity source of maximal authority,
      whatever the amounts are, and the dispute resolves exactly when that source
      reports a single amount. */
  lemma ExtremeSourceDecides(
    byAmount: ByAmount, authority: Authority, policy: Policy, r: Result<Outcome, ErrorCode>, s: Id)
    requires r == Resolve(byAmount, authority, policy)
    requires |byAmount.Keys| != 1 && policy.conflict != StrictFail && policy.tieBreak != RejectTie
    requires Preferred(s, SourcesOf(byAmount), authority, policy.tieBreak)
    ensures r.Ok?
    ensures r.value.Resolved? <==> |AmountsOf(byAmount, s)| == 1
    ensures r.value.Resolved? ==> AmountsOf(byAmount, s) == {r.value.amount}
  {
    ReportsMembers(byAmount);
    var order := Reports(byAmount);
    assert s in order;
    WalkFindsExtreme(order, authority, policy.tieBreak);
    var p := Prefer(order, authority, policy.tieBreak);
    assert (set x | x in order) == SourcesOf(byAmount);
    assert p.source == s;
  }

  /** Under the reject tie break the walk stops at the first pair of different sources
      that share the highest rank met so far. */
  ghost predicate TieMet(order: seq<Id>, authority: Authority) {
    exists i, j | 0 <= i < j < |order| :: TieAt(order, authority, i, j)
  }

  ghost predicate TieAt(order: seq<Id>, authority: Authority, i: nat, j: nat)
    requires i < j < |order|
  {
    && order[i] != order[j]
    && Rank(authority, order[i]) == Rank(authority, order[j])
    && forall k | 0 <= k < j :: Rank(authority, order[k]) <= Rank(authority, order[j])
  }

  ghost predicate UniqueHighest(s: Id, sources: set<Id>, authority: Authority) {
    s in sources && forall x | x in sources && x != s :: Rank(authority, x) < Rank(authority, s)
  }

  lemma TieMetLast(order: seq<Id>, authority: Authority)
    requires order != []
    ensures var n := |order| - 1;
      TieMet(order, authority) <==> TieMet(order[..n], authority) || exists i | 0 <= i < n :: TieAt(order, authority, i, n)
  {
    var n := |order| - 1;
    var before := order[..n];
    forall i, j | 0 <= i < j < n ensures TieAt(order, authority, i, j) <==> TieAt(before, authority, i, j) {
      assert forall k | 0 <= k < j :: before[k] == order[k];
    }
    if TieMet(before, authority) {
      var i, j :| 0 <= i < j < |before| && TieAt(before, authority, i, j);
      assert TieAt(order, authority, i, j);
    }
    if TieMet(order, authority) {
      var i, j :| 0 <= i < j < |order| && TieAt(order, authority, i, j);
      if j < n {
        assert TieAt(before, authority, i, j);
      }
    }
  }

  lemma {:induction false} WalkRejectsTies(order: seq<Id>, authority: Authority)
    requires order != []
    ensures var p := Prefer(order, authority, RejectTie);
      && !p.NoneYet?
      && (p.Tied? <==> TieMet(order, authority))
      && (p.Best? ==> p.rank == Rank(authority, p.source)
                      && UniqueHighest(p.source, (set x | x in order), authority))
  {
    var n := |order| - 1;
    var before := order[..n];
    SplitLast(order);
    TieMetLast(order, authority);
    if n > 0 {
      WalkRejectsTies(before, authority);
      var p := Prefer(before, authority, RejectTie);
      if p.Best? {
        LastTies(order, authority, p.source);
      }
    }
  }

  /** A last element ties exactly with a different source of the same, highest rank. */
  lemma LastTies(order: seq<Id>, authority: Authority, best: Id)
    requires order != []
    requires var before := order[..|order| - 1]; UniqueHighest(best, (set x | x in before), authority)
    ensures var n := |order| - 1;
      (exists i | 0 <= i < n :: TieAt(order, authority, i, n)) <==>
      Rank(authority, order[n]) == Rank(authority, best) && order[n] != best
  {
    var n := |order| - 1;
    assert best in order[..n];
    var b :| 0 <= b < n && order[b] == best;
    forall k | 0 <= k < n ensures Rank(authority, order[k]) <= Rank(authority, best) {
      assert order[k] in order[..n];
    }
    if Rank(authority, order[n]) == Rank(authority, best) && order[n] != best {
      assert TieAt(order, authority, b, n);
    }
    if exists i | 0 <= i < n :: TieAt(order, authority, i, n) {
      var i :| 0 <= i < n && TieAt(order, authority, i, n);
      assert order[i] in order[..n];
    }
  }

  /** Preferring authority and rejecting ties: any resolution is the single amount of
      the unique source of maximal authority, and a resolution happens exactly when no
      tie at a running maximum is met and that source reports one amount. */
  lemma AuthorityAloneDecides(
    byAmount: ByAmount, authority: Authority, policy: Policy, r: Result<Outcome, ErrorCode>)
    requires r == Resolve(byAmount, authority, policy)
    requires |byAmount.Keys| != 1 && policy.conflict == PreferHigherAuthority && policy.tieBreak == RejectTie
    requires SourcesOf(byAmount) != {}
    ensures r.Ok?
    ensures r.value.Resolved? <==>
      && !TieMet(Reports(byAmount), authority)
      && exists s :: UniqueHighest(s, SourcesOf(byAmount), authority) && |AmountsOf(byAmount, s)| == 1
    ensures r.value.Resolved? ==>
      exists s :: UniqueHighest(s, SourcesOf(byAmount), authority) && AmountsOf(byAmount, s) == {r.value.amount}
  {
    ReportsMembers(byAmount);
    var order := Reports(byAmount);
    var x :| x in SourcesOf(byAmount);
    assert x in order;
    assert (set x | x in order) == SourcesOf(byAmount);
    WalkRejectsTies(order, authority);
    var p := Prefer(order, authority, RejectTie);
    if p.Best? {
      assert UniqueHighest(p.source, SourcesOf(byAmount), authority);
      forall s | UniqueHighest(s, SourcesOf(byAmount), authority) ensures s == p.source {
      }
    }
  }

  /** Two weaker sources that tie before the strongest one is met leave the dispute
      open although its answer is unambiguous. */
  lemma WeakTieBlocksTheStrongestSource(
    byAmount: ByAmount, authority: Authority, policy: Policy, r: Result<Outcome, ErrorCode>)
    requires policy.conflict == PreferHigherAuthority && policy.tieBreak == RejectTie
    requires byAmount == map[10 := {1, 2}, 20 := {3}] && authority == map[1 := 1, 2 := 1, 3 := 9]
    requires r == Resolve(byAmount, authority, policy)
    ensures UniqueHighest(3, SourcesOf(byAmount), authority) && AmountsOf(byAmount, 3) == {20}
    ensures r == Ok(Unresolved)
  {
    assert byAmount.Keys == {10, 20};
    assert SourcesOf(byAmount) == {1, 2, 3} by {
      assert 1 in byAmount[10] && 2 in byAmount[10] && 3 in byAmount[20];
    }
    var order := [1, 2, 3];
    assert Reports(byAmount) == order by { WeakTieOrder(byAmount); }
    assert TieAt(order, authority, 0, 1);
    AuthorityAloneDecides(byAmount, authority, policy, r);
  }

  lemma WeakTieOrder(byAmount: ByAmount)
    requires byAmount.Keys == {10, 20} && byAmount[10] == {1, 2} && byAmount[20] == {3}
    ensures Reports(byAmount) == [1, 2, 3]
  {
    PairAscending(10, 20);
    PairAscending(1, 2);
    SingleAscending(3);
    WalkLast(byAmount, [], 10);
    WalkLast(byAmount, [10], 20);
    assert [10] + [20] == [10, 20] && [] + [10] == [10];
    assert [1, 2] + [3] == [1, 2, 3];
  }

  lemma PairAscending(m: nat, n: nat)
    requires m < n
    ensures AscendingOf({m, n}) == [m, n]
  {
    assert Least({m, n}) == m;
    assert {m, n} - {m} == {n};
    SingleAscending(n);
  }

  lemma SingleAscending(n: nat)
    ensures AscendingOf({n}) == [n]
  {
    assert {n} - {n} == {};
  }
}
