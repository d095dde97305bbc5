/** Deciding disjointness of intervals by one sorted pass over neighbours. */
module Sweep {

  import opened Common
  import opened Fabric
  import opened Folds
  import opened Ordering

  /** An interval with inclusive ends, or open-ended, belonging to an owner. */
  datatype Span = Span(owner: seq<int>, id: Id, from: Instant, to: Option<Instant>)

  predicate Overlap(a: Span, b: Span) {
    if a.to.Some? && b.from > a.to.value then false
    else if b.to.Some? && a.from > b.to.value then false
    else true
  }

  predicate Proper(s: Span) {
    s.to.Some? ==> s.from <= s.to.value
  }

  function SpanRank(s: Span): seq<int> {
    s.owner + [s.from, s.id]
  }

  ghost predicate Clash(a: Span, b: Span) {
    a.owner == b.owner && Overlap(a, b)
  }

  /** No two occurrences of the same owner's intervals share an instant. */
  ghost predicate Disjoint(m: multiset<Span>) {
    forall a, b | a in m && b in m && (a != b || m[a] > 1) :: !Clash(a, b)
  }

  ghost predicate PairsDisjoint(s: seq<Span>) {
    forall i, j | 0 <= i < j < |s| :: !Clash(s[i], s[j])
  }

  // ---- positions and occurrences -------------------------------------------

  lemma {:induction false} TwoOccurrences<A>(s: seq<A>, a: A) returns (i: nat, j: nat)
    requires multiset(s)[a] > 1
    ensures i < j < |s| && s[i] == a && s[j] == a
  {
    SplitLast(s);
    var n := |s| - 1;
    if s[n] == a {
      assert a in multiset(s[..n]);
      i :| 0 <= i < n && s[..n][i] == a;
      j := n;
    } else {
      i, j := TwoOccurrences(s[..n], a);
    }
  }

  lemma OverlapSymmetric(a: Span, b: Span)
    requires Proper(a) && Proper(b)
    ensures Overlap(a, b) <==> Overlap(b, a)
  {
  }

  lemma PairsAreOccurrences(s: seq<Span>)
    requires forall x | x in s :: Proper(x)
    ensures PairsDisjoint(s) <==> Disjoint(multiset(s))
  {
    if PairsDisjoint(s) {
      forall a, b | a in multiset(s) && b in multiset(s) && (a != b || multiset(s)[a] > 1) ensures !Clash(a, b) {
        if a == b {
          var i, j := TwoOccurrences(s, a);
          assert !Clash(s[i], s[j]);
        } else {
          var i :| 0 <= i < |s| && s[i] == a;
          var j :| 0 <= j < |s| && s[j] == b;
          assert !Clash(s[if i < j then i else j], s[if i < j then j else i]);
          OverlapSymmetric(a, b);
        }
      }
    }
    if Disjoint(multiset(s)) {
      forall i, j | 0 <= i < j < |s| ensures !Clash(s[i], s[j]) {
        if s[i] == s[j] {
          TwoPositions(s, i, j);
        }
        assert s[i] in multiset(s) && s[j] in multiset(s);
      }
    }
  }

  // ---- neighbours suffice --------------------------------------------------

  ghost predicate NeighboursDisjoint(s: seq<Span>) {
    forall i {:trigger s[i]} | 0 < i < |s| :: !Clash(s[i - 1], s[i])
  }

  /** A common prefix does not matter to the order. */
  lemma {:induction false} LexPrefix(p: seq<int>, a: seq<int>, b: seq<int>)
    ensures LexLeq(p + a, p + b) <==> LexLeq(a, b)
  {
    if p == [] {
      assert p + a == a && p + b == b;
    } else {
      assert (p + a)[1..] == p[1..] + a && (p + b)[1..] == p[1..] + b;
      LexPrefix(p[1..], a, b);
    }
  }

  /** Whatever sorts between two intervals of one owner belongs to it, and starts between. */
  lemma {:induction false} Between(p: seq<int>, q: seq<int>, a: seq<int>, b: seq<int>, c: seq<int>)
    requires |p| == |q| && LexLeq(p + a, q + b) && LexLeq(q + b, p + c)
    ensures p == q
  {
    if p != [] {
      assert (p + a)[1..] == p[1..] + a && (q + b)[1..] == q[1..] + b && (p + c)[1..] == p[1..] + c;
      Between(p[1..], q[1..], a, b, c);
      assert p == [p[0]] + p[1..] && q == [q[0]] + q[1..];
    }
  }

  lemma Starts(a: Span, b: Span)
    requires a.owner == b.owner && LexLeq(SpanRank(a), SpanRank(b))
    ensures a.from <= b.from
  {
    LexPrefix(a.owner, [a.from, a.id], [b.from, b.id]);
  }

  /** In a sorted list, intervals that are disjoint from their neighbours end before every
      later interval of the owner starts. */
  lemma {:induction false} EndsBefore(s: seq<Span>, width: nat, i: nat, j: nat)
    requires SortedBy(s, SpanRank) && NeighboursDisjoint(s) && i < j < |s|
    requires forall x | x in s :: Proper(x) && |x.owner| == width
    requires s[i].owner == s[j].owner
    ensures s[i].to.Some? && s[i].to.value < s[j].from
    decreases j
  {
    var k := j - 1;
    if i < k {
      assert LexLeq(SpanRank(s[i]), SpanRank(s[k])) && LexLeq(SpanRank(s[k]), SpanRank(s[j]));
      Between(s[i].owner, s[k].owner, [s[i].from, s[i].id], [s[k].from, s[k].id], [s[j].from, s[j].id]);
      EndsBefore(s, width, i, k);
    }
    assert LexLeq(SpanRank(s[k]), SpanRank(s[j])) && !Clash(s[k], s[j]);
    Starts(s[k], s[j]);
    assert Proper(s[k]) && Proper(s[j]);
  }

  lemma SweepDecides(s: seq<Span>, width: nat)
    requires SortedBy(s, SpanRank) && forall x | x in s :: Proper(x) && |x.owner| == width
    ensures NeighboursDisjoint(s) <==> PairsDisjoint(s)
  {
    if NeighboursDisjoint(s) {
      forall i, j | 0 <= i < j < |s| ensures !Clash(s[i], s[j]) {
        if s[i].owner == s[j].owner {
          EndsBefore(s, width, i, j);
        }
      }
    }
  }

  lemma SortedDecides(spans: seq<Span>, sorted: seq<Span>, width: nat)
    requires forall x | x in spans :: Proper(x) && |x.owner| == width
    requires multiset(sorted) == multiset(spans) && SortedBy(sorted, SpanRank)
    ensures NeighboursDisjoint(sorted) <==> Disjoint(multiset(spans))
  {
    forall x | x in sorted ensures Proper(x) && |x.owner| == width {
      assert x in multiset(spans);
    }
    PairsAreOccurrences(sorted);
    SweepDecides(sorted, width);
  }

  method NeighboursClash(s: seq<Span>) returns (clash: bool)
    ensures clash <==> !NeighboursDisjoint(s)
  {
    var i := 1;
    while i < |s|
      invariant 1 <= i
      invariant forall k {:trigger s[k]} | 0 < k < i && k < |s| :: !Clash(s[k - 1], s[k])
    {
      if s[i - 1].owner == s[i].owner && Overlap(s[i - 1], s[i]) {
        return true;
      }
      i := i + 1;
    }
    return false;
  }

  /** The sorted pass over neighbours accepts exactly the pairwise disjoint intervals. */
  method SweepNeighbours(spans: seq<Span>, ghost width: nat) returns (ok: bool)
    requires forall x | x in spans :: Proper(x) && |x.owner| == width
    ensures ok <==> Disjoint(multiset(spans))
  {
    var sorted := Sort(spans, SpanRank);
    SortedDecides(spans, sorted, width);
    var clash := NeighboursClash(sorted);
    return !clash;
  }
}
