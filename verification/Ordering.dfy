/** Lexicographic ranks and an unspecified, possibly unstable, sort. */
module Ordering {

  import opened Folds

  predicate LexLeq(a: seq<int>, b: seq<int>) {
    a == [] || (b != [] && (a[0] < b[0] || (a[0] == b[0] && LexLeq(a[1..], b[1..]))))
  }

  lemma LexTotal(a: seq<int>, b: seq<int>)
    ensures LexLeq(a, b) || LexLeq(b, a)
  {
  }

  lemma LexAntisymmetric(a: seq<int>, b: seq<int>)
    requires LexLeq(a, b) && LexLeq(b, a)
    ensures a == b
  {
    if a != [] {
      LexAntisymmetric(a[1..], b[1..]);
      assert a == [a[0]] + a[1..] && b == [b[0]] + b[1..];
    }
  }

  lemma LexTransitive(a: seq<int>, b: seq<int>, c: seq<int>)
    requires LexLeq(a, b) && LexLeq(b, c)
    ensures LexLeq(a, c)
  {
    if a != [] && a[0] == b[0] == c[0] {
      LexTransitive(a[1..], b[1..], c[1..]);
    }
  }

  ghost predicate SortedBy<A>(s: seq<A>, rank: A -> seq<int>) {
    forall i, j | 0 <= i < j < |s| :: LexLeq(rank(s[i]), rank(s[j]))
  }

  ghost predicate Distinct<A>(s: seq<A>) {
    forall i, j | 0 <= i < j < |s| :: s[i] != s[j]
  }

  /** The caller learns only that the result is some sorted permutation: elements
      of equal rank may come out in any order. */
  method Sort<A>(s: seq<A>, rank: A -> seq<int>) returns (t: seq<A>)
    ensures multiset(t) == multiset(s)
    ensures SortedBy(t, rank)
  {
    t := [];
    for i := 0 to |s|
      invariant multiset(t) == multiset(s[..i])
      invariant SortedBy(t, rank)
    {
      TakeSucc(s, i);
      t := Insert(t, s[i], rank);
    }
    TakeAll(s);
  }

  method Insert<A>(s: seq<A>, a: A, rank: A -> seq<int>) returns (t: seq<A>)
    requires SortedBy(s, rank)
    ensures multiset(t) == multiset(s) + multiset{a}
    ensures SortedBy(t, rank)
  {
    var k := 0;
    while k < |s| && LexLeq(rank(s[k]), rank(a))
      invariant k <= |s|
      invariant forall i | 0 <= i < k :: LexLeq(rank(s[i]), rank(a))
    {
      k := k + 1;
    }
    t := s[..k] + [a] + s[k..];
    assert s == s[..k] + s[k..];
    forall i, j | 0 <= i < j < |t| ensures LexLeq(rank(t[i]), rank(t[j])) {
      if i == k {
        LexTotal(rank(s[k]), rank(a));
        if k < j - 1 {
          LexTransitive(rank(a), rank(s[k]), rank(s[j - 1]));
        }
      } else if i < k && j > k {
        assert t[j] == s[j - 1] && t[i] == s[i];
      }
    }
  }

  /** Under a rank that separates the elements, a sorted permutation is unique. */
  lemma {:induction false} SortedUnique<A>(s: seq<A>, t: seq<A>, rank: A -> seq<int>)
    requires multiset(s) == multiset(t)
    requires SortedBy(s, rank) && SortedBy(t, rank)
    requires forall a, b | a in s && b in s && rank(a) == rank(b) :: a == b
    ensures s == t
    decreases |s|
  {
    if s == [] {
      assert |multiset(t)| == 0;
    } else {
      assert |multiset(t)| == |multiset(s)|;
      var n := |s| - 1;
      SplitLast(s);
      SplitLast(t);
      assert s[n] in multiset(t) && t[n] in multiset(s);
      var i :| 0 <= i < |t| && t[i] == s[n];
      var j :| 0 <= j < |s| && s[j] == t[n];
      assert LexLeq(rank(s[n]), rank(t[n])) by {
        if i == n { LexTotal(rank(t[n]), rank(t[n])); }
      }
      assert LexLeq(rank(t[n]), rank(s[n])) by {
        if j == n { LexTotal(rank(t[n]), rank(t[n])); }
      }
      LexAntisymmetric(rank(s[n]), rank(t[n]));
      assert t[n] in s;
      assert s[n] == t[n];
      assert multiset(s[..n]) == multiset(s) - multiset{s[n]};
      assert multiset(t[..n]) == multiset(t) - multiset{t[n]};
      SortedUnique(s[..n], t[..n], rank);
    }
  }

  /** Lists a set in an unspecified order. */
  method Listing<A(==)>(s: set<A>) returns (t: seq<A>)
    ensures multiset(t) == multiset(s)
  {
    t := [];
    var rest := s;
    while rest != {}
      invariant rest <= s
      invariant multiset(t) == multiset(s - rest)
      decreases rest
    {
      var a :| a in rest;
      assert s - (rest - {a}) == (s - rest) + {a};
      t, rest := t + [a], rest - {a};
    }
    assert s - {} == s;
  }

  lemma ListingMembers<A>(t: seq<A>, s: set<A>)
    requires multiset(t) == multiset(s)
    ensures forall a :: a in t <==> a in s
    ensures Distinct(t)
    ensures |t| == |s|
  {
    forall a ensures a in t <==> a in s {
      assert a in t <==> a in multiset(t);
    }
    forall i, j | 0 <= i < j < |t| ensures t[i] != t[j] {
      var (a, b) := (t[..j], t[j..]);
      assert t == a + b && t[i] in multiset(a) && t[j] in multiset(b);
      assert multiset(t)[t[j]] == multiset(a)[t[j]] + multiset(b)[t[j]] == multiset(s)[t[j]];
    }
    assert |multiset(t)| == |t|;
  }

  lemma {:induction false} DistinctSet<A>(s: seq<A>)
    requires Distinct(s)
    ensures multiset(s) == multiset(set a | a in s)
  {
    if s != [] {
      var n := |s| - 1;
      DistinctSet(s[..n]);
      SplitLast(s);
      assert (set a | a in s) == (set a | a in s[..n]) + {s[n]};
    }
  }

  lemma DistinctPermuted<A>(s: seq<A>, t: seq<A>)
    requires Distinct(s) && multiset(t) == multiset(s)
    ensures Distinct(t) && forall a :: a in t <==> a in s
  {
    DistinctSet(s);
    ListingMembers(t, set a | a in s);
  }

  /** The ascending listing of a set of naturals. */
  method Ascending(s: set<nat>) returns (t: seq<nat>)
    ensures multiset(t) == multiset(s)
    ensures forall i, j | 0 <= i < j < |t| :: t[i] < t[j]
  {
    var u := Listing(s);
    var rank := (n: nat) => [n];
    t := Sort(u, rank);
    ListingMembers(t, s);
    forall i, j | 0 <= i < j < |t| ensures t[i] < t[j] {
      assert LexLeq(rank(t[i]), rank(t[j]));
    }
  }

  ghost predicate StrictlyAscending(s: seq<nat>) {
    forall i, j | 0 <= i < j < |s| :: s[i] < s[j]
  }

  lemma FirstMember<A>(s: seq<A>)
    ensures s != [] ==> s[0] in s
  {
  }

  lemma {:induction false} AscendingSame(s: seq<nat>, t: seq<nat>)
    requires StrictlyAscending(s) && StrictlyAscending(t)
    requires forall n: nat :: n in s <==> n in t
    ensures s == t
    decreases |s|
  {
    if s == [] {
      FirstMember(t);
    } else {
      var (i, j) := (|s| - 1, |t| - 1);
      assert s[i] in t && j >= 0 && t[j] in s;
      assert s[i] == t[j];
      forall n: nat ensures n in s[..i] <==> n in t[..j] {
        assert n in s[..i] <==> n in s && n != s[i];
        assert n in t[..j] <==> n in t && n != t[j];
      }
      AscendingSame(s[..i], t[..j]);
      SplitLast(s);
      SplitLast(t);
    }
  }
}
