/** Order-free folds over multisets, and their sequence forms. */
module Folds {

  // ---- sums of naturals ----------------------------------------------------

  ghost function SumOf<A>(m: multiset<A>, f: A -> nat): nat
    decreases |m|
  {
    if m == multiset{} then 0
    else
      var a :| a in m;
      f(a) + SumOf(m - multiset{a}, f)
  }

  lemma {:induction false} SumOfRemove<A>(m: multiset<A>, a: A, f: A -> nat)
    requires a in m
    ensures SumOf(m, f) == f(a) + SumOf(m - multiset{a}, f)
    decreases |m|
  {
    var b :| b in m && SumOf(m, f) == f(b) + SumOf(m - multiset{b}, f);
    if a != b {
      SumOfRemove(m - multiset{b}, a, f);
      SumOfRemove(m - multiset{a}, b, f);
      assert m - multiset{b} - multiset{a} == m - multiset{a} - multiset{b};
    }
  }

  lemma SumOfAdd<A>(m: multiset<A>, a: A, f: A -> nat)
    ensures SumOf(m + multiset{a}, f) == SumOf(m, f) + f(a)
  {
    SumOfRemove(m + multiset{a}, a, f);
    assert m + multiset{a} - multiset{a} == m;
  }

  lemma {:induction false} SumOfUnion<A>(m: multiset<A>, n: multiset<A>, f: A -> nat)
    ensures SumOf(m + n, f) == SumOf(m, f) + SumOf(n, f)
    decreases |n|
  {
    if n == multiset{} {
      assert m + n == m;
    } else {
      var a :| a in n;
      SumOfUnion(m, n - multiset{a}, f);
      SumOfAdd(m + (n - multiset{a}), a, f);
      SumOfAdd(n - multiset{a}, a, f);
      assert m + (n - multiset{a}) + multiset{a} == m + n;
      assert n - multiset{a} + multiset{a} == n;
    }
  }

  lemma {:induction false} SumOfAgree<A>(m: multiset<A>, f: A -> nat, g: A -> nat)
    requires forall a | a in m :: f(a) == g(a)
    ensures SumOf(m, f) == SumOf(m, g)
    decreases |m|
  {
    if m != multiset{} {
      var a :| a in m;
      SumOfRemove(m, a, f);
      SumOfRemove(m, a, g);
      SumOfAgree(m - multiset{a}, f, g);
    }
  }

  lemma {:induction false} SumOfPlus<A>(m: multiset<A>, f: A -> nat, g: A -> nat, h: A -> nat)
    requires forall a | a in m :: h(a) == f(a) + g(a)
    ensures SumOf(m, h) == SumOf(m, f) + SumOf(m, g)
    decreases |m|
  {
    if m != multiset{} {
      var a :| a in m;
      SumOfRemove(m, a, f);
      SumOfRemove(m, a, g);
      SumOfRemove(m, a, h);
      SumOfPlus(m - multiset{a}, f, g, h);
    }
  }

  lemma SumOfSub<A>(m: multiset<A>, n: multiset<A>, f: A -> nat)
    requires m <= n
    ensures SumOf(m, f) <= SumOf(n, f)
  {
    SumOfUnion(m, n - m, f);
    assert m + (n - m) == n;
  }

  lemma {:induction false} SumOfZero<A>(m: multiset<A>, f: A -> nat)
    requires forall a | a in m :: f(a) == 0
    ensures SumOf(m, f) == 0
    decreases |m|
  {
    if m != multiset{} {
      var a :| a in m;
      SumOfRemove(m, a, f);
      SumOfZero(m - multiset{a}, f);
    }
  }

  lemma SumOfOne<A>(m: multiset<A>, a: A, f: A -> nat)
    requires m[a] == 1 && forall b | b in m && b != a :: f(b) == 0
    ensures SumOf(m, f) == f(a)
  {
    SumOfRemove(m, a, f);
    SumOfZero(m - multiset{a}, f);
  }

  // ---- gathering multisets -------------------------------------------------

  /** The multiset sum of f over every occurrence in m. */
  ghost function Gather<A, B>(m: multiset<A>, f: A -> multiset<B>): multiset<B>
    decreases |m|
  {
    if m == multiset{} then multiset{}
    else
      var a :| a in m;
      f(a) + Gather(m - multiset{a}, f)
  }

  lemma {:induction false} GatherRemove<A, B>(m: multiset<A>, a: A, f: A -> multiset<B>)
    requires a in m
    ensures Gather(m, f) == f(a) + Gather(m - multiset{a}, f)
    decreases |m|
  {
    var b :| b in m && Gather(m, f) == f(b) + Gather(m - multiset{b}, f);
    if a != b {
      GatherRemove(m - multiset{b}, a, f);
      GatherRemove(m - multiset{a}, b, f);
      assert m - multiset{b} - multiset{a} == m - multiset{a} - multiset{b};
    }
  }

  lemma GatherAdd<A, B>(m: multiset<A>, a: A, f: A -> multiset<B>)
    ensures Gather(m + multiset{a}, f) == Gather(m, f) + f(a)
  {
    GatherRemove(m + multiset{a}, a, f);
    assert m + multiset{a} - multiset{a} == m;
  }

  lemma {:induction false} GatherHas<A, B>(m: multiset<A>, a: A, f: A -> multiset<B>, b: B)
    requires a in m && b in f(a)
    ensures b in Gather(m, f)
  {
    GatherRemove(m, a, f);
  }

  lemma {:induction false} GatherNone<A, B>(m: multiset<A>, f: A -> multiset<B>)
    requires forall a | a in m :: f(a) == multiset{}
    ensures Gather(m, f) == multiset{}
    decreases |m|
  {
    if m != multiset{} {
      var a :| a in m;
      GatherRemove(m, a, f);
      GatherNone(m - multiset{a}, f);
    }
  }

  /** Whatever was gathered came from some element. */
  lemma {:induction false} GatherFrom<A, B>(m: multiset<A>, f: A -> multiset<B>, b: B) returns (a: A)
    requires b in Gather(m, f)
    ensures a in m && b in f(a)
    decreases |m|
  {
    var c :| c in m && Gather(m, f) == f(c) + Gather(m - multiset{c}, f);
    if b in f(c) {
      a := c;
    } else {
      a := GatherFrom(m - multiset{c}, f, b);
    }
  }

  lemma GatherInsert<A, B>(s: set<A>, a: A, f: A -> multiset<B>)
    requires a !in s
    ensures Gather(multiset(s + {a}), f) == Gather(multiset(s), f) + f(a)
  {
    assert multiset(s + {a}) == multiset(s) + multiset{a};
    GatherAdd(multiset(s), a, f);
  }

  // ---- images of sequences -------------------------------------------------

  function Mapped<A, B>(s: seq<A>, f: A -> B): (t: seq<B>)
    ensures |t| == |s|
    ensures forall i | 0 <= i < |s| :: t[i] == f(s[i])
  {
    seq(|s|, i requires 0 <= i < |s| => f(s[i]))
  }

  // ---- concatenation -------------------------------------------------------

  function Concat<A, B>(s: seq<A>, f: A -> seq<B>): seq<B> {
    if s == [] then [] else f(s[0]) + Concat(s[1..], f)
  }

  lemma {:induction false} ConcatAppend<A, B>(s: seq<A>, t: seq<A>, f: A -> seq<B>)
    ensures Concat(s + t, f) == Concat(s, f) + Concat(t, f)
  {
    if s == [] {
      assert s + t == t;
    } else {
      ConcatAppend(s[1..], t, f);
      assert (s + t)[1..] == s[1..] + t;
      Associative(f(s[0]), Concat(s[1..], f), Concat(t, f));
    }
  }

  lemma Associative<A>(a: seq<A>, b: seq<A>, c: seq<A>)
    ensures (a + b) + c == a + (b + c)
  {
  }

  lemma ConcatOne<A, B>(a: A, f: A -> seq<B>)
    ensures Concat([a], f) == f(a)
  {
    assert [a][1..] == [];
  }

  lemma ConcatSnoc<A, B>(s: seq<A>, a: A, f: A -> seq<B>)
    ensures Concat(s + [a], f) == Concat(s, f) + f(a)
  {
    ConcatAppend(s, [a], f);
    ConcatOne(a, f);
  }

  lemma ConcatAround<A, B>(s: seq<A>, a: A, t: seq<A>, f: A -> seq<B>)
    ensures Concat((s + [a]) + t, f) == Concat(s, f) + (f(a) + Concat(t, f))
  {
    ConcatAppend(s + [a], t, f);
    ConcatSnoc(s, a, f);
    Associative(Concat(s, f), f(a), Concat(t, f));
  }

  lemma SplitAround<A>(s: seq<A>, i: nat)
    requires i < |s|
    ensures s == (s[..i] + [s[i]]) + s[i + 1..]
  {
  }

  /** The image of one element sits in the concatenation right after those before it. */
  lemma ConcatAt<A, B>(s: seq<A>, i: nat, f: A -> seq<B>)
    requires i < |s|
    ensures Concat(s, f) == Concat(s[..i], f) + (f(s[i]) + Concat(s[i + 1..], f))
    ensures Concat(s[..i + 1], f) == Concat(s[..i], f) + f(s[i])
  {
    TakeSucc(s, i);
    ConcatSnoc(s[..i], s[i], f);
    SplitAround(s, i);
    ConcatAround(s[..i], s[i], s[i + 1..], f);
  }

  lemma SplitLast<A>(s: seq<A>)
    requires s != []
    ensures s == s[..|s| - 1] + [s[|s| - 1]]
    ensures multiset(s) == multiset(s[..|s| - 1]) + multiset{s[|s| - 1]}
  {
    assert s == s[..|s| - 1] + [s[|s| - 1]];
  }

  lemma TwoPositions<A>(s: seq<A>, i: nat, j: nat)
    requires i < j < |s|
    ensures s[i] == s[j] ==> multiset(s)[s[i]] > 1
  {
    var a, b := s[..j], s[j..];
    assert s == a + b && s[i] in multiset(a) && s[j] in multiset(b);
    assert multiset(s)[s[j]] == multiset(a)[s[j]] + multiset(b)[s[j]];
  }

  lemma TakeSucc<A>(s: seq<A>, i: nat)
    requires i < |s|
    ensures s[..i + 1] == s[..i] + [s[i]]
    ensures multiset(s[..i + 1]) == multiset(s[..i]) + multiset{s[i]}
  {
    assert s[..i + 1] == s[..i] + [s[i]];
  }

  lemma TakeAll<A>(s: seq<A>)
    ensures s[..|s|] == s
  {
  }
}
