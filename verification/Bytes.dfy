/** Little-endian words over byte sequences. */
module Bytes {

  import opened Arith

  type Byte = x: int | 0 <= x < 256

  function Pow256(n: nat): (p: nat)
    ensures p > 0
  {
    if n == 0 then 1 else 256 * Pow256(n - 1)
  }

  /** The low n bytes of v, least significant first. */
  function Put(v: nat, n: nat): (s: seq<Byte>)
    ensures |s| == n
  {
    if n == 0 then [] else [(v % 256) as Byte] + Put(v / 256, n - 1)
  }

  function Get(s: seq<Byte>): nat {
    if s == [] then 0 else s[0] + 256 * Get(s[1..])
  }

  lemma {:induction false} GetBound(s: seq<Byte>)
    ensures Get(s) < Pow256(|s|)
  {
    if s != [] {
      GetBound(s[1..]);
    }
  }

  lemma {:induction false} GetPut(v: nat, n: nat)
    requires v < Pow256(n)
    ensures Get(Put(v, n)) == v
  {
    if n > 0 {
      GetPut(v / 256, n - 1);
      assert Put(v, n)[1..] == Put(v / 256, n - 1);
    }
  }

  lemma {:induction false} PutGet(s: seq<Byte>)
    ensures Put(Get(s), |s|) == s
  {
    if s != [] {
      PutGet(s[1..]);
      DivUnique(Get(s), 256, Get(s[1..]), s[0]);
      assert s == [s[0]] + s[1..];
    }
  }

  /** Byte i is the one worth 256^i. */
  lemma {:induction false} PutAt(v: nat, n: nat, i: nat)
    requires i < n
    ensures Put(v, n)[i] == v / Pow256(i) % 256
  {
    if i > 0 {
      PutAt(v / 256, n - 1, i - 1);
      DivTwice(v, Pow256(i - 1));
    }
  }

  lemma DivTwice(v: nat, p: nat)
    requires p > 0
    ensures v / 256 / p == v / (256 * p)
  {
    DivMod(v, 256);
    DivMod(v / 256, p);
    var q, r := v / 256 / p, v / 256 % p;
    MulGap(r, p, 256);
    assert v == q * (256 * p) + (256 * r + v % 256) by {
      Regroup(q, p, 256);
    }
    DivUnique(v, 256 * p, q, 256 * r + v % 256);
  }

  lemma Regroup(q: int, p: int, b: int)
    ensures (q * p) * b == q * (b * p)
  {
  }

  lemma WordSizes()
    ensures Pow256(4) == 0x1_0000_0000
    ensures Pow256(8) == 0x1_0000_0000_0000_0000
  {
    assert Pow256(1) == 256;
    assert Pow256(2) == 0x1_0000;
    assert Pow256(3) == 0x100_0000;
    assert Pow256(4) == 0x1_0000_0000;
    assert Pow256(5) == 0x100_0000_0000;
    assert Pow256(6) == 0x1_0000_0000_0000;
    assert Pow256(7) == 0x100_0000_0000_0000;
  }
}
