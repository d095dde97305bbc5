/** Streaming SHA-256: absorbing a message in pieces, padding, and field framing. The
    compression function is left uninterpreted. */
module Sha256 {

  import opened Arith
  import opened Common
  import opened Folds
  import opened Bytes

  const BLOCK: nat := 64
  const LENGTH_OFFSET: nat := 56

  /** The eight chaining words. */
  type State = seq<nat>

  type Compression = (State, seq<Byte>) -> State

  // ---- the one-shot definition ---------------------------------------------

  /** Compresses a message of whole blocks, block by block. */
  function Fold(compress: Compression, s: State, m: seq<Byte>): State
    requires |m| % BLOCK == 0
    decreases |m|
  {
    if m == [] then s else Fold(compress, compress(s, m[..BLOCK]), m[BLOCK..])
  }

  /** Most significant byte first. */
  function PutBig(v: nat, n: nat): (s: seq<Byte>)
    ensures |s| == n
  {
    if n == 0 then [] else PutBig(v / 256, n - 1) + [(v % 256) as Byte]
  }

  function ZeroBytes(n: nat): (s: seq<Byte>)
    ensures |s| == n
  {
    if n == 0 then [] else ZeroBytes(n - 1) + [0]
  }

  /** The fewest zero bytes after the marker that leave room for exactly the length. */
  function ZeroCount(length: nat): (k: nat)
    ensures k < BLOCK && (length + 1 + k) % BLOCK == LENGTH_OFFSET
  {
    var used := (length + 1) % BLOCK;
    if used <= LENGTH_OFFSET then LENGTH_OFFSET - used else LENGTH_OFFSET + BLOCK - used
  }

  lemma FillsBlock(n: nat)
    requires n % BLOCK == LENGTH_OFFSET
    ensures (n + 8) % BLOCK == 0
  {
  }

  /** The padded message of section 5.1.1 of FIPS 180-4, in bytes; the bit length is kept
      modulo 2^64, which matters only from 2^61 bytes on. */
  function Padding(length: nat): (p: seq<Byte>)
    ensures (length + |p|) % BLOCK == 0
  {
    FillsBlock(length + 1 + ZeroCount(length));
    [0x80] + ZeroBytes(ZeroCount(length)) + PutBig(8 * length % (U64_MAX + 1), 8)
  }

  function HashOf(compress: Compression, initial: State, m: seq<Byte>): State {
    Fold(compress, initial, m + Padding(|m|))
  }

  // ---- folding in pieces ---------------------------------------------------

  lemma {:induction false} FoldAppend(compress: Compression, s: State, a: seq<Byte>, b: seq<Byte>)
    requires |a| % BLOCK == 0 && |b| % BLOCK == 0
    ensures |a + b| % BLOCK == 0 && Fold(compress, s, a + b) == Fold(compress, Fold(compress, s, a), b)
    decreases |a|
  {
    BlocksAdd(|a|, |b|);
    if a == [] {
      assert a + b == b;
    } else {
      AtLeastBlock(|a|);
      assert (a + b)[..BLOCK] == a[..BLOCK] && (a + b)[BLOCK..] == a[BLOCK..] + b;
      FoldAppend(compress, compress(s, a[..BLOCK]), a[BLOCK..], b);
    }
  }

  lemma BlocksAdd(m: nat, n: nat)
    requires m % BLOCK == 0 && n % BLOCK == 0
    ensures (m + n) % BLOCK == 0
  {
  }

  lemma AtLeastBlock(n: nat)
    requires n > 0 && n % BLOCK == 0
    ensures n >= BLOCK && (n - BLOCK) % BLOCK == 0
  {
  }

  lemma FoldOne(compress: Compression, s: State, block: seq<Byte>)
    requires |block| == BLOCK
    ensures Fold(compress, s, block) == compress(s, block)
  {
    assert block[..BLOCK] == block && block[BLOCK..] == [];
  }

  lemma FoldBlock(compress: Compression, s: State, a: seq<Byte>, block: seq<Byte>)
    requires |a| % BLOCK == 0 && |block| == BLOCK
    ensures |a + block| % BLOCK == 0
    ensures Fold(compress, s, a + block) == compress(Fold(compress, s, a), block)
  {
    FoldAppend(compress, s, a, block);
    FoldOne(compress, Fold(compress, s, a), block);
  }

  /** The state holds the whole blocks of a message, and the rest of it is pending. */
  ghost predicate Absorbed(compress: Compression, initial: State, message: seq<Byte>, state: State, pending: seq<Byte>) {
    && |pending| <= |message| && (|message| - |pending|) % BLOCK == 0
    && message[|message| - |pending|..] == pending
    && state == Fold(compress, initial, message[..|message| - |pending|])
  }

  lemma AbsorbMore(compress: Compression, initial: State, message: seq<Byte>, state: State, pending: seq<Byte>, more: seq<Byte>)
    requires Absorbed(compress, initial, message, state, pending)
    ensures Absorbed(compress, initial, message + more, state, pending + more)
  {
    var n := |message| - |pending|;
    assert (message + more)[..n] == message[..n];
    assert (message + more)[n..] == message[n..] + more;
  }

  lemma AbsorbBlock(compress: Compression, initial: State, message: seq<Byte>, state: State, pending: seq<Byte>)
    requires Absorbed(compress, initial, message, state, pending) && |pending| >= BLOCK
    ensures Absorbed(compress, initial, message, compress(state, pending[..BLOCK]), pending[BLOCK..])
  {
    var n := |message| - |pending|;
    assert message[..n + BLOCK] == message[..n] + pending[..BLOCK];
    assert message[n + BLOCK..] == pending[BLOCK..];
    FoldBlock(compress, initial, message[..n], pending[..BLOCK]);
  }

  // ---- the hasher ----------------------------------------------------------

  class Hasher {
    const compress: Compression
    const initial: State

    var state: State
    var buffer: array<Byte>
    var buffered: nat
    var total: U64
    /** Everything absorbed so far. */
    ghost var message: seq<Byte>

    ghost predicate Valid()
      reads this, buffer
    {
      && buffer.Length == BLOCK && buffered < BLOCK && total == |message| % (U64_MAX + 1)
      && Absorbed(compress, initial, message, state, buffer[..buffered])
    }

    constructor (compress: Compression, initial: State)
      ensures Valid() && fresh(buffer) && message == [] && this.compress == compress && this.initial == initial
    {
      this.compress, this.initial := compress, initial;
      state, buffered, total, message := initial, 0, 0, [];
      buffer := new Byte[BLOCK](i => 0);
    }

    /** Copies bytes into the buffer from the first free place on. */
    method Fill(data: seq<Byte>)
      requires buffer.Length == BLOCK && buffered + |data| <= BLOCK
      modifies buffer, `buffered
      ensures buffered == old(buffered) + |data| && buffer[..buffered] == old(buffer[..buffered]) + data
    {
      forall i | 0 <= i < |data| {
        buffer[buffered + i] := data[i];
      }
      buffered := buffered + |data|;
    }

    /** Absorbing a message in any pieces is absorbing their concatenation. */
    method Update(data: seq<Byte>)
      requires Valid()
      modifies this, buffer
      ensures Valid() && buffer == old(buffer) && message == old(message) + data
    {
      if data == [] {
        assert message + data == message;
        return;
      }
      AbsorbMore(compress, initial, message, state, buffer[..buffered], data);
      message := message + data;
      total := WrapAdd(total, |data| % (U64_MAX + 1));
      WrapTotal(|old(message)|, |data|);
      var rest := data;
      if buffered != 0 {
        rest := TopUp(rest);
      } else {
        assert buffer[..buffered] + rest == rest;
      }
      while |rest| >= BLOCK
        modifies `state
        invariant rest == [] || buffered == 0
        invariant Absorbed(compress, initial, message, state, buffer[..buffered] + rest)
      {
        assert buffer[..buffered] + rest == rest;
        AbsorbBlock(compress, initial, message, state, rest);
        state := compress(state, rest[..BLOCK]);
        rest := rest[BLOCK..];
        assert buffer[..buffered] + rest == rest;
      }
      if rest != [] {
        assert buffer[..buffered] + rest == rest;
        Fill(rest);
        assert buffer[..buffered] == rest;
      } else {
        assert buffer[..buffered] + rest == buffer[..buffered];
      }
    }

    /** Fills the buffer up, compresses it once it is full, and leaves the rest of the data. */
    method TopUp(data: seq<Byte>) returns (rest: seq<Byte>)
      requires buffer.Length == BLOCK && buffered < BLOCK
      requires Absorbed(compress, initial, message, state, buffer[..buffered] + data)
      modifies buffer, `state, `buffered
      ensures buffered < BLOCK && (rest == [] || buffered == 0)
      ensures Absorbed(compress, initial, message, state, buffer[..buffered] + rest)
    {
      var needed := BLOCK - buffered;
      var take := if |data| < needed then |data| else needed;
      assert buffer[..buffered] + data == (buffer[..buffered] + data[..take]) + data[take..];
      Fill(data[..take]);
      rest := data[take..];
      if buffered == BLOCK {
        ghost var pending := buffer[..buffered] + rest;
        assert pending[..BLOCK] == buffer[..] && pending[BLOCK..] == rest;
        AbsorbBlock(compress, initial, message, state, pending);
        state := compress(state, buffer[..]);
        buffered := 0;
        assert buffer[..buffered] + rest == rest;
      }
    }

    method UpdateField(field: seq<Byte>)
      requires Valid() && |field| <= U64_MAX
      modifies this, buffer
      ensures Valid() && buffer == old(buffer) && message == old(message) + Framed(field)
    {
      Update(PutBig(|field|, 8));
      Update(field);
      Associative(old(message), PutBig(|field|, 8), field);
    }

    method Reset()
      requires buffer.Length == BLOCK
      modifies this
      ensures Valid() && buffer == old(buffer) && message == []
    {
      state, buffered, total, message := initial, 0, 0, [];
    }

    method PutZeros(upTo: nat)
      requires buffer.Length == BLOCK && buffered <= upTo <= BLOCK
      modifies buffer, `buffered
      ensures buffered == upTo && buffer[..buffered] == old(buffer[..buffered]) + ZeroBytes(upTo - old(buffered))
    {
      ghost var before := buffer[..buffered];
      assert before + ZeroBytes(0) == before;
      while buffered < upTo
        invariant old(buffered) <= buffered <= upTo
        invariant buffer[..buffered] == before + ZeroBytes(buffered - old(buffered))
      {
        ghost var done := buffer[..buffered];
        buffer[buffered] := 0;
        buffered := buffered + 1;
        assert buffer[..buffered] == done + [0];
        assert (before + ZeroBytes(buffered - 1 - old(buffered))) + [0] == before + (ZeroBytes(buffered - 1 - old(buffered)) + [0]);
      }
    }

    /** Compresses the full buffer. */
    method Drain()
      requires buffer.Length == BLOCK && buffered == BLOCK && Absorbed(compress, initial, message, state, buffer[..buffered])
      modifies `state, `buffered
      ensures buffered == 0 && Absorbed(compress, initial, message, state, [])
    {
      AbsorbBlock(compress, initial, message, state, buffer[..buffered]);
      assert buffer[..buffered][..BLOCK] == buffer[..] && buffer[..buffered][BLOCK..] == [];
      state := compress(state, buffer[..]);
      buffered := 0;
    }

    /** The marker and as many zeros as it takes to leave room for exactly the length. */
    method PadToLength()
      requires Valid()
      modifies this, buffer
      ensures buffer == old(buffer) && buffered == LENGTH_OFFSET
      ensures message == old(message) + [0x80] + ZeroBytes(ZeroCount(|old(message)|))
      ensures Absorbed(compress, initial, message, state, buffer[..buffered])
    {
      ghost var zeros := ZeroCount(|message|);
      ZerosNeeded(|message|, buffered);
      Mark();
      ghost var marked := message;
      ghost var first := MakeRoom();
      ghost var second := LENGTH_OFFSET - buffered;
      assert first + second == zeros;
      PutZeros(LENGTH_OFFSET);
      Extend(ZeroBytes(second));
      ZerosJoined(marked, first, second, zeros);
    }

    method Mark()
      requires Valid()
      modifies this, buffer
      ensures buffer == old(buffer) && buffered == old(buffered) + 1 <= BLOCK && total == old(total)
      ensures message == old(message) + [0x80]
      ensures Absorbed(compress, initial, message, state, buffer[..buffered])
    {
      Fill([0x80]);
      Extend([0x80]);
    }

    /** When the length no longer fits, the block is filled up and compressed. */
    method MakeRoom() returns (ghost zeros: nat)
      requires buffer.Length == BLOCK && buffered <= BLOCK
      requires Absorbed(compress, initial, message, state, buffer[..buffered])
      modifies this, buffer
      ensures buffer == old(buffer) && buffered <= LENGTH_OFFSET && total == old(total)
      ensures zeros == (if old(buffered) > LENGTH_OFFSET then BLOCK - old(buffered) else 0)
      ensures buffered == if old(buffered) > LENGTH_OFFSET then 0 else old(buffered)
      ensures message == old(message) + ZeroBytes(zeros)
      ensures Absorbed(compress, initial, message, state, buffer[..buffered])
    {
      zeros := 0;
      if buffered > LENGTH_OFFSET {
        zeros := BLOCK - buffered;
        PutZeros(BLOCK);
        Extend(ZeroBytes(zeros));
        Drain();
        assert buffer[..buffered] == [];
      } else {
        assert message + ZeroBytes(0) == message;
      }
    }

    /** Padding and compressing what is pending gives the hash of everything absorbed. */
    method Finish() returns (digest: seq<Byte>)
      requires Valid()
      modifies this, buffer
      ensures digest == DigestOf(HashOf(compress, initial, old(message)))
    {
      ghost var m := message;
      var bits := 8 * total % (U64_MAX + 1);
      BitLength(|m|);
      PadToLength();
      Fill(PutBig(bits, 8));
      Extend(PutBig(bits, 8));
      Drain();
      PaddingParts(m, bits);
      assert message[..|message|] == message;
      digest := DigestOf(state);
    }

    /** Records that the bytes just put in the buffer belong to the message. */
    ghost method Extend(more: seq<Byte>)
      requires buffered <= buffer.Length
      requires exists pending :: Absorbed(compress, initial, message, state, pending) && buffer[..buffered] == pending + more
      modifies `message
      ensures message == old(message) + more && Absorbed(compress, initial, message, state, buffer[..buffered])
    {
      var pending :| Absorbed(compress, initial, message, state, pending) && buffer[..buffered] == pending + more;
      AbsorbMore(compress, initial, message, state, pending, more);
      message := message + more;
    }
  }

  function Piece(p: seq<Byte>): seq<Byte> {
    p
  }

  /** However a message is cut into pieces, the digest is that of the whole. */
  method HashPieces(compress: Compression, initial: State, pieces: seq<seq<Byte>>) returns (digest: seq<Byte>)
    ensures digest == DigestOf(HashOf(compress, initial, Concat(pieces, Piece)))
  {
    var hasher := new Hasher(compress, initial);
    for i := 0 to |pieces|
      invariant hasher.Valid() && fresh(hasher) && fresh(hasher.buffer)
      invariant hasher.message == Concat(pieces[..i], Piece)
    {
      ConcatAt(pieces, i, Piece);
      hasher.Update(pieces[i]);
    }
    TakeAll(pieces);
    digest := hasher.Finish();
  }

  /** The digest is the eight words, most significant byte first. */
  function DigestOf(s: State): seq<Byte> {
    Concat(s, (word: nat) => PutBig(word, 4))
  }

  lemma BitLength(n: nat)
    ensures 8 * (n % (U64_MAX + 1)) % (U64_MAX + 1) == 8 * n % (U64_MAX + 1)
  {
    var w := U64_MAX + 1;
    DivMod(n, w);
    var r := 8 * (n % w);
    DivMod(r, w);
    Distribute3(8 * (n / w), r / w, 0, w);
    DivUnique(8 * n, w, 8 * (n / w) + r / w, r % w);
  }

  lemma ZerosNeeded(length: nat, buffered: nat)
    requires buffered == length % BLOCK
    ensures ZeroCount(length) == if buffered + 1 <= LENGTH_OFFSET then LENGTH_OFFSET - (buffered + 1)
                                 else (BLOCK - (buffered + 1)) + LENGTH_OFFSET
  {
  }

  lemma {:induction false} ZerosAdd(m: nat, n: nat)
    ensures ZeroBytes(m) + ZeroBytes(n) == ZeroBytes(m + n)
  {
    if n > 0 {
      ZerosAdd(m, n - 1);
      Associative(ZeroBytes(m), ZeroBytes(n - 1), [0]);
    }
  }

  lemma ZerosJoined(marked: seq<Byte>, first: nat, second: nat, zeros: nat)
    requires first + second == zeros
    ensures (marked + ZeroBytes(first)) + ZeroBytes(second) == marked + ZeroBytes(zeros)
  {
    ZerosAdd(first, second);
    Associative(marked, ZeroBytes(first), ZeroBytes(second));
  }

  lemma PaddingParts(m: seq<Byte>, bits: nat)
    requires bits == 8 * |m| % (U64_MAX + 1)
    ensures m + [0x80] + ZeroBytes(ZeroCount(|m|)) + PutBig(bits, 8) == m + Padding(|m|)
  {
  }

  lemma WrapTotal(m: nat, n: nat)
    ensures WrapAdd(m % (U64_MAX + 1), n % (U64_MAX + 1)) == (m + n) % (U64_MAX + 1)
  {
    var w := U64_MAX + 1;
    DivMod(m, w);
    DivMod(n, w);
    var r := m % w + n % w;
    DivMod(r, w);
    Distribute3(m / w, n / w, r / w, w);
    DivUnique(m + n, w, m / w + n / w + r / w, r % w);
  }

  lemma Distribute3(a: int, b: int, c: int, w: int)
    ensures (a + b + c) * w == a * w + b * w + c * w
  {
  }

  // ---- field framing -------------------------------------------------------

  /** A field is absorbed after its length, so that no two lists of fields absorb alike. */
  function Framed(field: seq<Byte>): seq<Byte> {
    PutBig(|field|, 8) + field
  }

  function Framing(fields: seq<seq<Byte>>): seq<Byte> {
    Concat(fields, Framed)
  }

  function GetBig(s: seq<Byte>): nat {
    if s == [] then 0 else 256 * GetBig(s[..|s| - 1]) + s[|s| - 1]
  }

  lemma {:induction false} GetPutBig(v: nat, n: nat)
    requires v < Pow256(n)
    ensures GetBig(PutBig(v, n)) == v
  {
    if n > 0 {
      DivMod(v, 256);
      GetPutBig(v / 256, n - 1);
      assert PutBig(v, n)[..n - 1] == PutBig(v / 256, n - 1);
    }
  }

  lemma FirstField(fields: seq<seq<Byte>>)
    requires fields != [] && |fields[0]| <= U64_MAX
    ensures var s := Framing(fields);
      && 8 + |fields[0]| <= |s| && GetBig(s[..8]) == |fields[0]|
      && s[8..8 + |fields[0]|] == fields[0] && s[8 + |fields[0]|..] == Framing(fields[1..])
  {
    var f, s, rest := fields[0], Framing(fields), Framing(fields[1..]);
    assert s == (PutBig(|f|, 8) + f) + rest;
    assert s[..8] == PutBig(|f|, 8);
    WordSizes();
    GetPutBig(|f|, 8);
  }

  /** Framing is injective: different lists of fields are never hashed as the same message. */
  lemma {:induction false} FramingInjective(a: seq<seq<Byte>>, b: seq<seq<Byte>>)
    requires Framing(a) == Framing(b)
    requires (forall f | f in a :: |f| <= U64_MAX) && (forall f | f in b :: |f| <= U64_MAX)
    ensures a == b
    decreases |a|
  {
    if a != [] { FirstField(a); }
    if b != [] { FirstField(b); }
    if a != [] && b != [] {
      FramingInjective(a[1..], b[1..]);
      assert a == [a[0]] + a[1..] && b == [b[0]] + b[1..];
    }
  }

  // ---- padding is injective ------------------------------------------------

  /** A padded message ends in the bit length, which it exceeds by less than two blocks. */
  lemma LengthField(m: seq<Byte>, t: seq<Byte>)
    requires t == m + Padding(|m|)
    ensures |m| + 9 <= |t| <= |m| + 72 && GetBig(t[|t| - 8..]) == 8 * |m| % (U64_MAX + 1)
  {
    var bits := 8 * |m| % (U64_MAX + 1);
    WordSizes();
    GetPutBig(bits, 8);
    PaddingParts(m, bits);
    assert t[|t| - 8..] == PutBig(bits, 8);
  }

  lemma NearLengths(m: nat, n: nat)
    requires m <= n + 63 && n <= m + 63 && 8 * m % (U64_MAX + 1) == 8 * n % (U64_MAX + 1)
    ensures m == n
  {
  }

  /** Different messages are padded differently, even where the length field wraps. */
  lemma PaddingInjective(m: seq<Byte>, n: seq<Byte>)
    requires m + Padding(|m|) == n + Padding(|n|)
    ensures m == n
  {
    var t := m + Padding(|m|);
    LengthField(m, t);
    LengthField(n, t);
    NearLengths(|m|, |n|);
    assert m == t[..|m|] && n == t[..|n|];
  }

  // ---- byte by byte --------------------------------------------------------

  /** Byte i of n is the one worth 256^(n - 1 - i). */
  lemma {:induction false} BigAt(v: nat, n: nat, i: nat)
    requires i < n
    ensures PutBig(v, n)[i] == v / Pow256(n - 1 - i) % 256
  {
    if i < n - 1 {
      BigAt(v / 256, n - 1, i);
      DivTwice(v, Pow256(n - 2 - i));
    }
  }

  lemma {:induction false} WordAt(s: State, i: nat, j: nat)
    requires i < |s| && j < 4
    ensures |DigestOf(s)| == 4 * |s| && DigestOf(s)[4 * i + j] == PutBig(s[i], 4)[j]
  {
    var word := PutBig(s[0], 4);
    assert DigestOf(s) == word + DigestOf(s[1..]);
    if i > 0 {
      WordAt(s[1..], i - 1, j);
    } else if |s| > 1 {
      WordAt(s[1..], 0, 0);
    }
  }

  /** Byte 4 * i + j of a digest is byte j of word i, counted from the most significant. */
  lemma DigestAt(s: State, i: nat, j: nat)
    requires i < |s| && j < 4
    ensures |DigestOf(s)| == 4 * |s| && DigestOf(s)[4 * i + j] == s[i] / Pow256(3 - j) % 256
  {
    WordAt(s, i, j);
    BigAt(s[i], 4, j);
  }

  lemma {:induction false} ZeroAt(n: nat, i: nat)
    requires i < n
    ensures ZeroBytes(n)[i] == 0
  {
    if i < n - 1 {
      ZeroAt(n - 1, i);
    }
  }

  /** Byte by byte a message is padded with 0x80, with zeros, and with its length in bits, most
      significant byte first, in the fewest whole blocks. */
  lemma PaddingAt(length: nat, i: nat)
    requires i < |Padding(length)|
    ensures 9 <= |Padding(length)| <= 72 && (length + |Padding(length)|) % 64 == 0
    ensures Padding(length)[i] ==
      if i == 0 then 0x80
      else if i < |Padding(length)| - 8 then 0
      else 8 * length % 0x1_0000_0000_0000_0000 / Pow256(|Padding(length)| - 1 - i) % 256
  {
    var zeros, bits := ZeroCount(length), 8 * length % (U64_MAX + 1);
    assert Padding(length) == [0x80] + ZeroBytes(zeros) + PutBig(bits, 8);
    if 0 < i < 1 + zeros {
      ZeroAt(zeros, i - 1);
    } else if i >= 1 + zeros {
      BigAt(bits, 8, i - 1 - zeros);
    }
  }

  /** A field comes after its length in eight bytes, most significant first. */
  lemma FramedAt(field: seq<Byte>, i: nat)
    requires i < 8
    ensures |Framed(field)| == 8 + |field| && Framed(field)[8..] == field
    ensures Framed(field)[i] == |field| / Pow256(7 - i) % 256
  {
    BigAt(|field|, 8, i);
  }
}
