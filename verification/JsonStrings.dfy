/** What the escapes of a JSON string stand for (section 7 of RFC 8259), against a decoder of
    UTF-8 (section 3 of RFC 3629). */
module JsonStrings {

  import opened Arith
  import opened Common
  import opened Folds
  import opened JsonText
  import opened JsonTokens

  // ---- UTF-8 ---------------------------------------------------------------

  predicate IsScalar(code: nat) {
    code < 0xD800 || 0xE000 <= code < 0x110000
  }

  predicate IsTrail(c: char) {
    0x80 <= c as int <= 0xBF
  }

  function Trail(c: char): nat
    requires IsTrail(c)
  {
    c as int - 0x80
  }

  /** Only the shortest form counts, and no surrogate has one. */
  function Shortest(least: nat, code: nat): Option<nat> {
    if least <= code && IsScalar(code) then Some(code) else None
  }

  /** The code point whose encoded form the bytes are. */
  function Decoded(s: string): Option<nat> {
    if |s| == 1 && s[0] as int < 0x80 then Some(s[0] as int)
    else if |s| == 2 && 0xC0 <= s[0] as int < 0xE0 && IsTrail(s[1]) then
      Shortest(0x80, (s[0] as int - 0xC0) * 0x40 + Trail(s[1]))
    else if |s| == 3 && 0xE0 <= s[0] as int < 0xF0 && IsTrail(s[1]) && IsTrail(s[2]) then
      Shortest(0x800, (s[0] as int - 0xE0) * 0x1000 + Trail(s[1]) * 0x40 + Trail(s[2]))
    else if |s| == 4 && 0xF0 <= s[0] as int < 0xF8 && IsTrail(s[1]) && IsTrail(s[2]) && IsTrail(s[3]) then
      Shortest(0x10000, (s[0] as int - 0xF0) * 0x40000 + Trail(s[1]) * 0x1000 + Trail(s[2]) * 0x40 + Trail(s[3]))
    else None
  }

  /** The digits of a number to base 64. */
  lemma Sixes(code: nat, a: nat, b: nat, c: nat, d: nat)
    requires code == a * 0x40000 + b * 0x1000 + c * 0x40 + d && b < 0x40 && c < 0x40 && d < 0x40
    ensures code % 0x40 == d && code / 0x40 % 0x40 == c && code / 0x1000 % 0x40 == b && code / 0x40000 == a
  {
    DivUnique(code, 0x40, a * 0x1000 + b * 0x40 + c, d);
    DivUnique(a * 0x1000 + b * 0x40 + c, 0x40, a * 0x40 + b, c);
    DivUnique(code, 0x1000, a * 0x40 + b, c * 0x40 + d);
    DivUnique(a * 0x40 + b, 0x40, a, b);
    DivUnique(code, 0x40000, a, b * 0x1000 + c * 0x40 + d);
  }

  lemma Regrouped(code: nat)
    ensures code == code / 0x40 * 0x40 + code % 0x40
    ensures code / 0x40 == code / 0x1000 * 0x40 + code / 0x40 % 0x40
    ensures code / 0x1000 == code / 0x40000 * 0x40 + code / 0x1000 % 0x40
  {
  }

  /** Every scalar value is decoded from its bytes. */
  lemma Utf8Decoded(code: nat)
    requires IsScalar(code)
    ensures Decoded(Utf8(code)) == Some(code)
  {
    Regrouped(code);
  }

  /** And from no other bytes. */
  lemma DecodedIsUtf8(s: string, code: nat)
    requires Decoded(s) == Some(code)
    ensures IsScalar(code) && s == Utf8(code)
  {
    if |s| == 2 {
      Sixes(code, 0, 0, s[0] as int - 0xC0, Trail(s[1]));
    } else if |s| == 3 {
      Sixes(code, 0, s[0] as int - 0xE0, Trail(s[1]), Trail(s[2]));
    } else if |s| == 4 {
      Sixes(code, s[0] as int - 0xF0, Trail(s[1]), Trail(s[2]), Trail(s[3]));
    }
  }

  // ---- escapes -------------------------------------------------------------

  predicate IsHex(c: char, d: nat) {
    if d < 10 then c as int == '0' as int + d
    else d < 16 && (c as int == 'a' as int + (d - 10) || c as int == 'A' as int + (d - 10))
  }

  /** A backslash, u, and the four hexadecimal digits of a 16-bit number, in either case. */
  predicate Spells(e: string, unit: nat) {
    && |e| == 6 && e[0] == '\\' && e[1] == 'u' && unit < 0x10000
    && IsHex(e[2], unit / 0x1000) && IsHex(e[3], unit / 0x100 % 0x10) && IsHex(e[4], unit / 0x10 % 0x10) && IsHex(e[5], unit % 0x10)
  }

  /** The escape of a code point: itself, or a surrogate pair. */
  predicate Escaped(e: string, code: nat) {
    && IsScalar(code)
    && if code < 0x10000 then Spells(e, code)
       else
         |e| == 12 && Spells(e[..6], 0xD800 + (code - 0x10000) / 0x400) && Spells(e[6..], 0xDC00 + (code - 0x10000) % 0x400)
  }

  /** The two-char escapes, and the byte each stands for. */
  const SHORT: map<char, int> :=
    map['\"' := 0x22, '\\' := 0x5C, '/' := 0x2F, 'b' := 0x08, 'f' := 0x0C, 'n' := 0x0A, 'r' := 0x0D, 't' := 0x09]

  lemma HexIs(c: char, d: nat)
    ensures HexValue(c) == Some(d) <==> IsHex(c, d)
  {
  }

  lemma FromDigits(unit: nat, a: nat, b: nat, c: nat, d: nat)
    requires a < 16 && b < 16 && c < 16 && d < 16 && unit == ((a * 16 + b) * 16 + c) * 16 + d
    ensures unit < 0x10000 && a == unit / 0x1000 && b == unit / 0x100 % 0x10 && c == unit / 0x10 % 0x10 && d == unit % 0x10
  {
    DivUnique(unit, 0x10, (a * 16 + b) * 16 + c, d);
    DivUnique((a * 16 + b) * 16 + c, 0x10, a * 16 + b, c);
    DivUnique(unit, 0x100, a * 16 + b, c * 16 + d);
    DivUnique(a * 16 + b, 0x10, a, b);
    DivUnique(unit, 0x1000, a, b * 0x100 + c * 0x10 + d);
  }

  lemma ToDigits(unit: nat)
    ensures unit == unit / 0x10 * 0x10 + unit % 0x10
    ensures unit / 0x10 == unit / 0x100 * 0x10 + unit / 0x10 % 0x10
    ensures unit / 0x100 == unit / 0x1000 * 0x10 + unit / 0x100 % 0x10
  {
  }

  /** The hexadecimal digits of a 16-bit number. */
  lemma Fours(unit: nat, a: nat, b: nat, c: nat, d: nat)
    requires a < 16 && b < 16 && c < 16 && d < 16
    ensures unit == ((a * 16 + b) * 16 + c) * 16 + d <==>
      unit < 0x10000 && a == unit / 0x1000 && b == unit / 0x100 % 0x10 && c == unit / 0x10 % 0x10 && d == unit % 0x10
  {
    if unit == ((a * 16 + b) * 16 + c) * 16 + d {
      FromDigits(unit, a, b, c, d);
    }
    ToDigits(unit);
  }

  lemma DigitsSpell(e: string, unit: nat)
    requires |e| == 6 && e[0] == '\\' && e[1] == 'u'
    ensures Hex4(e, 2) == Some(unit) <==> Spells(e, unit)
  {
    HexIs(e[2], unit / 0x1000);
    HexIs(e[3], unit / 0x100 % 0x10);
    HexIs(e[4], unit / 0x10 % 0x10);
    HexIs(e[5], unit % 0x10);
    if Hex4(e, 2).Some? {
      Fours(unit, HexValue(e[2]).value, HexValue(e[3]).value, HexValue(e[4]).value, HexValue(e[5]).value);
    }
  }

  lemma Hex4Is(text: string, p: nat, unit: nat)
    requires 2 <= p && p + 4 <= |text| && text[p - 2] == '\\' && text[p - 1] == 'u'
    ensures Hex4(text, p) == Some(unit) <==> Spells(text[p - 2..p + 4], unit)
  {
    DigitsSpell(text[p - 2..p + 4], unit);
  }

  lemma UnitsAt(text: string, p: nat)
    requires 2 <= p <= |text| && text[p - 2] == '\\' && text[p - 1] == 'u'
    ensures UnicodeAt(text, p).Some? ==> p + 4 <= |text| && Hex4(text, p).Some? && Spells(text[p - 2..p + 4], Hex4(text, p).value)
    ensures UnicodeAt(text, p).Some? && 0xD800 <= Hex4(text, p).value <= 0xDBFF ==>
      p + 10 <= |text| && Hex4(text, p + 6).Some? && Spells(text[p + 4..p + 10], Hex4(text, p + 6).value)
  {
    if p + 4 <= |text| && Hex4(text, p).Some? {
      Hex4Is(text, p, Hex4(text, p).value);
    }
    if p + 10 <= |text| && text[p + 4] == '\\' && text[p + 5] == 'u' && Hex4(text, p + 6).Some? {
      Hex4Is(text, p + 6, Hex4(text, p + 6).value);
    }
  }

  /** A pair of surrogates and the code point they stand for. */
  lemma Pair(code: nat, high: nat, low: nat)
    requires 0xD800 <= high <= 0xDBFF && 0xDC00 <= low <= 0xDFFF
    ensures code == 0x10000 + (high - 0xD800) * 0x400 + (low - 0xDC00) <==>
      0x10000 <= code && high == 0xD800 + (code - 0x10000) / 0x400 && low == 0xDC00 + (code - 0x10000) % 0x400
  {
    if code == 0x10000 + (high - 0xD800) * 0x400 + (low - 0xDC00) {
      DivUnique(code - 0x10000, 0x400, high - 0xD800, low - 0xDC00);
    }
    if 0x10000 <= code {
      DivMod(code - 0x10000, 0x400);
    }
  }

  lemma PairSays(text: string, p: nat, high: nat, low: nat) returns (code: nat)
    requires 2 <= p && p + 10 <= |text| && 0xD800 <= high <= 0xDBFF && 0xDC00 <= low <= 0xDFFF
    requires Spells(text[p - 2..p + 4], high) && Spells(text[p + 4..p + 10], low)
    ensures code == 0x10000 + (high - 0xD800) * 1024 + (low - 0xDC00) && Escaped(text[p - 2..p + 10], code)
  {
    code := 0x10000 + (high - 0xD800) * 1024 + (low - 0xDC00);
    Pair(code, high, low);
    assert text[p - 2..p + 10][..6] == text[p - 2..p + 4] && text[p - 2..p + 10][6..] == text[p + 4..p + 10];
  }

  /** What is read as a unicode escape is one. */
  lemma UnicodeSays(text: string, p: nat) returns (code: nat)
    requires 2 <= p <= |text| && text[p - 2] == '\\' && text[p - 1] == 'u' && UnicodeAt(text, p).Some?
    ensures var (chars, end) := UnicodeAt(text, p).value;
      Escaped(text[p - 2..end], code) && chars == Utf8(code)
  {
    UnitsAt(text, p);
    code := Hex4(text, p).value;
    if 0xD800 <= code <= 0xDBFF {
      code := PairSays(text, p, code, Hex4(text, p + 6).value);
    }
  }

  lemma SpelledAt(text: string, p: nat, e: string, unit: nat)
    requires 2 <= p && At(text, p - 2, e) && Spells(e, unit)
    ensures p + 4 <= |text| && text[p - 2] == '\\' && text[p - 1] == 'u' && Hex4(text, p) == Some(unit)
  {
    AtChar(text, p - 2, e, 0);
    AtChar(text, p - 2, e, 1);
    Hex4Is(text, p, unit);
  }

  lemma PairRead(text: string, p: nat, code: nat, high: nat, low: nat)
    requires 2 <= p && p + 10 <= |text| && text[p + 4] == '\\' && text[p + 5] == 'u'
    requires Hex4(text, p) == Some(high) && Hex4(text, p + 6) == Some(low) && 0x10000 <= code < 0x110000
    requires high == 0xD800 + (code - 0x10000) / 0x400 && low == 0xDC00 + (code - 0x10000) % 0x400
    ensures UnicodeAt(text, p) == Some((Utf8(code), p + 10))
  {
    DivBounds(code - 0x10000, 0x400);
    DivAtMost(code - 0x10000, 0x400, 0x3FF);
    Pair(code, high, low);
  }

  /** Every escape of a code point is read as the bytes that decode to it. */
  lemma UnicodeIs(text: string, p: nat, end: nat, code: nat)
    requires 2 <= p && p - 2 <= end <= |text| && Escaped(text[p - 2..end], code)
    ensures text[p - 2] == '\\' && text[p - 1] == 'u' && p <= |text|
    ensures UnicodeAt(text, p) == Some((Utf8(code), end))
  {
    var e := text[p - 2..end];
    if code < 0x10000 {
      SpelledAt(text, p, e, code);
    } else {
      assert e[..6] == text[p - 2..p + 4] && e[6..] == text[p + 4..p + 10];
      SpelledAt(text, p, e[..6], 0xD800 + (code - 0x10000) / 0x400);
      SpelledAt(text, p + 6, e[6..], 0xDC00 + (code - 0x10000) % 0x400);
      PairRead(text, p, code, 0xD800 + (code - 0x10000) / 0x400, 0xDC00 + (code - 0x10000) % 0x400);
    }
  }

  // ---- strings -------------------------------------------------------------

  /** A piece of a string as written, and the bytes it stands for. */
  datatype Piece = Piece(written: string, chars: string)

  /** A char other than a quote, a backslash or a control char. */
  predicate IsPlain(u: Piece) {
    && |u.written| == 1 && u.written[0] as int >= 0x20 && u.written[0] != '\"' && u.written[0] != '\\'
    && u.chars == u.written
  }

  predicate IsShort(u: Piece) {
    && |u.written| == 2 && u.written[0] == '\\' && u.written[1] in SHORT
    && |u.chars| == 1 && u.chars[0] as int == SHORT[u.written[1]]
  }

  /** The escape of a code point, standing for its encoded form. */
  ghost predicate IsCode(u: Piece) {
    exists code: nat :: Escaped(u.written, code) && Decoded(u.chars) == Some(code)
  }

  ghost predicate IsPiece(u: Piece) {
    IsPlain(u) || IsShort(u) || IsCode(u)
  }

  function Spelling(us: seq<Piece>): string {
    if us == [] then "" else us[0].written + Spelling(us[1..])
  }

  function Meaning(us: seq<Piece>): string {
    if us == [] then "" else us[0].chars + Meaning(us[1..])
  }

  /** After n bytes: no escape goes past the budget. */
  predicate Within(us: seq<Piece>, n: nat) {
    us == [] || ((|us[0].written| > 1 ==> n + |us[0].chars| <= MAX_RECORD) && Within(us[1..], n + |us[0].chars|))
  }

  ghost predicate ArePieces(us: seq<Piece>) {
    forall u | u in us :: IsPiece(u)
  }

  /** What is read from p on as one piece, and where it ends. */
  predicate Reads(text: string, p: nat, u: Piece) {
    && p + |u.written| <= |text| && p < |text| && text[p] != '\"'
    && (text[p] == '\\' ==> EscapeAt(text, p + 1) == Some((u.chars, p + |u.written|)) && |u.written| > 1)
    && (text[p] != '\\' ==> text[p] as int >= 0x20 && u.chars == [text[p]] && |u.written| == 1)
  }

  lemma ShortIs(c: char, x: char)
    ensures Simple(c) == Some(x) <==> c in SHORT && SHORT[c] == x as int
  {
    if c in SHORT && SHORT[c] == x as int {
      assert x == SHORT[c] as char;
    }
  }

  lemma PlainIs(text: string, p: nat, u: Piece)
    requires IsPlain(u) && At(text, p, u.written)
    ensures Reads(text, p, u)
  {
    AtChar(text, p, u.written, 0);
  }

  lemma ShortRead(text: string, p: nat, u: Piece)
    requires IsShort(u) && At(text, p, u.written)
    ensures Reads(text, p, u)
  {
    AtChar(text, p, u.written, 0);
    AtChar(text, p, u.written, 1);
    ShortIs(u.written[1], u.chars[0]);
    assert u.chars == [u.chars[0]];
  }

  lemma CodeIs(text: string, p: nat, u: Piece)
    requires IsCode(u) && At(text, p, u.written)
    ensures Reads(text, p, u)
  {
    var code: nat :| Escaped(u.written, code) && Decoded(u.chars) == Some(code);
    UnicodeIs(text, p + 2, p + |u.written|, code);
    DecodedIsUtf8(u.chars, code);
  }

  lemma PieceIs(text: string, p: nat, u: Piece)
    requires IsPiece(u) && At(text, p, u.written)
    ensures Reads(text, p, u)
  {
    if IsPlain(u) {
      PlainIs(text, p, u);
    } else if IsShort(u) {
      ShortRead(text, p, u);
    } else {
      CodeIs(text, p, u);
    }
  }

  lemma PieceSays(text: string, p: nat) returns (u: Piece)
    requires p < |text| && text[p] != '\"'
    requires if text[p] == '\\' then EscapeAt(text, p + 1).Some? else text[p] as int >= 0x20
    ensures IsPiece(u) && At(text, p, u.written) && Reads(text, p, u)
  {
    if text[p] != '\\' {
      u := Piece([text[p]], [text[p]]);
    } else {
      var (chars, end) := EscapeAt(text, p + 1).value;
      u := Piece(text[p..end], chars);
      if text[p + 1] == 'u' {
        var code := UnicodeSays(text, p + 2);
        Utf8Decoded(code);
        assert Escaped(u.written, code);
      } else {
        ShortIs(text[p + 1], chars[0]);
      }
    }
  }

  lemma FirstPiece(text: string, p: nat, us: seq<Piece>)
    requires us != [] && At(text, p, Spelling(us) + "\"")
    ensures At(text, p, us[0].written) && At(text, p + |us[0].written|, Spelling(us[1..]) + "\"")
  {
    assert Spelling(us) + "\"" == us[0].written + (Spelling(us[1..]) + "\"");
    AtSplit(text, p, us[0].written, Spelling(us[1..]) + "\"");
  }

  /** One piece on: what is read from p is that piece, and what is read after it. */
  lemma PieceRead(text: string, read: (nat, nat) -> Option<Token>, p: nat, n: nat, u: Piece, q: nat, m: nat)
    requires ReadsStrings(text, read) && Reads(text, p, u) && q == p + |u.written| && m == n + |u.chars|
    ensures read(p, n) == Before(u.chars, |u.written| > 1 ==> m <= MAX_RECORD, read(q, m))
  {
    assert read(p, n) == StringFrom(text, p, n) && read(q, m) == StringFrom(text, q, m);
  }

  lemma LastRead(text: string, read: (nat, nat) -> Option<Token>, p: nat, n: nat)
    requires ReadsStrings(text, read) && At(text, p, "\"")
    ensures read(p, n) == Some(Token("", p + 1, true))
  {
    AtChar(text, p, "\"", 0);
    assert read(p, n) == StringFrom(text, p, n);
  }

  lemma FirstRead(text: string, p: nat, us: seq<Piece>, q: nat)
    requires us != [] && ArePieces(us) && At(text, p, Spelling(us) + "\"") && q == p + |us[0].written|
    ensures Reads(text, p, us[0]) && At(text, q, Spelling(us[1..]) + "\"")
    ensures p + |Spelling(us)| == q + |Spelling(us[1..])|
  {
    FirstPiece(text, p, us);
    PieceIs(text, p, us[0]);
  }

  lemma PiecesJoin(us: seq<Piece>, n: nat, m: nat, end: nat, rest: Option<Token>)
    requires us != [] && m == n + |us[0].chars| && rest == Some(Token(Meaning(us[1..]), end, Within(us[1..], m)))
    ensures Before(us[0].chars, |us[0].written| > 1 ==> m <= MAX_RECORD, rest) == Some(Token(Meaning(us), end, Within(us, n)))
  {
  }

  lemma {:induction false} PiecesFrom(
    text: string, read: (nat, nat) -> Option<Token>, p: nat, n: nat, us: seq<Piece>, end: nat)
    requires ReadsStrings(text, read) && ArePieces(us) && At(text, p, Spelling(us) + "\"") && end == p + |Spelling(us)| + 1
    ensures read(p, n) == Some(Token(Meaning(us), end, Within(us, n)))
    decreases |us|
  {
    if us == [] {
      assert Spelling(us) + "\"" == "\"";
      LastRead(text, read, p, n);
    } else {
      var q, m := p + |us[0].written|, n + |us[0].chars|;
      FirstRead(text, p, us, q);
      PieceRead(text, read, p, n, us[0], q, m);
      PiecesFrom(text, read, q, m, us[1..], end);
      PiecesJoin(us, n, m, end, read(q, m));
    }
  }

  lemma PiecesRead(text: string, p: nat, n: nat, us: seq<Piece>)
    requires ArePieces(us) && At(text, p, Spelling(us) + "\"")
    ensures StringFrom(text, p, n) == Some(Token(Meaning(us), p + |Spelling(us)| + 1, Within(us, n)))
  {
    PiecesFrom(text, (q: nat, m: nat) => StringFrom(text, q, m), p, n, us, p + |Spelling(us)| + 1);
  }

  lemma StringGoesOn(text: string, p: nat, n: nat) returns (u: Piece)
    requires StringFrom(text, p, n).Some? && text[p] != '\"'
    ensures IsPiece(u) && At(text, p, u.written) && u.written != "" && StringFrom(text, p + |u.written|, n + |u.chars|).Some?
  {
    u := PieceSays(text, p);
  }

  lemma {:induction false} StringSays(text: string, p: nat, n: nat) returns (us: seq<Piece>)
    requires StringFrom(text, p, n).Some?
    ensures ArePieces(us) && At(text, p, Spelling(us) + "\"")
    decreases |text| - p
  {
    if text[p] == '\"' {
      us := [];
    } else {
      var u := StringGoesOn(text, p, n);
      var rest := StringSays(text, p + |u.written|, n + |u.chars|);
      us := [u] + rest;
      PieceBefore(text, p, u, rest);
    }
  }

  lemma PieceBefore(text: string, p: nat, u: Piece, rest: seq<Piece>)
    requires At(text, p, u.written) && At(text, p + |u.written|, Spelling(rest) + "\"")
    ensures At(text, p, Spelling([u] + rest) + "\"")
  {
    assert ([u] + rest)[1..] == rest;
    assert Spelling([u] + rest) + "\"" == u.written + (Spelling(rest) + "\"");
    AtJoin(text, p, u.written, Spelling(rest) + "\"");
  }

  lemma AtJoin(text: string, p: nat, a: string, b: string)
    requires At(text, p, a) && At(text, p + |a|, b)
    ensures At(text, p, a + b)
  {
    assert text[p..p + |a + b|] == text[p..p + |a|] + text[p + |a|..p + |a| + |b|];
  }

  /** A token is read exactly where a quoted string stands, as what its pieces mean. */
  lemma StringExactly(text: string, p: nat, t: Token)
    ensures StringToken(text, p) == Some(t) <==> exists us :: IsStringOf(text, p, t, us)
  {
    if StringToken(text, p).Some? {
      var us := StringSays(text, p + 1, 0);
      PiecesRead(text, p + 1, 0, us);
      AtJoin(text, p, "\"", Spelling(us) + "\"");
      assert StringToken(text, p) == Some(t) ==> IsStringOf(text, p, t, us);
    }
    if us :| IsStringOf(text, p, t, us) {
      AtSplit(text, p, "\"", Spelling(us) + "\"");
      PiecesRead(text, p + 1, 0, us);
    }
  }

  ghost predicate IsStringOf(text: string, p: nat, t: Token, us: seq<Piece>) {
    && ArePieces(us) && At(text, p, "\"" + (Spelling(us) + "\""))
    && t.end == p + |Spelling(us)| + 2 && t.chars == Meaning(us) && t.fits == Within(us, 0)
  }

  // ---- what is written -----------------------------------------------------

  /** A char is written as a piece that stands for it: quotes, backslashes and control chars in
      the shortest escape they have, with digits in lower case, and everything else as it is. */
  lemma EscIsPiece(c: char)
    ensures IsPiece(Piece(Esc(c), [c]))
    ensures |Esc(c)| > 1 <==> c == '\"' || c == '\\' || c as int < 0x20
    ensures |Esc(c)| == 6 <==> c as int < 0x20 && c as int !in SHORT.Values
    ensures forall i | 0 <= i < |Esc(c)| && |Esc(c)| == 6 :: !('A' <= Esc(c)[i] <= 'F')
  {
    var e := Esc(c);
    if |e| == 6 {
      assert e == ['\\', 'u', '0', '0', HexDigit(c as int / 16), HexDigit(c as int % 16)];
      DivUnique(c as int, 16, c as int / 16, c as int % 16);
      assert Escaped(e, c as int) && Decoded([c]) == Some(c as int);
    }
    ShortValues();
  }

  lemma ShortValues()
    ensures forall n :: n in SHORT.Values <==> n in {0x22, 0x5C, 0x2F, 0x08, 0x0C, 0x0A, 0x0D, 0x09}
  {
    forall n | n in {0x22, 0x5C, 0x2F, 0x08, 0x0C, 0x0A, 0x0D, 0x09} ensures n in SHORT.Values {
      assert SHORT['\"'] == 0x22 && SHORT['\\'] == 0x5C && SHORT['/'] == 0x2F && SHORT['b'] == 0x08;
      assert SHORT['f'] == 0x0C && SHORT['n'] == 0x0A && SHORT['r'] == 0x0D && SHORT['t'] == 0x09;
    }
  }

  // ---- white space and keys ------------------------------------------------

  lemma SpaceExactly(c: char)
    ensures IsSpace(c) <==> c as int in {0x20, 0x09, 0x0A, 0x0D}
  {
  }

  /** At k the keys differ for the first time, and a has the lesser char or ends there. */
  ghost predicate LessAt(a: string, b: string, k: nat) {
    k <= |a| && k < |b| && a[..k] == b[..k] && (k < |a| ==> a[k] < b[k])
  }

  lemma {:induction false} LessFromExactly(a: string, b: string, i: nat)
    requires i <= |a| && i <= |b| && a[..i] == b[..i]
    ensures LessFrom(a, b, i) <==> exists k :: LessAt(a, b, k) && i <= k
    decreases |b| - i
  {
    if i < |a| && i < |b| && a[i] == b[i] {
      assert a[..i + 1] == a[..i] + [a[i]] && b[..i + 1] == b[..i] + [b[i]];
      LessFromExactly(a, b, i + 1);
    } else if LessFrom(a, b, i) {
      assert LessAt(a, b, i);
    }
    forall k: nat | LessAt(a, b, k) && i < k ensures i < |a| && i < |b| && a[i] == b[i] {
      assert a[..k][i] == b[..k][i];
    }
  }

  /** Keys are ordered by their first different char, and a key comes before what continues it. */
  lemma KeyLessExactly(a: string, b: string)
    ensures KeyLess(a, b) <==> exists k :: LessAt(a, b, k)
  {
    LessFromExactly(a, b, 0);
  }
}
