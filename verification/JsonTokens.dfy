/** The tokens of a JSON text: strings with their escapes, and numbers. */
module JsonTokens {

  import opened Arith
  import opened Common
  import opened Folds
  import opened Decimals
  import opened JsonText

  predicate IsSpace(c: char) {
    c == ' ' || c == '\t' || c == '\n' || c == '\r'
  }

  /** The part sits in the text at p. */
  ghost predicate At(text: string, p: nat, part: string) {
    p + |part| <= |text| && text[p..p + |part|] == part
  }

  lemma AtSplit(text: string, p: nat, a: string, b: string)
    requires At(text, p, a + b)
    ensures At(text, p, a) && At(text, p + |a|, b)
    ensures forall i | 0 <= i < |a| :: text[p + i] == a[i]
  {
    var whole := text[p..p + |a + b|];
    assert text[p..p + |a|] == whole[..|a|] && text[p + |a|..p + |a + b|] == whole[|a|..];
    forall i | 0 <= i < |a| ensures text[p + i] == a[i] {
      assert whole[i] == (a + b)[i];
    }
  }

  lemma AtChar(text: string, p: nat, part: string, i: nat)
    requires At(text, p, part) && i < |part|
    ensures text[p + i] == part[i]
  {
    assert text[p..p + |part|][i] == part[i];
  }

  // ---- escapes -------------------------------------------------------------

  function HexValue(c: char): (d: Option<nat>)
    ensures d.Some? ==> d.value < 16
  {
    if '0' <= c <= '9' then Some(c as int - '0' as int)
    else if 'a' <= c <= 'f' then Some(c as int - 'a' as int + 10)
    else if 'A' <= c <= 'F' then Some(c as int - 'A' as int + 10)
    else None
  }

  function Hex4(text: string, p: nat): (code: Option<nat>)
    requires p + 4 <= |text|
    ensures code.Some? ==> code.value < 0x10000
  {
    var (a, b, c, d) := (HexValue(text[p]), HexValue(text[p + 1]), HexValue(text[p + 2]), HexValue(text[p + 3]));
    if a.None? || b.None? || c.None? || d.None? then None
    else Some(((a.value * 16 + b.value) * 16 + c.value) * 16 + d.value)
  }

  /** The bytes of a code point, one per char. */
  function Utf8(code: nat): string
    requires code < 0x110000
  {
    if code < 0x80 then [code as char]
    else if code < 0x800 then [(0xC0 + code / 64) as char, (0x80 + code % 64) as char]
    else if code < 0x10000 then [(0xE0 + code / 4096) as char, (0x80 + code / 64 % 64) as char, (0x80 + code % 64) as char]
    else [(0xF0 + code / 262144) as char, (0x80 + code / 4096 % 64) as char, (0x80 + code / 64 % 64) as char, (0x80 + code % 64) as char]
  }

  function Simple(c: char): Option<char> {
    match c
    case '\"' => Some('\"')
    case '\\' => Some('\\')
    case '/' => Some('/')
    case 'b' => Some(8 as char)
    case 'f' => Some(12 as char)
    case 'n' => Some(10 as char)
    case 'r' => Some(13 as char)
    case 't' => Some(9 as char)
    case _ => None
  }

  /** What follows a backslash at p - 1: the chars it stands for, and where it ends. */
  function EscapeAt(text: string, p: nat): (r: Option<(string, nat)>)
    requires p <= |text|
    ensures r.Some? ==> p < r.value.1 <= |text|
  {
    if p == |text| then None
    else if text[p] == 'u' then UnicodeAt(text, p + 1)
    else if Simple(text[p]).Some? then Some(([Simple(text[p]).value], p + 1))
    else None
  }

  function UnicodeAt(text: string, p: nat): (r: Option<(string, nat)>)
    requires p <= |text|
    ensures r.Some? ==> p < r.value.1 <= |text|
  {
    if p + 4 > |text| || Hex4(text, p).None? then None
    else
      var code := Hex4(text, p).value;
      if 0xD800 <= code <= 0xDBFF then
        if p + 10 > |text| || text[p + 4] != '\\' || text[p + 5] != 'u' || Hex4(text, p + 6).None? then None
        else
          var low := Hex4(text, p + 6).value;
          if low < 0xDC00 || low > 0xDFFF then None
          else Some((Utf8(0x10000 + (code - 0xD800) * 1024 + (low - 0xDC00)), p + 10))
      else if 0xDC00 <= code <= 0xDFFF then None
      else Some((Utf8(code), p + 4))
  }

  /** An escaped char is read back. */
  lemma EscapeRead(text: string, p: nat, c: char)
    requires At(text, p, Esc(c)) && Esc(c) != [c]
    ensures text[p] == '\\' && EscapeAt(text, p + 1) == Some(([c], p + |Esc(c)|))
  {
    AtChar(text, p, Esc(c), 0);
    AtChar(text, p, Esc(c), 1);
    if |Esc(c)| == 6 {
      UnicodeRead(text, p, c);
    }
  }

  lemma UnicodeRead(text: string, p: nat, c: char)
    requires At(text, p, Esc(c)) && |Esc(c)| == 6
    ensures text[p + 1] == 'u' && UnicodeAt(text, p + 2) == Some(([c], p + 6))
  {
    var (high, low) := (HexDigit(c as int / 16), HexDigit(c as int % 16));
    var e := Esc(c);
    assert e == ['\\', 'u', '0', '0', high, low];
    AtChar(text, p, e, 1);
    AtChar(text, p, e, 2);
    AtChar(text, p, e, 3);
    AtChar(text, p, e, 4);
    AtChar(text, p, e, 5);
    HexRead(c as int / 16);
    HexRead(c as int % 16);
    HexZero();
    DivMod(c as int, 16);
  }

  lemma HexZero()
    ensures HexValue('0') == Some(0)
  {
  }

  lemma HexRead(d: nat)
    requires d < 16
    ensures HexValue(HexDigit(d)) == Some(d)
  {
  }

  lemma EscFirst(c: char)
    ensures Esc(c)[0] != '\"' && Esc(c)[0] as int >= 32
    ensures Esc(c)[0] == '\\' <==> Esc(c) != [c]
  {
  }

  // ---- strings -------------------------------------------------------------

  /** The rest of a string: the chars it stands for, where it ends, and whether every escape in
      it comes within the size budget. */
  datatype Token = Token(chars: string, end: nat, fits: bool)

  function Before(chars: string, fits: bool, rest: Option<Token>): Option<Token> {
    if rest.None? then None else Some(Token(chars + rest.value.chars, rest.value.end, fits && rest.value.fits))
  }

  /** Inside a string, after n chars: plain chars and escapes up to the closing quote. */
  function StringFrom(text: string, p: nat, n: nat): (r: Option<Token>)
    ensures r.Some? ==> p < r.value.end <= |text|
    decreases |text| - p
  {
    if p >= |text| then None
    else if text[p] == '\"' then Some(Token("", p + 1, true))
    else if text[p] == '\\' then
      var e := EscapeAt(text, p + 1);
      if e.None? then None
      else Before(e.value.0, n + |e.value.0| <= MAX_RECORD, StringFrom(text, e.value.1, n + |e.value.0|))
    else if text[p] as int < 32 then None
    else Before([text[p]], true, StringFrom(text, p + 1, n + 1))
  }

  function StringToken(text: string, p: nat): (r: Option<Token>)
    ensures r.Some? ==> p < r.value.end <= |text|
  {
    if p < |text| && text[p] == '\"' then StringFrom(text, p + 1, 0) else None
  }

  /** Inside a quoted string, before its i-th char. */
  ghost predicate InString(text: string, p: nat, s: string, i: nat) {
    i <= |s| && At(text, p, Escapes(s[i..]) + "\"")
  }

  lemma StringOpens(text: string, p: nat, s: string)
    requires At(text, p, Quoted(s))
    ensures p < |text| && text[p] == '\"' && InString(text, p + 1, s, 0)
    ensures p + 1 + |Escapes(s[0..])| + 1 == p + |Quoted(s)|
  {
    AtSplit(text, p, "\"", Escapes(s) + "\"");
    AtChar(text, p, "\"", 0);
    assert s[0..] == s;
  }

  /** Inside a quoted string: either its end, or the next char as it is written. */
  lemma NextUnit(text: string, p: nat, s: string, i: nat)
    requires InString(text, p, s, i)
    ensures p < |text| && (text[p] == '\"' <==> i == |s|)
    ensures i < |s| ==> text[p] as int >= 32 && (text[p] != '\\' ==> text[p] == s[i] && |Esc(s[i])| == 1)
    ensures i < |s| && text[p] == '\\' ==> Esc(s[i]) != [s[i]] && EscapeAt(text, p + 1) == Some(([s[i]], p + |Esc(s[i])|))
    ensures i < |s| ==> InString(text, p + |Esc(s[i])|, s, i + 1)
                        && |Escapes(s[i..])| == |Esc(s[i])| + |Escapes(s[i + 1..])|
  {
    if i == |s| {
      assert Escapes(s[i..]) + "\"" == "\"";
      AtChar(text, p, "\"", 0);
    } else {
      var (e, rest) := (Esc(s[i]), Escapes(s[i + 1..]) + "\"");
      assert s[i..][1..] == s[i + 1..] && s[i..][0] == s[i];
      assert Escapes(s[i..]) + "\"" == e + rest;
      AtSplit(text, p, e, rest);
      AtChar(text, p, e, 0);
      EscFirst(s[i]);
      if e != [s[i]] {
        EscapeRead(text, p, s[i]);
      }
    }
  }

  predicate ReadableFrom(s: string, i: nat) {
    forall k | i <= k < |s| && k >= MAX_RECORD :: Esc(s[k]) == [s[k]]
  }

  /** read tells what StringFrom gives, without opening it up. */
  ghost predicate ReadsStrings(text: string, read: (nat, nat) -> Option<Token>) {
    forall p: nat, n: nat {:trigger StringFrom(text, p, n)} :: read(p, n) == StringFrom(text, p, n)
  }

  /** One char on: what is read from p is that char, and what is read after it. */
  lemma UnitRead(text: string, read: (nat, nat) -> Option<Token>, p: nat, s: string, i: nat, q: nat)
    requires ReadsStrings(text, read) && InString(text, p, s, i) && i < |s| && q == p + |Esc(s[i])|
    ensures read(p, i) == Before([s[i]], Esc(s[i]) == [s[i]] || i < MAX_RECORD, read(q, i + 1))
  {
    NextUnit(text, p, s, i);
    if text[p] != '\\' {
      assert Esc(s[i]) == [s[i]];
    }
    assert read(p, i) == StringFrom(text, p, i) && read(q, i + 1) == StringFrom(text, q, i + 1);
  }

  lemma UnitJoins(s: string, i: nat, end: nat, rest: Option<Token>)
    requires i < |s| && rest == Some(Token(s[i + 1..], end, ReadableFrom(s, i + 1)))
    ensures Before([s[i]], Esc(s[i]) == [s[i]] || i < MAX_RECORD, rest) == Some(Token(s[i..], end, ReadableFrom(s, i)))
  {
    assert s[i..] == [s[i]] + s[i + 1..];
  }

  lemma EndRead(text: string, read: (nat, nat) -> Option<Token>, p: nat, s: string)
    requires ReadsStrings(text, read) && InString(text, p, s, |s|)
    ensures read(p, |s|) == Some(Token(s[|s|..], p + 1, ReadableFrom(s, |s|))) && Escapes(s[|s|..]) == ""
  {
    NextUnit(text, p, s, |s|);
    assert read(p, |s|) == StringFrom(text, p, |s|);
  }

  lemma {:induction false} EscapesRead(text: string, read: (nat, nat) -> Option<Token>, p: nat, s: string, i: nat, end: nat)
    requires ReadsStrings(text, read) && InString(text, p, s, i) && end == p + |Escapes(s[i..])| + 1
    ensures read(p, i) == Some(Token(s[i..], end, ReadableFrom(s, i)))
    decreases |s| - i
  {
    if i == |s| {
      EndRead(text, read, p, s);
    } else {
      NextUnit(text, p, s, i);
      var q := p + |Esc(s[i])|;
      UnitRead(text, read, p, s, i, q);
      EscapesRead(text, read, q, s, i + 1, end);
      UnitJoins(s, i, end, read(q, i + 1));
    }
  }

  lemma WholeToken(s: string, end: nat, t: Option<Token>)
    requires t == Some(Token(s[0..], end, ReadableFrom(s, 0)))
    ensures t == Some(Token(s, end, Readable(s)))
  {
    assert s[0..] == s;
  }

  lemma InsideRead(text: string, read: (nat, nat) -> Option<Token>, p: nat, s: string, end: nat)
    requires ReadsStrings(text, read) && At(text, p, Quoted(s)) && end == p + |Quoted(s)|
    ensures p < |text| && text[p] == '\"' && read(p + 1, 0) == Some(Token(s, end, Readable(s)))
  {
    StringOpens(text, p, s);
    EscapesRead(text, read, p + 1, s, 0, end);
    WholeToken(s, end, read(p + 1, 0));
  }

  lemma TokenOpens(text: string, p: nat, t: Option<Token>)
    requires p < |text| && text[p] == '\"' && StringFrom(text, p + 1, 0) == t
    ensures StringToken(text, p) == t
  {
  }

  /** A quoted string is a token for its chars; the budget refuses exactly an escaped char past it. */
  lemma QuotedRead(text: string, p: nat, s: string, end: nat)
    requires At(text, p, Quoted(s)) && end == p + |Quoted(s)|
    ensures StringToken(text, p) == Some(Token(s, end, Readable(s)))
  {
    InsideRead(text, (q: nat, n: nat) => StringFrom(text, q, n), p, s, end);
    TokenOpens(text, p, StringFrom(text, p + 1, 0));
  }

  // ---- numbers -------------------------------------------------------------

  predicate NumberEnds(text: string, p: nat) {
    p >= |text| || !(IsDigit(text[p]) || text[p] == '.' || text[p] == 'e' || text[p] == 'E')
  }

  /** The number an integer literal denotes: an integer when 64 bits hold it. */
  function IntegerOf(literal: string): Option<Json>
    requires literal != []
  {
    var n := if literal[0] == '-' then -ValueOf(literal[1..]) else ValueOf(literal);
    if FitsI64(n) || (literal[0] != '-' && FitsU64(n)) then Some(Num(n)) else None
  }

  lemma {:induction false} DecimalLead(n: nat)
    ensures Decimal(n)[0] == '0' <==> n == 0
    ensures n == 0 ==> |Decimal(n)| == 1
  {
    if n >= 10 {
      DecimalLead(n / 10);
      DivMod(n, 10);
    }
  }

  lemma IntegerRead(n: int)
    requires I64_MIN <= n <= U64_MAX
    ensures IntText(n) != [] && IntegerOf(IntText(n)) == Some(Num(n))
  {
    ValueOfDecimal(Magnitude(n));
    SignedRead(n, Sign(n), Decimal(Magnitude(n)));
  }

  lemma SignedRead(n: int, sign: string, d: string)
    requires I64_MIN <= n <= U64_MAX
    requires sign == (if n < 0 then "-" else "") && d != [] && d[0] != '-' && ValueOf(d) == Magnitude(n)
    ensures IntegerOf(sign + d) == Some(Num(n))
  {
    if n < 0 {
      assert (sign + d)[1..] == d;
    } else {
      assert sign + d == d;
    }
  }

  // ---- numbers in the text -------------------------------------------------

  ghost predicate NumberAt(text: string, p: nat, n: int) {
    I64_MIN <= n <= U64_MAX && At(text, p, IntText(n)) && NumberEnds(text, p + |IntText(n)|)
  }

  /** A double for what is not a 64-bit integer, unless it is not finite. */
  function NumberOf(literal: string, integer: bool, finite: string -> bool): Result<Json, ErrorCode>
    requires literal != []
  {
    if integer && IntegerOf(literal).Some? then Ok(IntegerOf(literal).value)
    else if finite(literal) then Ok(Double(literal))
    else Err(MalformedJson)
  }

  lemma NumberOpens(text: string, p: nat, n: int)
    requires NumberAt(text, p, n)
    ensures p < |text| && (text[p] == '-' <==> n < 0)
    ensures var q := p + |Sign(n)|;
      q < |text| && IsDigit(text[q]) && (text[q] == '0' <==> n == 0)
      && (n == 0 ==> |IntText(n)| == 1) && DigitsEnd(text, q) == p + |IntText(n)|
  {
    var d := Decimal(Magnitude(n));
    DecimalLead(Magnitude(n));
    SignedDigits(text, p, Sign(n), d);
  }

  lemma NumberRead(text: string, p: nat, n: int, finite: string -> bool)
    requires NumberAt(text, p, n)
    ensures text[p..p + |IntText(n)|] != [] && NumberOf(text[p..p + |IntText(n)|], true, finite) == Ok(Num(n))
  {
    IntegerRead(n);
  }

  lemma SignedDigits(text: string, p: nat, sign: string, d: string)
    requires At(text, p, sign + d) && NumberEnds(text, p + |sign + d|)
    requires (sign == "-" || sign == "") && AllDigits(d) && d != []
    ensures p + |sign| < |text| && (text[p] == '-' <==> sign == "-") && text[p + |sign|] == d[0]
    ensures DigitsEnd(text, p + |sign|) == p + |sign + d|
  {
    AtSplit(text, p, sign, d);
    AtChar(text, p, sign + d, 0);
    AtChar(text, p + |sign|, d, 0);
    DigitsShown(text, p + |sign|, d);
  }

  lemma DigitsShown(text: string, q: nat, d: string)
    requires At(text, q, d) && AllDigits(d) && NumberEnds(text, q + |d|)
    ensures DigitsEnd(text, q) == q + |d|
  {
    DigitsEndHere(text, q, q + |d|);
  }

  // ---- number tokens -------------------------------------------------------

  /** The end of a sign and a zero or a run of digits. */
  function IntegerEnd(text: string, p: nat): (e: Option<nat>)
    ensures e.Some? ==> p < e.value <= |text|
  {
    var q := if p < |text| && text[p] == '-' then p + 1 else p;
    if q >= |text| || !IsDigit(text[q]) then None
    else if text[q] == '0' then Some(q + 1)
    else Some(DigitsEnd(text, q))
  }

  /** The end of the digits from p on: at least one. */
  function SomeDigitsEnd(text: string, p: nat): (e: Option<nat>)
    ensures e.Some? ==> p < e.value <= |text|
  {
    if p < |text| && IsDigit(text[p]) then Some(DigitsEnd(text, p)) else None
  }

  function FractionEnd(text: string, p: nat): (e: Option<nat>)
    requires p <= |text|
    ensures e.Some? ==> p <= e.value <= |text|
  {
    if p < |text| && text[p] == '.' then SomeDigitsEnd(text, p + 1) else Some(p)
  }

  function ExponentEnd(text: string, p: nat): (e: Option<nat>)
    requires p <= |text|
    ensures e.Some? ==> p <= e.value <= |text|
  {
    if p < |text| && (text[p] == 'e' || text[p] == 'E') then
      SomeDigitsEnd(text, if p + 1 < |text| && (text[p + 1] == '+' || text[p + 1] == '-') then p + 2 else p + 1)
    else Some(p)
  }

  datatype Span = Span(end: nat, integer: bool)

  /** A number takes in all that can belong to it. */
  function NumberSpan(text: string, p: nat): (s: Option<Span>)
    ensures s.Some? ==> p < s.value.end <= |text|
  {
    var i := IntegerEnd(text, p);
    if i.None? then None
    else
      var f := FractionEnd(text, i.value);
      if f.None? then None
      else
        var e := ExponentEnd(text, f.value);
        if e.None? then None else Some(Span(e.value, e.value == i.value))
  }

  lemma IntegerSpan(text: string, p: nat, n: int)
    requires NumberAt(text, p, n)
    ensures NumberSpan(text, p) == Some(Span(p + |IntText(n)|, true))
  {
    NumberOpens(text, p, n);
  }

  /** Whether a text from p on is a number, and which. */
  ghost predicate IsNumber(text: string, p: nat, end: nat, v: Json, finite: string -> bool) {
    && NumberSpan(text, p).Some? && end == NumberSpan(text, p).value.end
    && NumberOf(text[p..end], NumberSpan(text, p).value.integer, finite) == Ok(v)
  }
}
