/** The number tokens of a JSON text, by their grammar (section 6 of RFC 8259). */
module JsonNumbers {

  import opened Common
  import opened Folds
  import opened Decimals
  import opened JsonText
  import opened JsonTokens

  /** A number as written: the fraction is empty when there is none, and so are the letter, the
      sign and the digits of the exponent. */
  datatype Literal = Literal(minus: bool, whole: string, fraction: string, letter: string, sign: string, exponent: string)

  /** No zero leads other digits; an exponent has a letter, perhaps a sign, and digits. */
  predicate IsLiteral(l: Literal) {
    && AllDigits(l.whole) && l.whole != "" && (l.whole[0] == '0' ==> l.whole == "0")
    && AllDigits(l.fraction) && AllDigits(l.exponent)
    && if l.letter == "" then l.sign == "" && l.exponent == ""
       else (l.letter == "e" || l.letter == "E") && (l.sign == "" || l.sign == "+" || l.sign == "-") && l.exponent != ""
  }

  function Minus(l: Literal): string {
    if l.minus then "-" else ""
  }

  function Point(l: Literal): string {
    if l.fraction == "" then "" else "." + l.fraction
  }

  function Power(l: Literal): string {
    l.letter + l.sign + l.exponent
  }

  function Written(l: Literal): string {
    Minus(l) + (l.whole + (Point(l) + Power(l)))
  }

  predicate IsWhole(l: Literal) {
    l.fraction == "" && l.letter == ""
  }

  /** A char that would belong to the number if it came next. */
  predicate Continues(l: Literal, c: char) {
    || (IsDigit(c) && !(IsWhole(l) && l.whole == "0"))
    || (c == '.' && IsWhole(l))
    || ((c == 'e' || c == 'E') && l.letter == "")
  }

  /** The number stands at p and takes in all that belongs to it. */
  ghost predicate Stands(text: string, p: nat, end: nat, l: Literal) {
    && IsLiteral(l) && At(text, p, Written(l)) && end == p + |Written(l)|
    && (end < |text| ==> !Continues(l, text[end]))
  }

  // ---- what stands there is read -------------------------------------------

  lemma DigitsStand(text: string, p: nat, d: string)
    requires At(text, p, d) && AllDigits(d) && d != "" && (p + |d| < |text| ==> !IsDigit(text[p + |d|]))
    ensures DigitsEnd(text, p) == p + |d| && SomeDigitsEnd(text, p) == Some(p + |d|)
  {
    AtChar(text, p, d, 0);
    DigitsEndHere(text, p, p + |d|);
  }

  /** What follows the whole part begins with a point or a letter, or not at all. */
  lemma NextPart(text: string, p: nat, rest: string, l: Literal)
    requires At(text, p, rest) && rest == Point(l) + Power(l) && IsLiteral(l)
    ensures rest == "" <==> IsWhole(l)
    ensures rest != "" ==> p < |text| && !IsDigit(text[p])
    ensures l.fraction != "" ==> p < |text| && text[p] == '.'
    ensures l.fraction == "" && l.letter != "" ==> p < |text| && text[p] == l.letter[0]
  {
    if rest != "" {
      AtChar(text, p, rest, 0);
    }
  }

  lemma WholeStands(text: string, p: nat, l: Literal, i: nat)
    requires IsLiteral(l) && At(text, p, Minus(l)) && At(text, p + |Minus(l)|, l.whole) && i == p + |Minus(l)| + |l.whole|
    requires i < |text| && IsDigit(text[i]) ==> l.whole == "0"
    ensures IntegerEnd(text, p) == Some(i)
  {
    AtChar(text, p + |Minus(l)|, l.whole, 0);
    if l.minus {
      AtChar(text, p, "-", 0);
    }
    if l.whole != "0" {
      DigitsStand(text, p + |Minus(l)|, l.whole);
    }
  }

  lemma PointStands(text: string, p: nat, l: Literal)
    requires IsLiteral(l) && At(text, p, Point(l))
    requires var q := p + |Point(l)|; q < |text| ==> !(if l.fraction == "" then text[q] == '.' else IsDigit(text[q]))
    ensures FractionEnd(text, p) == Some(p + |Point(l)|)
  {
    if l.fraction != "" {
      AtSplit(text, p, ".", l.fraction);
      DigitsStand(text, p + 1, l.fraction);
    }
  }

  lemma ThreeParts(text: string, p: nat, a: string, b: string, c: string)
    requires At(text, p, a + b + c)
    ensures At(text, p, a) && At(text, p + |a|, b) && At(text, p + |a| + |b|, c)
  {
    AtSplit(text, p, a + b, c);
    AtSplit(text, p, a, b);
  }

  lemma FourParts(text: string, p: nat, a: string, b: string, c: string, d: string)
    requires At(text, p, a + (b + (c + d)))
    ensures At(text, p, a) && At(text, p + |a|, b) && At(text, p + |a| + |b|, c + d)
    ensures At(text, p + |a| + |b|, c) && At(text, p + |a| + |b| + |c|, d)
  {
    AtSplit(text, p, a, b + (c + d));
    AtSplit(text, p + |a|, b, c + d);
    AtSplit(text, p + |a| + |b|, c, d);
  }

  /** The exponent's digits, past its letter and its sign. */
  lemma ExponentStands(text: string, p: nat, letter: string, sign: string, digits: string, e: nat)
    requires At(text, p, letter) && At(text, p + 1, sign) && At(text, p + 1 + |sign|, digits) && e == p + 1 + |sign| + |digits|
    requires (letter == "e" || letter == "E") && (sign == "" || sign == "+" || sign == "-")
    requires AllDigits(digits) && digits != "" && (e < |text| ==> !IsDigit(text[e]))
    ensures ExponentEnd(text, p) == Some(e)
  {
    AtChar(text, p, letter, 0);
    AtChar(text, p + 1 + |sign|, digits, 0);
    if sign != "" {
      AtChar(text, p + 1, sign, 0);
    }
    DigitsStand(text, p + 1 + |sign|, digits);
  }

  lemma PowerStands(text: string, p: nat, l: Literal)
    requires IsLiteral(l) && At(text, p, Power(l))
    requires var q := p + |Power(l)|; q < |text| ==>
      !(if l.letter == "" then text[q] == 'e' || text[q] == 'E' else IsDigit(text[q]))
    ensures ExponentEnd(text, p) == Some(p + |Power(l)|)
  {
    if l.letter != "" {
      ThreeParts(text, p, l.letter, l.sign, l.exponent);
      ExponentStands(text, p, l.letter, l.sign, l.exponent, p + |Power(l)|);
    }
  }

  /** What comes after the fraction does not belong to it. */
  lemma AfterPoint(text: string, i: nat, end: nat, l: Literal)
    requires IsLiteral(l) && At(text, i + |Point(l)|, Power(l)) && end == i + |Point(l)| + |Power(l)|
    requires end < |text| ==> !Continues(l, text[end])
    ensures var q := i + |Point(l)|; q < |text| ==> !(if l.fraction == "" then text[q] == '.' else IsDigit(text[q]))
  {
    if l.letter != "" {
      AtChar(text, i + |Point(l)|, Power(l), 0);
    }
  }

  /** What comes after the whole part does not belong to it. */
  lemma AfterWhole(text: string, i: nat, end: nat, l: Literal)
    requires IsLiteral(l) && At(text, i, Point(l) + Power(l)) && end == i + |Point(l) + Power(l)|
    requires end < |text| ==> !Continues(l, text[end])
    ensures i < |text| && IsDigit(text[i]) ==> l.whole == "0"
  {
    NextPart(text, i, Point(l) + Power(l), l);
  }

  lemma SpanFrom(text: string, p: nat, i: nat, f: nat, e: nat)
    requires i <= f <= e && IntegerEnd(text, p) == Some(i) && i <= |text| && FractionEnd(text, i) == Some(f)
    requires f <= |text| && ExponentEnd(text, f) == Some(e)
    ensures NumberSpan(text, p) == Some(Span(e, e == i))
  {
  }

  lemma PartsStand(text: string, p: nat, end: nat, l: Literal, i: nat, f: nat)
    requires Stands(text, p, end, l) && i == p + |Minus(l)| + |l.whole| && f == i + |Point(l)|
    ensures At(text, p, Minus(l)) && At(text, p + |Minus(l)|, l.whole) && At(text, i, Point(l) + Power(l))
    ensures At(text, i, Point(l)) && At(text, f, Power(l)) && f <= end == f + |Power(l)|
  {
    FourParts(text, p, Minus(l), l.whole, Point(l), Power(l));
  }

  lemma WholeRead(text: string, p: nat, end: nat, l: Literal, i: nat, f: nat)
    requires Stands(text, p, end, l) && i == p + |Minus(l)| + |l.whole| && f == i + |Point(l)|
    ensures IntegerEnd(text, p) == Some(i) && i <= |text|
  {
    PartsStand(text, p, end, l, i, f);
    AfterWhole(text, i, end, l);
    WholeStands(text, p, l, i);
  }

  lemma RestRead(text: string, p: nat, end: nat, l: Literal, i: nat, f: nat)
    requires Stands(text, p, end, l) && i == p + |Minus(l)| + |l.whole| && f == i + |Point(l)|
    ensures i <= |text| && FractionEnd(text, i) == Some(f) && f <= |text| && ExponentEnd(text, f) == Some(end) && f <= end
  {
    PartsStand(text, p, end, l, i, f);
    AfterPoint(text, i, end, l);
    PointStands(text, i, l);
    PowerStands(text, f, l);
  }

  /** A number that stands there is read. */
  lemma StandingIsRead(text: string, p: nat, end: nat, l: Literal)
    requires Stands(text, p, end, l)
    ensures NumberSpan(text, p) == Some(Span(end, IsWhole(l)))
  {
    var i := p + |Minus(l)| + |l.whole|;
    var f := i + |Point(l)|;
    WholeRead(text, p, end, l, i, f);
    RestRead(text, p, end, l, i, f);
    SpanFrom(text, p, i, f, end);
  }

  // ---- what is read stands there -------------------------------------------

  ghost predicate WholeAt(text: string, p: nat, i: nat, minus: bool, whole: string) {
    && AllDigits(whole) && whole != "" && (whole[0] == '0' ==> whole == "0")
    && At(text, p, if minus then "-" else "") && At(text, p + if minus then 1 else 0, whole)
    && i == (p + if minus then 1 else 0) + |whole|
    && (i < |text| && IsDigit(text[i]) ==> whole == "0")
  }

  ghost predicate PointAt(text: string, p: nat, f: nat, fraction: string) {
    && AllDigits(fraction)
    && At(text, p, if fraction == "" then "" else "." + fraction) && f == p + |if fraction == "" then "" else "." + fraction|
    && (f < |text| ==> !(if fraction == "" then text[f] == '.' else IsDigit(text[f])))
  }

  ghost predicate PowerAt(text: string, p: nat, e: nat, letter: string, sign: string, digits: string) {
    && AllDigits(digits) && At(text, p, letter + sign + digits) && e == p + |letter + sign + digits|
    && (e < |text| ==> !(if letter == "" then text[e] == 'e' || text[e] == 'E' else IsDigit(text[e])))
    && if letter == "" then sign == "" && digits == ""
       else (letter == "e" || letter == "E") && (sign == "" || sign == "+" || sign == "-") && digits != ""
  }

  lemma WholeSays(text: string, p: nat, i: nat) returns (minus: bool, whole: string)
    requires IntegerEnd(text, p) == Some(i)
    ensures WholeAt(text, p, i, minus, whole)
  {
    minus := text[p] == '-';
    whole := text[if minus then p + 1 else p..i];
  }

  lemma FractionSays(text: string, p: nat, f: nat) returns (fraction: string)
    requires p <= |text| && FractionEnd(text, p) == Some(f)
    ensures PointAt(text, p, f, fraction)
  {
    fraction := if f == p then "" else text[p + 1..f];
    if f != p {
      assert text[p..f] == "." + fraction;
    }
  }

  lemma SliceThree(text: string, p: nat, q: nat, r: nat, e: nat)
    requires p <= q <= r <= e <= |text|
    ensures text[p..e] == text[p..q] + text[q..r] + text[r..e]
  {
  }

  lemma ExponentSays(text: string, p: nat, e: nat) returns (letter: string, sign: string, digits: string)
    requires p <= |text| && ExponentEnd(text, p) == Some(e)
    ensures PowerAt(text, p, e, letter, sign, digits)
  {
    if e == p {
      letter, sign, digits := "", "", "";
    } else {
      var q := if text[p + 1] == '+' || text[p + 1] == '-' then p + 2 else p + 1;
      letter, sign, digits := [text[p]], text[p + 1..q], text[q..e];
      SliceThree(text, p, p + 1, q, e);
    }
  }

  lemma JoinParts(text: string, p: nat, a: string, b: string, c: string, d: string)
    requires At(text, p, a) && At(text, p + |a|, b) && At(text, p + |a| + |b|, c) && At(text, p + |a| + |b| + |c|, d)
    ensures At(text, p, a + (b + (c + d)))
  {
    assert text[p..p + |a| + |b| + |c| + |d|] == text[p..p + |a|] + (text[p + |a|..p + |a| + |b|]
      + (text[p + |a| + |b|..p + |a| + |b| + |c|] + text[p + |a| + |b| + |c|..p + |a| + |b| + |c| + |d|]));
  }

  /** The parts follow one another, and what comes next belongs to none of them. */
  lemma Assembled(text: string, p: nat, l: Literal, i: nat, f: nat, e: nat)
    requires WholeAt(text, p, i, l.minus, l.whole) && PointAt(text, i, f, l.fraction)
    requires PowerAt(text, f, e, l.letter, l.sign, l.exponent)
    ensures Stands(text, p, e, l) && (e == i <==> IsWhole(l))
  {
    JoinParts(text, p, Minus(l), l.whole, Point(l), Power(l));
    EndsThere(text, l, i, f, e);
  }

  lemma EndsThere(text: string, l: Literal, i: nat, f: nat, e: nat)
    requires IsLiteral(l) && f == i + |Point(l)| && e == f + |Power(l)|
    requires i < |text| && IsDigit(text[i]) ==> l.whole == "0"
    requires f < |text| ==> !(if l.fraction == "" then text[f] == '.' else IsDigit(text[f]))
    requires e < |text| ==> !(if l.letter == "" then text[e] == 'e' || text[e] == 'E' else IsDigit(text[e]))
    ensures e < |text| ==> !Continues(l, text[e])
  {
    assert l.letter == "" ==> e == f;
    assert l.fraction == "" ==> f == i;
  }

  /** Whatever is read as a number stands there as one. */
  lemma ReadStands(text: string, p: nat) returns (l: Literal)
    requires NumberSpan(text, p).Some?
    ensures Stands(text, p, NumberSpan(text, p).value.end, l) && NumberSpan(text, p).value.integer == IsWhole(l)
  {
    var i := IntegerEnd(text, p).value;
    var f := FractionEnd(text, i).value;
    var e := ExponentEnd(text, f).value;
    var minus, whole := WholeSays(text, p, i);
    var fraction := FractionSays(text, i, f);
    var letter, sign, digits := ExponentSays(text, f, e);
    l := Literal(minus, whole, fraction, letter, sign, digits);
    Assembled(text, p, l, i, f, e);
  }

  /** A number token is read exactly where a number of the grammar stands that takes in all that
      belongs to it. */
  lemma SpanExactly(text: string, p: nat, end: nat, integer: bool)
    ensures NumberSpan(text, p) == Some(Span(end, integer)) <==> exists l :: Stands(text, p, end, l) && integer == IsWhole(l)
  {
    if NumberSpan(text, p).Some? {
      var l := ReadStands(text, p);
    }
    if l :| Stands(text, p, end, l) && integer == IsWhole(l) {
      StandingIsRead(text, p, end, l);
    }
  }

  function NumberIn(l: Literal): int {
    if l.minus then -ValueOf(l.whole) else ValueOf(l.whole)
  }

  /** A whole number within 64 bits, signed or unsigned, is that number; any other literal is a
      double, when it is finite. */
  predicate Means(l: Literal, finite: string -> bool, v: Json) {
    if IsWhole(l) && -0x8000_0000_0000_0000 <= NumberIn(l) < 0x1_0000_0000_0000_0000 then v == Num(NumberIn(l))
    else finite(Written(l)) && v == Double(Written(l))
  }

  lemma WholeValue(l: Literal, literal: string)
    requires IsLiteral(l) && IsWhole(l) && literal == Written(l)
    ensures literal != [] && (literal[0] == '-' <==> l.minus)
    ensures NumberIn(l) == if l.minus then -ValueOf(literal[1..]) else ValueOf(literal)
  {
    assert Point(l) + Power(l) == "";
    assert literal == Minus(l) + l.whole;
    if l.minus {
      assert literal[1..] == l.whole;
    } else {
      assert literal == l.whole && IsDigit(literal[0]);
    }
  }

  lemma ValueMeans(literal: string, integer: bool, n: int, finite: string -> bool, v: Json)
    requires literal != [] && (integer ==> n == if literal[0] == '-' then -ValueOf(literal[1..]) else ValueOf(literal))
    requires integer ==> if literal[0] == '-' then n <= 0 else n >= 0
    ensures NumberOf(literal, integer, finite) == Ok(v) <==>
      if integer && -0x8000_0000_0000_0000 <= n < 0x1_0000_0000_0000_0000 then v == Num(n) else finite(literal) && v == Double(literal)
  {
  }

  lemma LiteralMeans(l: Literal, literal: string, finite: string -> bool, v: Json)
    requires IsLiteral(l) && literal == Written(l)
    ensures literal != [] && (NumberOf(literal, IsWhole(l), finite) == Ok(v) <==> Means(l, finite, v))
  {
    ValueOfBounds(l.whole);
    if IsWhole(l) {
      WholeValue(l, literal);
    }
    ValueMeans(literal, IsWhole(l), NumberIn(l), finite, v);
  }

  lemma NumberHere(text: string, p: nat, end: nat, l: Literal, v: Json, finite: string -> bool)
    requires Stands(text, p, end, l)
    ensures IsNumber(text, p, end, v, finite) <==> Means(l, finite, v)
  {
    StandingIsRead(text, p, end, l);
    LiteralMeans(l, text[p..end], finite, v);
  }

  /** A number is read exactly where one stands, as what it means. */
  lemma NumberExactly(text: string, p: nat, end: nat, v: Json, finite: string -> bool)
    ensures IsNumber(text, p, end, v, finite) <==> exists l :: Stands(text, p, end, l) && Means(l, finite, v)
  {
    if IsNumber(text, p, end, v, finite) {
      var l := ReadStands(text, p);
      NumberHere(text, p, end, l, v, finite);
    }
    if l :| Stands(text, p, end, l) && Means(l, finite, v) {
      NumberHere(text, p, end, l, v, finite);
    }
  }
}
