/** Reading and writing instants as text (section 5.6 of RFC 3339). */
module Timestamp {

  import opened Arith
  import opened Common
  import opened Decimals
  import opened Calendar

  const NANOS: int := 1_000_000_000
  const DAY: int := 86400
  const MAX_LENGTH: nat := 64

  const MAX_SECONDS: int := 9223372036
  const MIN_SECONDS: int := -9223372036
  const MAX_FRACTION: int := 854775807
  const MIN_FRACTION: int := 145224192

  // ---- what a text says ----------------------------------------------------

  /** The parts of an instant as written: local time, fraction in nanoseconds, offset in seconds. */
  datatype Stamp = Stamp(date: Date, hour: int, minute: int, second: int, fraction: int, offset: int)

  predicate IsStamp(s: Stamp) {
    && IsDate(s.date) && 0 <= s.date.year <= 9999
    && 0 <= s.hour <= 23 && 0 <= s.minute <= 59 && 0 <= s.second <= 59
    && 0 <= s.fraction < NANOS && -DAY < s.offset < DAY
  }

  function LocalSeconds(s: Stamp): int
    requires IsDate(s.date)
  {
    DaysFromCivil(s.date) * DAY + s.hour * 3600 + s.minute * 60 + s.second
  }

  /** The instant meant, in nanoseconds, whether or not it fits. */
  function InstantOf(s: Stamp): int
    requires IsDate(s.date)
  {
    (LocalSeconds(s) - s.offset) * NANOS + s.fraction
  }

  function NumberAt(text: string, i: nat, n: nat): Option<int>
    requires i + n <= |text|
  {
    if AllDigits(text[i..i + n]) then Some(ValueOf(text[i..i + n])) else None
  }

  /** The fraction, in nanoseconds, and where it ends. */
  function FractionAt(text: string, i: nat): Option<(int, nat)>
    requires i <= |text|
  {
    if i < |text| && text[i] == '.' then
      var e := DigitsEnd(text, i + 1);
      var digits := e - (i + 1);
      if digits == 0 || digits > 9 then None
      else Some((ValueOf(text[i + 1..e]) * Pow10(9 - digits), e))
    else Some((0, i))
  }

  /** The zone, in seconds, when it ends the text. */
  function ZoneAt(text: string, i: nat): Option<int>
    requires i <= |text|
  {
    if i == |text| then None
    else if text[i] == 'Z' || text[i] == 'z' then if i + 1 == |text| then Some(0) else None
    else if (text[i] == '+' || text[i] == '-') && i + 6 == |text| && text[i + 3] == ':' then
      var (hours, minutes) := (NumberAt(text, i + 1, 2), NumberAt(text, i + 4, 2));
      if hours.None? || minutes.None? || hours.value > 23 || minutes.value > 59 then None
      else
        var offset := hours.value * 3600 + minutes.value * 60;
        Some(if text[i] == '-' then -offset else offset)
    else None
  }

  predicate Separated(text: string) {
    && 20 <= |text| <= MAX_LENGTH && text[4] == '-' && text[7] == '-' && text[13] == ':' && text[16] == ':'
    && (text[10] == 'T' || text[10] == 't' || text[10] == ' ')
  }

  /** The date and time of day, without fraction and zone. */
  function ClockOf(text: string): Option<Stamp>
    requires Separated(text)
  {
    var (year, month, day) := (NumberAt(text, 0, 4), NumberAt(text, 5, 2), NumberAt(text, 8, 2));
    var (hour, minute, second) := (NumberAt(text, 11, 2), NumberAt(text, 14, 2), NumberAt(text, 17, 2));
    if year.None? || month.None? || day.None? || hour.None? || minute.None? || second.None? then None
    else
      var date := Date(year.value, month.value, day.value);
      if !IsDate(date) || hour.value > 23 || minute.value > 59 || second.value > 59 then None
      else Some(Stamp(date, hour.value, minute.value, second.value, 0, 0))
  }

  /** What the text says, if it is a timestamp at all. */
  function StampOf(text: string): Option<Stamp> {
    if !Separated(text) then None
    else
      var clock, fraction := ClockOf(text), FractionAt(text, 19);
      if clock.None? || fraction.None? then None
      else
        var zone := ZoneAt(text, fraction.value.1);
        if zone.None? then None
        else Some(clock.value.(fraction := fraction.value.0, offset := zone.value))
  }

  lemma NumberBounds(text: string, i: nat, n: nat)
    requires i + n <= |text|
    ensures NumberAt(text, i, n).Some? ==> 0 <= NumberAt(text, i, n).value < Pow10(n)
  {
    if AllDigits(text[i..i + n]) {
      ValueOfBounds(text[i..i + n]);
    }
  }

  lemma PowersOfTen()
    ensures Pow10(1) == 10 && Pow10(2) == 100 && Pow10(3) == 1000 && Pow10(4) == 10000
    ensures Pow10(6) == 1_000_000 && Pow10(9) == NANOS
  {
    assert Pow10(5) == 100000;
    assert Pow10(7) == 10_000_000 && Pow10(8) == 100_000_000;
  }

  lemma {:induction false} PowAdd(m: nat, n: nat)
    ensures Pow10(m + n) == Pow10(m) * Pow10(n)
  {
    if m > 0 {
      PowAdd(m - 1, n);
      assert Pow10(m + n) == 10 * Pow10(m - 1 + n);
      Reassociate(10, Pow10(m - 1), Pow10(n));
    }
  }

  lemma Reassociate(a: int, b: int, c: int)
    ensures a * (b * c) == (a * b) * c
  {
  }

  lemma FractionBounds(text: string, i: nat)
    requires i <= |text|
    ensures FractionAt(text, i).Some? ==> 0 <= FractionAt(text, i).value.0 < NANOS
  {
    if i < |text| && text[i] == '.' && FractionAt(text, i).Some? {
      var e := DigitsEnd(text, i + 1);
      var digits := e - (i + 1);
      ValueOfBounds(text[i + 1..e]);
      PowAdd(digits, 9 - digits);
      PowersOfTen();
      MulGap(ValueOf(text[i + 1..e]), Pow10(digits), Pow10(9 - digits));
    }
  }

  lemma ZoneBounds(text: string, i: nat)
    requires i <= |text|
    ensures ZoneAt(text, i).Some? ==> -DAY < ZoneAt(text, i).value < DAY
  {
    if i + 6 == |text| {
      NumberBounds(text, i + 1, 2);
      NumberBounds(text, i + 4, 2);
    }
  }

  lemma ClockValid(text: string)
    requires Separated(text)
    ensures ClockOf(text).Some? ==> IsStamp(ClockOf(text).value)
  {
    NumberBounds(text, 0, 4);
    NumberBounds(text, 11, 2);
    NumberBounds(text, 14, 2);
    NumberBounds(text, 17, 2);
    PowersOfTen();
  }

  /** Whatever a text says is a possible local time. */
  lemma StampValid(text: string)
    ensures StampOf(text).Some? ==> IsStamp(StampOf(text).value)
  {
    if StampOf(text).Some? {
      ClockValid(text);
      FractionBounds(text, 19);
      ZoneBounds(text, FractionAt(text, 19).value.1);
    }
  }

  // ---- the representable range ---------------------------------------------

  /** Accepts exactly the instants that fit, and computes them without overflow. */
  function Scale(seconds: int, fraction: int): Result<int, ErrorCode> {
    if seconds > MAX_SECONDS || seconds < MIN_SECONDS - 1 then Err(MalformedTimestamp)
    else if seconds == MAX_SECONDS && fraction > MAX_FRACTION then Err(MalformedTimestamp)
    else if seconds == MIN_SECONDS - 1 && fraction < MIN_FRACTION then Err(MalformedTimestamp)
    else if seconds == MIN_SECONDS - 1 then Ok(MIN_SECONDS * NANOS + (fraction - NANOS))
    else Ok(seconds * NANOS + fraction)
  }

  lemma ScaleExactly(seconds: int, fraction: int)
    requires 0 <= fraction < NANOS
    ensures Scale(seconds, fraction) == if FitsI64(seconds * NANOS + fraction) then Ok(seconds * NANOS + fraction) else Err(MalformedTimestamp)
    ensures Scale(seconds, fraction).Ok? && seconds != MIN_SECONDS - 1 ==> FitsI64(seconds * NANOS)
    ensures FitsI64(MIN_SECONDS * NANOS)
  {
  }

  /** Every intermediate value fits a signed 64-bit word. */
  lemma NoOverflow(s: Stamp)
    requires IsStamp(s)
    ensures FitsI64(DaysFromCivil(s.date)) && FitsI64(DaysFromCivil(s.date) * DAY)
    ensures FitsI64(LocalSeconds(s)) && FitsI64(LocalSeconds(s) - s.offset)
  {
    var (first, last) := (Date(0, 1, 1), Date(9999, 12, 31));
    DaysMonotone(s.date, first);
    DaysMonotone(last, s.date);
    DaysInMarchYears(first);
    DaysInMarchYears(last);
  }

  // ---- reading -------------------------------------------------------------

  /** The instant a text means, when it is a timestamp whose instant fits. */
  function ParseOf(text: string): Result<int, ErrorCode> {
    match StampOf(text)
    case None => Err(MalformedTimestamp)
    case Some(s) =>
      StampValid(text);
      if FitsI64(InstantOf(s)) then Ok(InstantOf(s)) else Err(MalformedTimestamp)
  }

  method ParseDecimal(text: string, offset: nat, count: nat) returns (r: Option<int>)
    requires offset + count <= |text|
    ensures r == NumberAt(text, offset, count)
  {
    var value := 0;
    ghost var part := text[offset..offset + count];
    for i := 0 to count
      invariant AllDigits(part[..i]) && value == ValueOf(part[..i])
    {
      var c := text[offset + i];
      assert part[i] == c && part[..i + 1][..i] == part[..i];
      if !IsDigit(c) {
        assert !AllDigits(part);
        return None;
      }
      value := value * 10 + (c as int - '0' as int);
    }
    assert part[..count] == part;
    return Some(value);
  }

  method ParseFraction(text: string, start: nat) returns (r: Option<(int, nat)>)
    requires start <= |text|
    ensures r == FractionAt(text, start)
  {
    if start == |text| || text[start] != '.' {
      return Some((0, start));
    }
    var index, digits, nanos := start + 1, 0, 0;
    ghost var e := DigitsEnd(text, start + 1);
    while index < |text| && IsDigit(text[index])
      invariant start + 1 <= index <= |text| && digits == index - (start + 1)
      invariant AllDigits(text[start + 1..index]) && DigitsEnd(text, index) == e
      invariant digits <= 9 ==> nanos == ValueOf(text[start + 1..index])
    {
      assert text[start + 1..index + 1][..digits] == text[start + 1..index];
      if digits < 9 {
        nanos := nanos * 10 + (text[index] as int - '0' as int);
      }
      digits, index := digits + 1, index + 1;
    }
    if digits == 0 || digits > 9 {
      return None;
    }
    ghost var value := nanos;
    for i := digits to 9
      invariant nanos == value * Pow10(i - digits)
    {
      nanos := nanos * 10;
      Reassociate(value, Pow10(i - digits), 10);
    }
    return Some((nanos, index));
  }

  method ParseZone(text: string, index: nat) returns (r: Option<int>)
    requires index <= |text|
    ensures r == ZoneAt(text, index)
  {
    if index == |text| {
      return None;
    }
    var zone := text[index];
    if zone == 'Z' || zone == 'z' {
      return if index + 1 == |text| then Some(0) else None;
    }
    if zone != '+' && zone != '-' {
      return None;
    }
    if |text| - index < 6 || text[index + 3] != ':' {
      return None;
    }
    var hours := ParseDecimal(text, index + 1, 2);
    var minutes := ParseDecimal(text, index + 4, 2);
    if hours.None? || minutes.None? || hours.value > 23 || minutes.value > 59 || index + 6 != |text| {
      return None;
    }
    var offset := hours.value * 3600 + minutes.value * 60;
    return Some(if zone == '-' then -offset else offset);
  }

  method ParseClock(text: string) returns (r: Option<Stamp>)
    requires Separated(text)
    ensures r == ClockOf(text)
  {
    var year := ParseDecimal(text, 0, 4);
    var month := ParseDecimal(text, 5, 2);
    var day := ParseDecimal(text, 8, 2);
    var hour := ParseDecimal(text, 11, 2);
    var minute := ParseDecimal(text, 14, 2);
    var second := ParseDecimal(text, 17, 2);
    if year.None? || month.None? || day.None? || hour.None? || minute.None? || second.None? {
      return None;
    }
    if month.value < 1 || month.value > 12 || day.value < 1 || day.value > DaysInMonth(year.value, month.value) {
      return None;
    }
    if hour.value > 23 || minute.value > 59 || second.value > 59 {
      return None;
    }
    return Some(Stamp(Date(year.value, month.value, day.value), hour.value, minute.value, second.value, 0, 0));
  }

  /** A timestamp is accepted exactly when its instant fits signed 64-bit nanoseconds, and
      nothing overflows on the way. */
  method ParseRfc3339(text: string) returns (r: Result<int, ErrorCode>)
    ensures r == ParseOf(text)
  {
    if !Separated(text) {
      return Err(MalformedTimestamp);
    }
    var clock := ParseClock(text);
    var fraction := ParseFraction(text, 19);
    if clock.None? || fraction.None? {
      return Err(MalformedTimestamp);
    }
    var zone := ParseZone(text, fraction.value.1);
    if zone.None? {
      return Err(MalformedTimestamp);
    }
    ghost var stamp := StampOf(text).value;
    StampValid(text);
    r := Convert(clock.value, fraction.value.0, zone.value, stamp);
  }

  method Convert(clock: Stamp, fraction: int, offset: int, ghost stamp: Stamp) returns (r: Result<int, ErrorCode>)
    requires IsStamp(stamp) && stamp == clock.(fraction := fraction, offset := offset)
    ensures r == if FitsI64(InstantOf(stamp)) then Ok(InstantOf(stamp)) else Err(MalformedTimestamp)
  {
    NoOverflow(stamp);
    var days := DaysFromCivil(clock.date);
    var seconds := days * DAY + clock.hour * 3600 + clock.minute * 60 + clock.second - offset;
    assert seconds == LocalSeconds(stamp) - stamp.offset;
    ScaleExactly(seconds, fraction);
    return Scale(seconds, fraction);
  }

  // ---- writing -------------------------------------------------------------

  function Reversed(s: string): (r: string)
    ensures |r| == |s|
  {
    if s == [] then [] else [s[|s| - 1]] + Reversed(s[..|s| - 1])
  }

  lemma ReversedSnoc(s: string, c: char)
    ensures Reversed(s + [c]) == [c] + Reversed(s)
  {
    assert (s + [c])[..|s|] == s;
  }

  function TextLeft(rest: nat): string {
    if rest == 0 then [] else Decimal(rest)
  }

  /** Splits off the last digit. */
  method LastDigit(value: nat) returns (c: char, high: nat)
    ensures Decimal(value) == TextLeft(high) + [c] && (value > 0 ==> high < value)
  {
    c, high := DigitOf(value % 10), value / 10;
    DivMod(value, 10);
  }

  method PutDigits(buffer: array<char>, value: nat, ghost text: string) returns (count: nat)
    requires buffer.Length == 24 && text == Decimal(value) && |text| <= 20
    modifies buffer
    ensures 1 <= count <= 20 && Reversed(buffer[..count]) == text
  {
    var c, rest := LastDigit(value);
    buffer[0] := c;
    ReversedSnoc([], c);
    assert buffer[..1] == [c];
    count := PutRest(buffer, text, rest, [c]);
  }

  method PutRest(buffer: array<char>, ghost text: string, value: nat, ghost first: string) returns (count: nat)
    requires buffer.Length == 24 && |first| == 1 && buffer[..1] == first
    requires text == TextLeft(value) + Reversed(first) && |text| <= 20
    modifies buffer
    ensures 1 <= count <= 20 && Reversed(buffer[..count]) == text
  {
    count := 1;
    var rest: nat := value;
    ghost var done := first;
    while rest != 0
      invariant 1 <= count <= 20 && done == buffer[..count]
      invariant text == TextLeft(rest) + Reversed(done)
      decreases rest
    {
      ghost var before := rest;
      var c, high := LastDigit(rest);
      OneMoreDigit(TextLeft(before), TextLeft(high), done, c);
      buffer[count] := c;
      rest, done, count := high, done + [c], count + 1;
    }
  }

  lemma TwentyDigits(value: U64)
    ensures |Decimal(value)| <= 20
  {
    PowersOfTen();
    PowAdd(9, 9);
    assert Pow10(19) == 10 * Pow10(18) && Pow10(20) == 10 * Pow10(19);
    DecimalLength(value, 20);
  }

  lemma OneMoreDigit(all: string, high: string, done: string, c: char)
    requires all == high + [c]
    ensures all + Reversed(done) == high + Reversed(done + [c])
  {
    ReversedSnoc(done, c);
    assert (high + [c]) + Reversed(done) == high + ([c] + Reversed(done));
  }

  lemma {:induction false} ReversedZeros(done: string, k: nat)
    ensures Reversed(done + Zeros(k)) == Zeros(k) + Reversed(done)
  {
    if k == 0 {
      assert done + Zeros(0) == done && Zeros(0) + Reversed(done) == Reversed(done);
    } else {
      ReversedZeros(done, k - 1);
      assert done + Zeros(k) == (done + Zeros(k - 1)) + ['0'];
      ReversedSnoc(done + Zeros(k - 1), '0');
      assert ['0'] + (Zeros(k - 1) + Reversed(done)) == Zeros(k) + Reversed(done);
    }
  }

  method PadZeros(buffer: array<char>, length: nat, digits: nat) returns (count: nat)
    requires length <= buffer.Length == 24 && digits <= 24
    modifies buffer
    ensures count == (if length < digits then digits else length)
    ensures Reversed(buffer[..count]) == Zeros(count - length) + Reversed(old(buffer[..length]))
  {
    count := length;
    ghost var done := buffer[..length];
    while count < digits
      invariant length <= count <= 24 && (count <= digits || count == length)
      invariant forall i | 0 <= i < length :: buffer[i] == done[i]
      invariant forall i | length <= i < count :: buffer[i] == '0'
    {
      buffer[count] := '0';
      count := count + 1;
    }
    assert buffer[..count] == done + Zeros(count - length);
    ReversedZeros(done, count - length);
  }

  /** Digits from the least significant up, zeros up to the width, and then all of it backwards. */
  lemma PaddedIs(value: nat, digits: nat, zeros: nat)
    requires zeros == if |Decimal(value)| < digits then digits - |Decimal(value)| else 0
    ensures Zeros(zeros) + Decimal(value) == Padded(value, digits)
  {
    assert Zeros(0) == [];
  }

  method AppendFixed(out: string, value: U64, digits: nat) returns (r: string)
    requires digits <= 24
    ensures r == out + Padded(value, digits)
  {
    var buffer := new char[24](i => '0');
    TwentyDigits(value);
    var length := PutDigits(buffer, value, Decimal(value));
    var count := PadZeros(buffer, length, digits);
    PaddedIs(value, digits, count - length);
    r := Unwind(out, buffer, count);
  }

  method Unwind(out: string, buffer: array<char>, length: nat) returns (r: string)
    requires length <= buffer.Length
    ensures r == out + Reversed(buffer[..length])
  {
    r := out;
    var count := length;
    while count > 0
      invariant 0 <= count <= length && r + Reversed(buffer[..count]) == out + Reversed(buffer[..length])
    {
      count := count - 1;
      assert buffer[..count + 1] == buffer[..count] + [buffer[count]];
      ReversedSnoc(buffer[..count], buffer[count]);
      assert (r + [buffer[count]]) + Reversed(buffer[..count]) == r + ([buffer[count]] + Reversed(buffer[..count]));
      r := r + [buffer[count]];
    }
    assert r + [] == r;
  }

  /** A year is written with at least four digits, after a sign when it is before year zero. */
  function YearText(year: int): string {
    if year < 0 then "-" + Padded(-year, 4) else Padded(year, 4)
  }

  function ClockText(second: int): string
    requires 0 <= second < DAY
  {
    Padded(second / 3600, 2) + ":" + Padded(second % 3600 / 60, 2) + ":" + Padded(second % 60, 2)
  }

  function DateText(t: Date): string
    requires IsDate(t)
  {
    YearText(t.year) + "-" + Padded(t.month, 2) + "-" + Padded(t.day, 2)
  }

  function FractionText(nanos: int, digits: nat): string
    requires 0 <= nanos < NANOS && digits <= 9
  {
    DivBounds(nanos, Pow10(9 - digits));
    if digits == 0 then "" else "." + Padded(nanos / Pow10(9 - digits), digits)
  }

  /** The text of an instant, with its fraction cut to the given digits. */
  function TextOf(nanos: int, digits: nat): string
    requires digits <= 9
  {
    var seconds, fraction := nanos / NANOS, nanos % NANOS;
    CivilInverse(seconds / DAY);
    DateText(CivilFromDays(seconds / DAY)) + "T" + ClockText(seconds % DAY) + FractionText(fraction, digits) + "Z"
  }

  /** Truncating division with a correction for a negative remainder is flooring. */
  method FloorSplit(n: int, d: int) returns (quotient: int, remainder: int)
    requires d > 1
    ensures quotient == n / d && remainder == n % d
  {
    quotient := Quot(n, d);
    remainder := n - quotient * d;
    TruncatedRemainder(n, d);
    if remainder < 0 {
      remainder := remainder + d;
      quotient := quotient - 1;
    }
    DivUnique(n, d, quotient, remainder);
  }

  lemma TruncatedRemainder(n: int, d: int)
    requires d > 1
    ensures var q := Quot(n, d); -d < n - q * d < d && (n - q * d < 0 ==> n == (q - 1) * d + (n - q * d + d))
  {
    DivMod(n, d);
    DivMod(-n, d);
    NegateTimes(-n / d, d);
    Minus(Quot(n, d), d);
  }

  method AppendYear(out: string, year: int) returns (r: string)
    requires -U64_MAX <= year <= U64_MAX
    ensures r == out + YearText(year)
  {
    if year < 0 {
      r := AppendFixed(out + "-", -year, 4);
      assert (out + "-") + Padded(-year, 4) == out + ("-" + Padded(-year, 4));
    } else {
      r := AppendFixed(out, year, 4);
    }
  }

  lemma YearRange(nanos: I64)
    ensures 1677 <= CivilFromDays(nanos / NANOS / DAY).year <= 2262
  {
    var days := nanos / NANOS / DAY;
    var t, first, last := CivilFromDays(days), Date(1677, 1, 1), Date(2262, 12, 31);
    CivilInverse(days);
    DaysMonotone(t, first);
    DaysMonotone(last, t);
    DaysInMarchYears(first);
    DaysInMarchYears(last);
  }

  lemma TenDivides(digits: nat)
    requires digits <= 9
    ensures NANOS / Pow10(digits) == Pow10(9 - digits) && Pow10(digits) * Pow10(9 - digits) == NANOS
  {
    PowersOfTen();
    PowAdd(digits, 9 - digits);
    DivUnique(NANOS, Pow10(digits), Pow10(9 - digits), 0);
  }

  method AppendFraction(out: string, fraction: int, digits: nat) returns (r: string)
    requires 0 <= fraction < NANOS && digits <= 9
    ensures r == out + FractionText(fraction, digits)
  {
    if digits == 0 {
      assert out + "" == out;
      return out;
    }
    var scale := 1;
    for i := 0 to digits
      invariant scale == Pow10(i)
    {
      scale := scale * 10;
    }
    TenDivides(digits);
    var divisor := NANOS / scale;
    DivBounds(fraction, divisor);
    r := AppendFixed(out + ".", fraction / divisor, digits);
    assert (out + ".") + Padded(fraction / divisor, digits) == out + ("." + Padded(fraction / divisor, digits));
  }

  method AppendDate(out: string, t: Date) returns (r: string)
    requires IsDate(t) && -10000 < t.year < 10000
    ensures r == out + DateText(t)
  {
    r := AppendYear(out, t.year);
    r := AppendFixed(r + "-", t.month, 2);
    r := AppendFixed(r + "-", t.day, 2);
  }

  method AppendClock(out: string, second: int) returns (r: string)
    requires 0 <= second < DAY
    ensures r == out + ClockText(second)
  {
    ClockSplits(second);
    r := AppendFixed(out, second / 3600, 2);
    r := AppendFixed(r + ":", second % 3600 / 60, 2);
    r := AppendFixed(r + ":", second % 60, 2);
  }

  method FormatUtc(nanos: I64, digits: nat) returns (r: string)
    requires digits <= 9
    ensures r == TextOf(nanos, digits)
  {
    var seconds, fraction := FloorSplit(nanos, NANOS);
    var days, secondOfDay := FloorSplit(seconds, DAY);
    CivilInverse(days);
    YearRange(nanos);
    r := AppendDate("", CivilFromDays(days));
    assert "" + DateText(CivilFromDays(days)) == DateText(CivilFromDays(days));
    r := AppendClock(r + "T", secondOfDay);
    r := AppendFraction(r, fraction, digits);
    r := r + "Z";
  }

  // ---- writing and reading back --------------------------------------------

  /** The instant cut down to the given number of fraction digits. */
  function Floored(nanos: int, digits: nat): int
    requires digits <= 9
  {
    (nanos / Pow10(9 - digits)) * Pow10(9 - digits)
  }

  lemma NumberHere(text: string, i: nat, n: nat, value: nat)
    requires n > 0 && value < Pow10(n) && i + n <= |text| && text[i..i + n] == Padded(value, n)
    ensures NumberAt(text, i, n) == Some(value)
  {
    ValueOfPadded(value, n);
  }

  /** The written form, piece by piece. */
  ghost predicate Pieces(text: string, t: Date, second: int, tail: string)
    requires IsDate(t) && t.year >= 0 && 0 <= second < DAY
  {
    && |text| == 19 + |tail|
    && text[0..4] == Padded(t.year, 4) && text[4] == '-' && text[5..7] == Padded(t.month, 2) && text[7] == '-'
    && text[8..10] == Padded(t.day, 2) && text[10] == 'T'
    && text[11..13] == Padded(second / 3600, 2) && text[13] == ':' && text[14..16] == Padded(second % 3600 / 60, 2)
    && text[16] == ':' && text[17..19] == Padded(second % 60, 2) && text[19..] == tail
  }

  lemma Assembled(
    y: string, m: string, d: string, h: string, i: string, s: string, tail: string, text: string)
    requires |y| == 4 && |m| == 2 && |d| == 2 && |h| == 2 && |i| == 2 && |s| == 2
    requires text == (y + "-" + m + "-" + d) + "T" + (h + ":" + i + ":" + s) + tail
    ensures |text| == 19 + |tail|
    ensures text[0..4] == y && text[4] == '-' && text[5..7] == m && text[7] == '-' && text[8..10] == d && text[10] == 'T'
    ensures text[11..13] == h && text[13] == ':' && text[14..16] == i && text[16] == ':' && text[17..19] == s && text[19..] == tail
  {
  }

  lemma TextPieces(t: Date, second: int, tail: string)
    requires IsDate(t) && 0 <= t.year <= 9999 && 0 <= second < DAY
    ensures Pieces(DateText(t) + "T" + ClockText(second) + tail, t, second, tail)
  {
    PowersOfTen();
    PaddedLength(t.year, 4);
    PaddedLength(t.month, 2);
    PaddedLength(t.day, 2);
    PaddedLength(second / 3600, 2);
    PaddedLength(second % 3600 / 60, 2);
    PaddedLength(second % 60, 2);
    Assembled(Padded(t.year, 4), Padded(t.month, 2), Padded(t.day, 2), Padded(second / 3600, 2),
              Padded(second % 3600 / 60, 2), Padded(second % 60, 2), tail, DateText(t) + "T" + ClockText(second) + tail);
  }

  lemma ClockRead(text: string, t: Date, second: int, tail: string)
    requires IsDate(t) && 0 <= t.year <= 9999 && 0 <= second < DAY && Pieces(text, t, second, tail)
    requires 1 <= |tail| <= 45
    ensures Separated(text)
    ensures ClockOf(text) == Some(Stamp(t, second / 3600, second % 3600 / 60, second % 60, 0, 0))
  {
    PowersOfTen();
    NumberHere(text, 0, 4, t.year);
    NumberHere(text, 5, 2, t.month);
    NumberHere(text, 8, 2, t.day);
    ClockSplits(second);
    TimeRead(text, t, second / 3600, second % 3600 / 60, second % 60);
  }

  lemma TimeRead(text: string, t: Date, hour: int, minute: int, second: int)
    requires Separated(text) && IsDate(t)
    requires NumberAt(text, 0, 4) == Some(t.year) && NumberAt(text, 5, 2) == Some(t.month) && NumberAt(text, 8, 2) == Some(t.day)
    requires 0 <= hour < 24 && 0 <= minute < 60 && 0 <= second < 60
    requires text[11..13] == Padded(hour, 2) && text[14..16] == Padded(minute, 2) && text[17..19] == Padded(second, 2)
    ensures ClockOf(text) == Some(Stamp(t, hour, minute, second, 0, 0))
  {
    PowersOfTen();
    NumberHere(text, 11, 2, hour);
    NumberHere(text, 14, 2, minute);
    NumberHere(text, 17, 2, second);
  }

  lemma FractionPieces(text: string, body: string)
    requires |text| >= 19 && text[19..] == ("." + body) + "Z"
    ensures |text| == 21 + |body| && text[19] == '.' && text[20..20 + |body|] == body && text[20 + |body|] == 'Z'
  {
    var tail := text[19..];
    assert tail[0] == '.' && tail[1..1 + |body|] == body && tail[1 + |body|] == 'Z';
    assert text[20..20 + |body|] == tail[1..1 + |body|];
  }

  lemma FractionFits(fraction: int, digits: nat)
    requires 0 <= fraction < NANOS && digits <= 9
    ensures 0 <= fraction / Pow10(9 - digits) < Pow10(digits)
  {
    var p := Pow10(9 - digits);
    TenDivides(digits);
    DivBounds(fraction, p);
    DivMod(fraction, p);
    MulGap(Pow10(digits), fraction / p + 1, p);
    MulGap(Pow10(digits), fraction / p, p);
  }

  lemma FractionRead(text: string, value: nat, digits: nat)
    requires |text| >= 19 && 0 < digits <= 9 && value < Pow10(digits)
    requires text[19..] == ("." + Padded(value, digits)) + "Z"
    ensures FractionAt(text, 19) == Some((value * Pow10(9 - digits), 20 + digits))
    ensures ZoneAt(text, 20 + digits) == Some(0)
  {
    PaddedLength(value, digits);
    FractionPieces(text, Padded(value, digits));
    DigitsEndHere(text, 20, 20 + digits);
    ValueOfPadded(value, digits);
  }

  lemma TailRead(text: string, fraction: int, digits: nat)
    requires 0 <= fraction < NANOS && digits <= 9 && |text| >= 19
    requires text[19..] == FractionText(fraction, digits) + "Z"
    ensures FractionAt(text, 19) == Some((Floored(fraction, digits), if digits == 0 then 19 else 20 + digits))
    ensures ZoneAt(text, if digits == 0 then 19 else 20 + digits) == Some(0)
  {
    FractionFits(fraction, digits);
    if digits == 0 {
      PowersOfTen();
      DivUnique(fraction, Pow10(9), 0, fraction);
      assert text[19..] == "Z";
      assert text[19] == 'Z';
    } else {
      FractionRead(text, fraction / Pow10(9 - digits), digits);
    }
  }

  lemma TailLength(fraction: int, digits: nat)
    requires 0 <= fraction < NANOS && digits <= 9
    ensures 1 <= |FractionText(fraction, digits) + "Z"| <= 45
  {
    if digits > 0 {
      FractionFits(fraction, digits);
      PaddedLength(fraction / Pow10(9 - digits), digits);
    }
  }

  lemma StampRead(text: string, t: Date, second: int, fraction: int, digits: nat)
    requires IsDate(t) && 0 <= t.year <= 9999 && 0 <= second < DAY && 0 <= fraction < NANOS && digits <= 9
    requires text == DateText(t) + "T" + ClockText(second) + (FractionText(fraction, digits) + "Z")
    ensures StampOf(text) == Some(Stamp(
              t, second / 3600, second % 3600 / 60, second % 60, Floored(fraction, digits), 0))
  {
    var tail := FractionText(fraction, digits) + "Z";
    TextPieces(t, second, tail);
    TailLength(fraction, digits);
    ClockRead(text, t, second, tail);
    TailRead(text, fraction, digits);
  }

  lemma TextGrouped(nanos: int, digits: nat)
    requires digits <= 9
    ensures var seconds, fraction := nanos / NANOS, nanos % NANOS;
      IsDate(CivilFromDays(seconds / DAY))
      && TextOf(nanos, digits) == DateText(CivilFromDays(seconds / DAY)) + "T" + ClockText(seconds % DAY)
                                  + (FractionText(fraction, digits) + "Z")
  {
    CivilInverse(nanos / NANOS / DAY);
  }

  lemma ClockSplits(second: int)
    requires 0 <= second < DAY
    ensures 0 <= second / 3600 < 24 && 0 <= second % 3600 / 60 < 60 && 0 <= second % 60 < 60
    ensures (second / 3600) * 3600 + (second % 3600 / 60) * 60 + second % 60 == second
  {
    DivMod(second, 3600);
    DivMod(second % 3600, 60);
    DivUnique(second, 60, 60 * (second / 3600) + second % 3600 / 60, second % 3600 % 60);
  }

  lemma InstantRead(days: int, second: int, fraction: int)
    requires 0 <= second < DAY && IsDate(CivilFromDays(days))
    ensures InstantOf(Stamp(CivilFromDays(days), second / 3600, second % 3600 / 60, second % 60, fraction, 0))
         == (days * DAY + second) * NANOS + fraction
  {
    CivilInverse(days);
    ClockSplits(second);
    Distribute(days * DAY, second, NANOS);
  }

  lemma FlooredSplits(nanos: int, digits: nat)
    requires digits <= 9
    ensures Floored(nanos, digits) == (nanos / NANOS) * NANOS + Floored(nanos % NANOS, digits)
  {
    var p, q := Pow10(9 - digits), Pow10(digits);
    var s, f := nanos / NANOS, nanos % NANOS;
    TenDivides(digits);
    DivMod(nanos, NANOS);
    DivMod(f, p);
    Reassociate(s, q, p);
    Distribute(s * q, f / p, p);
    DivUnique(nanos, p, s * q + f / p, f % p);
  }

  lemma Distribute(a: int, b: int, c: int)
    ensures (a + b) * c == a * c + b * c
  {
  }

  /** The parts of an instant in UTC, cut down to the given digits. */
  function StampFor(nanos: int, digits: nat): Stamp
    requires digits <= 9
  {
    var seconds := nanos / NANOS;
    Stamp(CivilFromDays(seconds / DAY), seconds % DAY / 3600, seconds % DAY % 3600 / 60, seconds % DAY % 60,
          Floored(nanos % NANOS, digits), 0)
  }

  lemma StampWritten(nanos: I64, digits: nat)
    requires digits <= 9
    ensures StampOf(TextOf(nanos, digits)) == Some(StampFor(nanos, digits))
  {
    var seconds := nanos / NANOS;
    TextGrouped(nanos, digits);
    YearRange(nanos);
    StampRead(TextOf(nanos, digits), CivilFromDays(seconds / DAY), seconds % DAY, nanos % NANOS, digits);
  }

  lemma StampMeans(nanos: int, digits: nat)
    requires digits <= 9
    ensures IsDate(StampFor(nanos, digits).date) && InstantOf(StampFor(nanos, digits)) == Floored(nanos, digits)
  {
    var seconds := nanos / NANOS;
    var days, second, fraction := seconds / DAY, seconds % DAY, Floored(nanos % NANOS, digits);
    CivilInverse(days);
    DivMod(seconds, DAY);
    InstantRead(days, second, fraction);
    FlooredSplits(nanos, digits);
  }

  lemma ParsedAs(text: string, stamp: Stamp, value: int)
    requires StampOf(text) == Some(stamp) && IsDate(stamp.date) && InstantOf(stamp) == value
    ensures ParseOf(text) == if FitsI64(value) then Ok(value) else Err(MalformedTimestamp)
  {
  }

  /** Reading back what was written gives the instant cut down to the digits written, except
      for the few instants whose floor does not fit, which are refused. */
  lemma ParseFormatted(nanos: I64, digits: nat)
    requires digits <= 9
    ensures ParseOf(TextOf(nanos, digits))
         == if FitsI64(Floored(nanos, digits)) then Ok(Floored(nanos, digits)) else Err(MalformedTimestamp)
  {
    var text, stamp, value := TextOf(nanos, digits), StampFor(nanos, digits), Floored(nanos, digits);
    assert StampOf(text) == Some(stamp) by { StampWritten(nanos, digits); }
    assert IsDate(stamp.date) && InstantOf(stamp) == value by { StampMeans(nanos, digits); }
    ParsedAs(text, stamp, value);
  }

  /** The earliest instant is written to the millisecond as a text that is refused. */
  lemma EarliestIsRefused()
    ensures ParseOf(TextOf(I64_MIN, 3)) == Err(MalformedTimestamp)
  {
    PowersOfTen();
    assert Pow10(6) == 1_000_000;
    DivUnique(I64_MIN, 1_000_000, -9_223_372_036_855, 224_192);
    ParseFormatted(I64_MIN, 3);
  }
}
