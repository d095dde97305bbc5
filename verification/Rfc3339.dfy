/** The texts that are read as instants, by their grammar (section 5.6 of RFC 3339), and what
    each of them means. */
module Rfc3339 {

  import opened Arith
  import opened Common
  import opened Decimals
  import opened Folds
  import opened Calendar
  import opened Timestamp

  // ---- the grammar ---------------------------------------------------------

  /** The last digits of a number, most significant first. */
  function Fixed(n: nat, width: nat): (s: string)
    ensures |s| == width
  {
    if width == 0 then "" else Fixed(n / 10, width - 1) + [('0' as int + n % 10) as char]
  }

  datatype Zone = Utc(letter: char) | East(hours: nat, minutes: nat) | West(hours: nat, minutes: nat)

  /** A timestamp as written: its fraction shows the first digits of the nanoseconds. */
  datatype Written = Written(
    date: Date, separator: char, hour: nat, minute: nat, second: nat, nanos: nat, digits: nat, zone: Zone)

  predicate IsZone(z: Zone) {
    match z
    case Utc(letter) => letter == 'Z' || letter == 'z'
    case East(hours, minutes) => hours < 24 && minutes < 60
    case West(hours, minutes) => hours < 24 && minutes < 60
  }

  predicate IsWritten(w: Written) {
    && IsDate(w.date) && 0 <= w.date.year <= 9999
    && (w.separator == 'T' || w.separator == 't' || w.separator == ' ')
    && w.hour < 24 && w.minute < 60 && w.second < 60
    && w.nanos < 1_000_000_000 && w.digits <= 9 && Fixed(w.nanos, 9)[w.digits..] == Zeros(9 - w.digits)
    && IsZone(w.zone)
  }

  function ZoneText(z: Zone): string {
    match z
    case Utc(letter) => [letter]
    case East(hours, minutes) => "+" + Fixed(hours, 2) + ":" + Fixed(minutes, 2)
    case West(hours, minutes) => "-" + Fixed(hours, 2) + ":" + Fixed(minutes, 2)
  }

  function Shown(nanos: nat, digits: nat): string
    requires digits <= 9
  {
    if digits == 0 then "" else "." + Fixed(nanos, 9)[..digits]
  }

  function ClockPart(w: Written): (s: string)
    requires IsWritten(w)
    ensures |s| == 19
  {
    (Fixed(w.date.year, 4) + "-" + Fixed(w.date.month, 2) + "-" + Fixed(w.date.day, 2)) + [w.separator]
    + (Fixed(w.hour, 2) + ":" + Fixed(w.minute, 2) + ":" + Fixed(w.second, 2))
  }

  function TextFor(w: Written): string
    requires IsWritten(w)
  {
    ClockPart(w) + Shown(w.nanos, w.digits) + ZoneText(w.zone)
  }

  /** Minutes ahead of UTC. */
  function Ahead(z: Zone): int {
    match z
    case Utc(_) => 0
    case East(hours, minutes) => 60 * hours + minutes
    case West(hours, minutes) => -(60 * hours + minutes)
  }

  /** The instant written, in nanoseconds: local time less what the zone is ahead. */
  function MeantBy(w: Written): int
    requires IsDate(w.date)
  {
    ((DaysFromCivil(w.date) * 1440 + w.hour * 60 + w.minute - Ahead(w.zone)) * 60 + w.second) * 1_000_000_000 + w.nanos
  }

  ghost predicate Says(text: string, instant: int) {
    exists w :: IsWritten(w) && TextFor(w) == text && MeantBy(w) == instant
  }

  // ---- digits --------------------------------------------------------------

  lemma {:induction false} FixedRead(n: nat, width: nat)
    requires n < Pow10(width)
    ensures AllDigits(Fixed(n, width)) && ValueOf(Fixed(n, width)) == n
  {
    if width > 0 {
      DivMod(n, 10);
      var s := Fixed(n, width);
      FixedRead(n / 10, width - 1);
      assert s[..width - 1] == Fixed(n / 10, width - 1);
    }
  }

  lemma {:induction false} ReadFixed(s: string)
    requires AllDigits(s)
    ensures ValueOf(s) >= 0 && Fixed(ValueOf(s), |s|) == s
  {
    if s != [] {
      var high, low := ValueOf(s[..|s| - 1]), s[|s| - 1] as int - '0' as int;
      ReadFixed(s[..|s| - 1]);
      DivUnique(ValueOf(s), 10, high, low);
    }
  }

  lemma {:induction false} ZerosAfter(s: string, k: nat)
    requires AllDigits(s)
    ensures AllDigits(s + Zeros(k)) && ValueOf(s + Zeros(k)) == ValueOf(s) * Pow10(k)
  {
    if k == 0 {
      assert s + Zeros(0) == s;
    } else {
      var t := s + Zeros(k);
      assert t[..|t| - 1] == s + Zeros(k - 1) && t[|t| - 1] == '0';
      ZerosAfter(s, k - 1);
      Reassociate(ValueOf(s), Pow10(k - 1), 10);
    }
  }

  lemma NumberIs(text: string, i: nat, n: nat, value: nat)
    requires i + n <= |text| && value < Pow10(n) && text[i..i + n] == Fixed(value, n)
    ensures NumberAt(text, i, n) == Some(value)
  {
    FixedRead(value, n);
  }

  lemma NumberSays(text: string, i: nat, n: nat)
    requires i + n <= |text| && NumberAt(text, i, n).Some?
    ensures NumberAt(text, i, n).value >= 0 && text[i..i + n] == Fixed(NumberAt(text, i, n).value, n)
  {
    ReadFixed(text[i..i + n]);
  }

  // ---- what is written is read ---------------------------------------------

  lemma Joined(
    y: string, m: string, d: string, sep: char, h: string, i: string, s: string, tail: string)
    requires |y| == 4 && |m| == 2 && |d| == 2 && |h| == 2 && |i| == 2 && |s| == 2
    ensures var text := (y + "-" + m + "-" + d) + [sep] + (h + ":" + i + ":" + s) + tail;
      && |text| == 19 + |tail|
      && text[0..4] == y && text[4] == '-' && text[5..7] == m && text[7] == '-' && text[8..10] == d && text[10] == sep
      && text[11..13] == h && text[13] == ':' && text[14..16] == i && text[16] == ':' && text[17..19] == s && text[19..] == tail
  {
  }

  /** The seconds a zone is ahead, as they are read. */
  function Offset(z: Zone): int {
    60 * Ahead(z)
  }

  lemma TailSlice(text: string, i: nat, tail: string, a: nat, b: nat)
    requires i <= |text| && text[i..] == tail && a <= b <= |tail|
    ensures i + b <= |text| && text[i + a..i + b] == tail[a..b] && (a < b ==> text[i + a] == tail[a])
  {
    assert forall k | a <= k < b :: text[i + k] == tail[k];
  }

  lemma ZoneParts(text: string, i: nat, sign: string, hours: string, minutes: string)
    requires i <= |text| && |sign| == 1 && |hours| == 2 && |minutes| == 2 && text[i..] == sign + hours + ":" + minutes
    ensures |text| == i + 6 && text[i] == sign[0] && text[i + 3] == ':'
    ensures text[i + 1..i + 3] == hours && text[i + 4..i + 6] == minutes
  {
    var tail := sign + hours + ":" + minutes;
    TailSlice(text, i, tail, 0, 1);
    TailSlice(text, i, tail, 1, 3);
    TailSlice(text, i, tail, 3, 4);
    TailSlice(text, i, tail, 4, 6);
  }

  lemma ZoneIs(text: string, i: nat, z: Zone)
    requires i <= |text| && text[i..] == ZoneText(z) && IsZone(z)
    ensures ZoneAt(text, i) == Some(Offset(z))
  {
    if z.Utc? {
      assert text[i..][0] == text[i];
    } else {
      PowersOfTen();
      ZoneParts(text, i, if z.East? then "+" else "-", Fixed(z.hours, 2), Fixed(z.minutes, 2));
      NumberIs(text, i + 1, 2, z.hours);
      NumberIs(text, i + 4, 2, z.minutes);
    }
  }

  lemma FractionParts(text: string, body: string, tail: string)
    requires |text| >= 19 && text[19..] == ("." + body) + tail
    ensures |text| == 20 + |body| + |tail| && text[19] == '.' && text[20..20 + |body|] == body && text[20 + |body|..] == tail
  {
    var rest := ("." + body) + tail;
    TailSlice(text, 19, rest, 0, 1);
    TailSlice(text, 19, rest, 1, 1 + |body|);
    TailSlice(text, 19, rest, 1 + |body|, |rest|);
  }

  lemma FractionHere(text: string, body: string, tail: string)
    requires |text| >= 19 && text[19..] == ("." + body) + tail && body != "" && AllDigits(body) && |body| <= 9
    requires tail != "" && !IsDigit(tail[0])
    ensures FractionAt(text, 19) == Some((ValueOf(body) * Pow10(9 - |body|), 20 + |body|)) && text[20 + |body|..] == tail
  {
    FractionParts(text, body, tail);
    TailSlice(text, 20 + |body|, tail, 0, 1);
    FractionFrom(text, 20 + |body|, body);
  }

  lemma FractionFrom(text: string, e: nat, body: string)
    requires 20 < e <= 29 && e < |text| && text[19] == '.' && text[20..e] == body && AllDigits(body) && !IsDigit(text[e])
    ensures FractionAt(text, 19) == Some((ValueOf(body) * Pow10(9 - |body|), e))
  {
    DigitsEndHere(text, 20, e);
  }

  lemma NoFractionHere(text: string, tail: string)
    requires |text| >= 19 && text[19..] == tail && (tail != "" ==> tail[0] != '.')
    ensures FractionAt(text, 19) == Some((0, 19))
  {
    if tail != "" {
      TailSlice(text, 19, tail, 0, 1);
    }
  }

  lemma ZoneStarts(z: Zone)
    requires IsZone(z)
    ensures ZoneText(z) != "" && !IsDigit(ZoneText(z)[0]) && ZoneText(z)[0] != '.' && |ZoneText(z)| <= 6
  {
  }

  lemma FractionIs(text: string, nanos: nat, digits: nat, tail: string, shown: string)
    requires nanos < NANOS && digits <= 9 && Fixed(nanos, 9)[digits..] == Zeros(9 - digits) && shown == Shown(nanos, digits)
    requires |text| >= 19 && text[19..] == shown + tail && tail != "" && !IsDigit(tail[0]) && tail[0] != '.'
    ensures FractionAt(text, 19) == Some((nanos, 19 + |shown|)) && text[19 + |shown|..] == tail
  {
    var body := Fixed(nanos, 9)[..digits];
    BodyRead(nanos, digits, body);
    if digits > 0 {
      FractionHere(text, body, tail);
    } else {
      assert shown + tail == tail;
      NoFractionHere(text, tail);
    }
  }

  lemma BodyRead(nanos: nat, digits: nat, body: string)
    requires nanos < NANOS && digits <= 9 && Fixed(nanos, 9) == body + Zeros(9 - digits) && |body| == digits
    ensures AllDigits(body) && ValueOf(body) * Pow10(9 - digits) == nanos && (digits == 0 ==> nanos == 0)
  {
    PowersOfTen();
    FixedRead(nanos, 9);
    assert body == Fixed(nanos, 9)[..digits];
    ZerosAfter(body, 9 - digits);
  }

  function StampIn(w: Written): Stamp {
    Stamp(w.date, w.hour, w.minute, w.second, w.nanos, Offset(w.zone))
  }

  lemma ClockIs(text: string, w: Written, tail: string)
    requires IsWritten(w) && text == ClockPart(w) + tail && 1 <= |tail| <= 45
    ensures Separated(text) && ClockOf(text) == Some(Stamp(w.date, w.hour, w.minute, w.second, 0, 0)) && text[19..] == tail
  {
    PowersOfTen();
    Joined(Fixed(w.date.year, 4), Fixed(w.date.month, 2), Fixed(w.date.day, 2), w.separator,
           Fixed(w.hour, 2), Fixed(w.minute, 2), Fixed(w.second, 2), tail);
    NumberIs(text, 0, 4, w.date.year);
    NumberIs(text, 5, 2, w.date.month);
    NumberIs(text, 8, 2, w.date.day);
    NumberIs(text, 11, 2, w.hour);
    NumberIs(text, 14, 2, w.minute);
    NumberIs(text, 17, 2, w.second);
  }

  lemma ShownLength(nanos: nat, digits: nat)
    requires digits <= 9
    ensures |Shown(nanos, digits)| <= 10
  {
  }

  lemma WrittenIsRead(w: Written)
    requires IsWritten(w)
    ensures StampOf(TextFor(w)) == Some(StampIn(w))
  {
    var text, shown, zone := TextFor(w), Shown(w.nanos, w.digits), ZoneText(w.zone);
    ShownLength(w.nanos, w.digits);
    ZoneStarts(w.zone);
    Associative(ClockPart(w), shown, zone);
    ClockIs(text, w, shown + zone);
    FractionIs(text, w.nanos, w.digits, zone, shown);
    ZoneIs(text, 19 + |shown|, w.zone);
  }

  lemma Meaning(w: Written)
    requires IsDate(w.date)
    ensures InstantOf(StampIn(w)) == MeantBy(w)
  {
  }

  // ---- what is read was written --------------------------------------------

  lemma ZoneSays(text: string, i: nat) returns (z: Zone)
    requires i <= |text| && ZoneAt(text, i).Some?
    ensures IsZone(z) && text[i..] == ZoneText(z) && ZoneAt(text, i) == Some(Offset(z))
  {
    if text[i] == 'Z' || text[i] == 'z' {
      z := Utc(text[i]);
    } else {
      NumberSays(text, i + 1, 2);
      NumberSays(text, i + 4, 2);
      var hours, minutes := NumberAt(text, i + 1, 2).value, NumberAt(text, i + 4, 2).value;
      z := if text[i] == '+' then East(hours, minutes) else West(hours, minutes);
      assert text[i..] == [text[i]] + text[i + 1..i + 3] + ":" + text[i + 4..i + 6];
    }
  }

  lemma NanosOf(body: string) returns (nanos: nat)
    requires AllDigits(body) && |body| <= 9
    ensures nanos == ValueOf(body) * Pow10(9 - |body|) && Fixed(nanos, 9) == body + Zeros(9 - |body|)
  {
    ZerosAfter(body, 9 - |body|);
    ReadFixed(body + Zeros(9 - |body|));
    nanos := ValueOf(body + Zeros(9 - |body|));
  }

  lemma FractionSays(text: string) returns (nanos: nat, digits: nat)
    requires |text| >= 19 && FractionAt(text, 19).Some?
    ensures nanos < NANOS && digits <= 9 && Fixed(nanos, 9)[digits..] == Zeros(9 - digits)
    ensures FractionAt(text, 19) == Some((nanos, 19 + |Shown(nanos, digits)|))
    ensures 19 + |Shown(nanos, digits)| <= |text| && text[19..19 + |Shown(nanos, digits)|] == Shown(nanos, digits)
  {
    FractionBounds(text, 19);
    var e := FractionAt(text, 19).value.1;
    if e == 19 {
      digits := 0;
      nanos := NanosOf("");
    } else {
      digits := e - 20;
      nanos := NanosOf(text[20..e]);
      assert text[19..e] == "." + text[20..e];
    }
  }

  lemma ClockSays(text: string, w: Written)
    requires Separated(text) && ClockOf(text) == Some(Stamp(w.date, w.hour, w.minute, w.second, 0, 0)) && IsWritten(w)
    requires w.separator == text[10]
    ensures text == ClockPart(w) + text[19..]
  {
    NumberSays(text, 0, 4);
    NumberSays(text, 5, 2);
    NumberSays(text, 8, 2);
    NumberSays(text, 11, 2);
    NumberSays(text, 14, 2);
    NumberSays(text, 17, 2);
  }

  lemma Regrouped(text: string, a: string, b: string, c: string, rest: string)
    requires text == a + rest && rest == b + c
    ensures text == a + b + c
  {
  }

  lemma ReadWasWritten(text: string) returns (w: Written)
    requires StampOf(text).Some?
    ensures IsWritten(w) && TextFor(w) == text && StampOf(text) == Some(StampIn(w))
  {
    var nanos, digits := FractionSays(text);
    var i := 19 + |Shown(nanos, digits)|;
    var z := ZoneSays(text, i);
    w := PartsOf(text, nanos, digits, z);
    assert text[19..] == text[19..i] + text[i..];
    Regrouped(text, ClockPart(w), Shown(nanos, digits), ZoneText(z), text[19..]);
  }

  lemma PartsOf(text: string, nanos: nat, digits: nat, z: Zone) returns (w: Written)
    requires Separated(text) && ClockOf(text).Some? && IsZone(z)
    requires nanos < NANOS && digits <= 9 && Fixed(nanos, 9)[digits..] == Zeros(9 - digits)
    ensures IsWritten(w) && w.nanos == nanos && w.digits == digits && w.zone == z
    ensures text == ClockPart(w) + text[19..]
    ensures ClockOf(text).value.(fraction := nanos, offset := Offset(z)) == StampIn(w)
  {
    var c := ClockOf(text).value;
    ClockValid(text);
    w := Written(c.date, text[10], c.hour, c.minute, c.second, nanos, digits, z);
    ClockSays(text, w);
  }

  // ---- the theorem ---------------------------------------------------------

  /** A text is read as an instant exactly when the grammar has it mean that instant and the
      instant fits; anything else is a malformed timestamp. */
  lemma ParsedExactly(text: string, instant: int)
    ensures ParseOf(text) == Ok(instant) <==> Says(text, instant) && FitsI64(instant)
    ensures ParseOf(text).Err? ==> ParseOf(text).error == MalformedTimestamp
  {
    if StampOf(text).Some? {
      var w := ReadWasWritten(text);
      Meaning(w);
    }
    if Says(text, instant) {
      var w :| IsWritten(w) && TextFor(w) == text && MeantBy(w) == instant;
      WrittenIsRead(w);
      Meaning(w);
    }
  }

  /** What differs between texts that are alike up to the zone is what their zones are ahead. */
  lemma ZoneShifts(w: Written, z: Zone)
    requires IsWritten(w) && IsZone(z)
    ensures var shift := (Ahead(w.zone) - Ahead(z)) * 60 * 1_000_000_000;
      && TextFor(w.(zone := z)) == ClockPart(w) + Shown(w.nanos, w.digits) + ZoneText(z)
      && MeantBy(w.(zone := z)) == MeantBy(w) + shift
  {
  }

  function Fitting(instant: int): Result<int, ErrorCode> {
    if FitsI64(instant) then Ok(instant) else Err(MalformedTimestamp)
  }

  lemma UtcBefore(u: string, w: Written)
    requires IsWritten(w) && TextFor(w) == u + "Z"
    ensures w.zone == Utc('Z') && u == ClockPart(w) + Shown(w.nanos, w.digits)
  {
    var head, zone := ClockPart(w) + Shown(w.nanos, w.digits), ZoneText(w.zone);
    assert (head + zone)[|head| + |zone| - 1] == zone[|zone| - 1];
    assert (u + "Z")[|u|] == 'Z';
    assert (head + zone)[..|u|] == (u + "Z")[..|u|] == u;
  }

  lemma ParsesTo(w: Written, text: string, instant: int)
    requires IsWritten(w) && TextFor(w) == text && MeantBy(w) == instant
    ensures ParseOf(text) == Fitting(instant)
  {
    WrittenIsRead(w);
    Meaning(w);
  }

  lemma WithZone(u: string, w: Written, z: Zone)
    requires IsWritten(w) && u == ClockPart(w) + Shown(w.nanos, w.digits) && IsZone(z)
    ensures IsWritten(w.(zone := z)) && TextFor(w.(zone := z)) == u + ZoneText(z)
  {
  }

  lemma Rezoned(u: string, w: Written, z: Zone, text: string, instant: int) returns (v: Written)
    requires IsWritten(w) && MeantBy(w) == instant && w.zone == Utc('Z')
    requires u == ClockPart(w) + Shown(w.nanos, w.digits) && IsZone(z) && text == u + ZoneText(z)
    ensures IsWritten(v) && TextFor(v) == text && MeantBy(v) == instant - Ahead(z) * 60 * 1_000_000_000
  {
    v := w.(zone := z);
    WithZone(u, w, z);
    ZoneShifts(w, z);
  }

  lemma OffsetSays(utc: string, instant: int, z: Zone, text: string)
    requires Says(utc, instant) && utc != "" && utc[|utc| - 1] == 'Z' && IsZone(z)
    requires text == utc[..|utc| - 1] + ZoneText(z)
    ensures Says(text, instant - Ahead(z) * 60 * 1_000_000_000)
  {
    var w :| IsWritten(w) && TextFor(w) == utc && MeantBy(w) == instant;
    UtcBefore(utc[..|utc| - 1], w);
    var v := Rezoned(utc[..|utc| - 1], w, z, text, instant);
  }

  type Reader = string -> Result<int, ErrorCode>

  type Meaner = (string, int) -> bool

  /** read tells what a text is read as, and says what it means, without opening up how. */
  ghost predicate Hidden(read: Reader, says: Meaner) {
    && (forall text {:trigger ParseOf(text)} :: read(text) == ParseOf(text))
    && (forall text, instant {:trigger Says(text, instant)} :: says(text, instant) == Says(text, instant))
  }

  lemma ReadSays(read: Reader, says: Meaner, text: string, instant: int)
    requires Hidden(read, says)
    ensures read(text) == Ok(instant) ==> says(text, instant)
    ensures says(text, instant) ==> read(text) == Fitting(instant)
  {
    assert read(text) == ParseOf(text) && says(text, instant) == Says(text, instant);
    ParsedExactly(text, instant);
    if Says(text, instant) {
      var w :| IsWritten(w) && TextFor(w) == text && MeantBy(w) == instant;
      ParsesTo(w, text, instant);
    }
  }

  lemma ZonedSays(read: Reader, says: Meaner, utc: string, instant: int, z: Zone, text: string)
    requires Hidden(read, says) && says(utc, instant) && utc != "" && utc[|utc| - 1] == 'Z' && IsZone(z)
    requires text == utc[..|utc| - 1] + ZoneText(z)
    ensures says(text, instant - Ahead(z) * 60 * 1_000_000_000)
  {
    assert says(utc, instant) == Says(utc, instant);
    OffsetSays(utc, instant, z, text);
  }

  lemma ZonedRead(read: Reader, says: Meaner, utc: string, instant: int, z: Zone, text: string)
    requires Hidden(read, says) && read(utc) == Ok(instant) && utc != "" && utc[|utc| - 1] == 'Z' && IsZone(z)
    requires text == utc[..|utc| - 1] + ZoneText(z)
    ensures read(text) == Fitting(instant - Ahead(z) * 60 * 1_000_000_000)
  {
    ReadSays(read, says, utc, instant);
    ZonedSays(read, says, utc, instant, z, text);
    ReadSays(read, says, text, instant - Ahead(z) * 60 * 1_000_000_000);
  }

  /** When a text that ends in Z is read, then with +hh:mm for the Z it is read as that many
      minutes earlier, with -hh:mm as that many minutes later, and with z as the same instant,
      whenever that fits, and is refused otherwise. */
  lemma OffsetShifts(utc: string, instant: int, z: Zone, text: string)
    requires ParseOf(utc) == Ok(instant) && utc != "" && utc[|utc| - 1] == 'Z' && IsZone(z)
    requires text == utc[..|utc| - 1] + ZoneText(z)
    ensures ParseOf(text) == Fitting(instant - Ahead(z) * 60 * 1_000_000_000)
  {
    ZonedRead((t: string) => ParseOf(t), (t: string, n: int) => Says(t, n), utc, instant, z, text);
  }

  // ---- what is formatted ---------------------------------------------------

  lemma PaddedIsFixed(n: nat, width: nat)
    requires width > 0 && n < Pow10(width)
    ensures Padded(n, width) == Fixed(n, width)
  {
    PaddedLength(n, width);
    ValueOfPadded(n, width);
    ReadFixed(Padded(n, width));
  }

  lemma DateIsFixed(t: Date)
    requires IsDate(t) && 0 <= t.year <= 9999
    ensures DateText(t) == Fixed(t.year, 4) + "-" + Fixed(t.month, 2) + "-" + Fixed(t.day, 2)
  {
    PowersOfTen();
    PaddedIsFixed(t.year, 4);
    PaddedIsFixed(t.month, 2);
    PaddedIsFixed(t.day, 2);
  }

  lemma ClockIsFixed(second: int)
    requires 0 <= second < DAY
    ensures var (h, m, s) := (second / 3600, second % 3600 / 60, second % 60);
      && 0 <= h < 24 && 0 <= m < 60 && 0 <= s < 60
      && ClockText(second) == Fixed(h, 2) + ":" + Fixed(m, 2) + ":" + Fixed(s, 2)
  {
    PowersOfTen();
    ClockSplits(second);
    PaddedIsFixed(second / 3600, 2);
    PaddedIsFixed(second % 3600 / 60, 2);
    PaddedIsFixed(second % 60, 2);
  }

  lemma FractionIsShown(fraction: int, digits: nat, cut: int)
    requires 0 <= fraction < NANOS && digits <= 9 && cut == Floored(fraction, digits)
    ensures 0 <= cut < NANOS && Fixed(cut, 9)[digits..] == Zeros(9 - digits) && FractionText(fraction, digits) == Shown(cut, digits)
  {
    FractionFits(fraction, digits);
    PowersOfTen();
    var body := Fixed(fraction / Pow10(9 - digits), digits);
    FixedRead(fraction / Pow10(9 - digits), digits);
    var nanos := NanosOf(body);
    ValueOfBounds(body + Zeros(9 - digits));
    FixedRead(cut, 9);
    if digits > 0 {
      PaddedIsFixed(fraction / Pow10(9 - digits), digits);
    }
  }

  lemma CutShort(nanos: int, digits: nat)
    requires digits <= 9
    ensures Floored(nanos, digits) <= nanos < Floored(nanos, digits) + Pow10(9 - digits)
  {
    DivMod(nanos, Pow10(9 - digits));
  }

  /** An instant is written in UTC, with the given fraction digits and in capitals, as the last
      one those digits can show that is not after it. */
  lemma FormattedExactly(nanos: I64, digits: nat) returns (w: Written)
    requires digits <= 9
    ensures IsWritten(w) && TextOf(nanos, digits) == TextFor(w)
    ensures w.separator == 'T' && w.zone == Utc('Z') && w.digits == digits
    ensures MeantBy(w) <= nanos < MeantBy(w) + Pow10(9 - digits)
  {
    var seconds, cut := nanos / NANOS, Floored(nanos % NANOS, digits);
    var date, second := CivilFromDays(seconds / DAY), seconds % DAY;
    CivilInverse(seconds / DAY);
    YearRange(nanos);
    DateIsFixed(date);
    ClockIsFixed(second);
    FractionIsShown(nanos % NANOS, digits, cut);
    w := Written(date, 'T', second / 3600, second % 3600 / 60, second % 60, cut, digits, Utc('Z'));
    Meaning(w);
    StampMeans(nanos, digits);
    CutShort(nanos, digits);
    assert DateText(date) + "T" + ClockText(second) == ClockPart(w);
  }
}
