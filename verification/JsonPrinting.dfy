/** What is written for a value: compact, or with every element and member on a line of its own. */
module JsonPrinting {

  import opened Common
  import opened Decimals
  import opened Folds
  import opened JsonText
  import JsonTokens
  import opened JsonNumbers

  /** A new line, indented as deep as it is nested; nothing in compact text. */
  function Break(indent: nat, depth: nat): string {
    if indent == 0 then "" else "\n" + seq(indent * depth, i => ' ')
  }

  function Joined(parts: seq<string>, separator: string): string
    requires parts != []
  {
    if |parts| == 1 then parts[0] else parts[0] + (separator + Joined(parts[1..], separator))
  }

  /** The parts between brackets, with commas between them. */
  function Bracketed(parts: seq<string>, open: string, close: string, indent: nat, depth: nat): string {
    if parts == [] then open + close
    else open + (Break(indent, depth + 1) + (Joined(parts, "," + Break(indent, depth + 1)) + (Break(indent, depth) + close)))
  }

  function ItemTexts(items: seq<Json>, indent: nat, depth: nat): seq<string> {
    seq(|items|, i requires 0 <= i < |items| => Dump(items[i], indent, depth))
  }

  function MemberTexts(members: seq<Member>, indent: nat, depth: nat): seq<string> {
    seq(|members|, i requires 0 <= i < |members| =>
      Quoted(members[i].key) + ((if indent == 0 then ":" else ": ") + Dump(members[i].value, indent, depth)))
  }

  lemma BreakIs(indent: nat, depth: nat)
    ensures NewLine(indent, depth) == Break(indent, depth)
  {
    assert Spaces(indent * depth) == seq(indent * depth, i => ' ');
  }

  lemma JoinedFrom(parts: seq<string>, i: nat, separator: string)
    requires i < |parts|
    ensures Joined(parts[i..], separator) ==
      if i + 1 == |parts| then parts[i] else parts[i] + (separator + Joined(parts[i + 1..], separator))
  {
    if i + 1 < |parts| {
      assert parts[i..][1..] == parts[i + 1..];
    }
  }

  lemma {:induction false} ItemsJoined(v: Json, i: nat, indent: nat, depth: nat, parts: seq<string>)
    requires v.Arr? && i < |v.items| && parts == ItemTexts(v.items, indent, depth + 1)
    ensures ItemsText(v, i, indent, depth)
         == Break(indent, depth + 1) + (Joined(parts[i..], "," + Break(indent, depth + 1)) + (Break(indent, depth) + "]"))
    decreases |v.items| - i
  {
    var separator, rest := "," + Break(indent, depth + 1), Break(indent, depth) + "]";
    BreakIs(indent, depth + 1);
    BreakIs(indent, depth);
    JoinedFrom(parts, i, separator);
    if i + 1 < |v.items| {
      ItemsJoined(v, i + 1, indent, depth, parts);
      Associative(",", Break(indent, depth + 1), Joined(parts[i + 1..], separator) + rest);
      Spread(parts[i], separator, Joined(parts[i + 1..], separator), rest);
    }
  }

  lemma Spread(a: string, b: string, c: string, d: string)
    ensures (a + (b + c)) + d == a + (b + (c + d))
  {
  }

  /** An array is its elements between brackets. */
  lemma ArrayShown(items: seq<Json>, indent: nat, depth: nat)
    ensures Dump(Arr(items), indent, depth) == Bracketed(ItemTexts(items, indent, depth + 1), "[", "]", indent, depth)
  {
    if items != [] {
      var parts := ItemTexts(items, indent, depth + 1);
      ItemsJoined(Arr(items), 0, indent, depth, parts);
      assert parts[0..] == parts;
    }
  }

  lemma {:induction false} MembersJoined(v: Json, i: nat, indent: nat, depth: nat, parts: seq<string>)
    requires v.Obj? && i < |v.members| && parts == MemberTexts(v.members, indent, depth + 1)
    ensures MembersText(v, i, indent, depth)
         == Break(indent, depth + 1) + (Joined(parts[i..], "," + Break(indent, depth + 1)) + (Break(indent, depth) + "}"))
    decreases |v.members| - i
  {
    var separator, rest := "," + Break(indent, depth + 1), Break(indent, depth) + "}";
    var (key, colon, value) := (Quoted(v.members[i].key), Colon(indent), Dump(v.members[i].value, indent, depth + 1));
    BreakIs(indent, depth + 1);
    BreakIs(indent, depth);
    JoinedFrom(parts, i, separator);
    assert parts[i] == key + (colon + value);
    Spread(key, colon, value, AfterMember(v, i, indent, depth));
    if i + 1 < |v.members| {
      MembersJoined(v, i + 1, indent, depth, parts);
      Associative(",", Break(indent, depth + 1), Joined(parts[i + 1..], separator) + rest);
      Spread(parts[i], separator, Joined(parts[i + 1..], separator), rest);
    }
  }

  /** An object is its keys and values between braces. */
  lemma ObjectShown(members: seq<Member>, indent: nat, depth: nat)
    ensures Dump(Obj(members), indent, depth) == Bracketed(MemberTexts(members, indent, depth + 1), "{", "}", indent, depth)
  {
    if members != [] {
      var parts := MemberTexts(members, indent, depth + 1);
      MembersJoined(Obj(members), 0, indent, depth, parts);
      assert parts[0..] == parts;
    }
  }

  lemma {:induction false} NoLeadingZero(n: nat)
    ensures AllDigits(Decimal(n)) && (Decimal(n)[0] == '0' ==> Decimal(n) == "0") && ValueOf(Decimal(n)) == n
  {
    ValueOfDecimal(n);
    JsonTokens.DecimalLead(n);
  }

  /** An integer is the number of the grammar that has its value. */
  lemma IntegerShown(n: int, indent: nat, depth: nat) returns (l: Literal)
    ensures IsLiteral(l) && IsWhole(l) && NumberIn(l) == n && l.minus == (n < 0) && Dump(Num(n), indent, depth) == Written(l)
  {
    var whole := Decimal(if n < 0 then -n else n);
    NoLeadingZero(if n < 0 then -n else n);
    l := Literal(n < 0, whole, "", "", "", "");
    assert Point(l) + Power(l) == "" && whole + "" == whole;
  }
}
