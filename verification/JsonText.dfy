/** JSON values and their canonical text. A char stands for one byte of the text. */
module JsonText {

  import opened Common
  import opened Folds
  import opened Decimals

  const MAX_DEPTH: nat := 32
  const MAX_TOKENS: nat := 4_000_000
  const MAX_RECORD: nat := 0x10_0000
  const MAX_ITEMS: nat := 200_000

  /** An integer is kept as its value, whichever 64-bit form holds it. A double is kept as the
      literal it was read from. Members are listed by ascending key. */
  datatype Json =
    | Null
    | Bool(b: bool)
    | Num(n: int)
    | Double(literal: string)
    | Str(s: string)
    | Arr(items: seq<Json>)
    | Obj(members: seq<Member>)

  datatype Member = Member(key: string, value: Json)

  // ---- strings -------------------------------------------------------------

  function HexDigit(d: nat): char
    requires d < 16
  {
    if d < 10 then ('0' as int + d) as char else ('a' as int + (d - 10)) as char
  }

  /** How one char is written inside quotes. */
  function Esc(c: char): (e: string)
    ensures e != []
  {
    if c == '\"' then "\\\""
    else if c == '\\' then "\\\\"
    else if c as int == 8 then "\\b"
    else if c as int == 12 then "\\f"
    else if c as int == 10 then "\\n"
    else if c as int == 13 then "\\r"
    else if c as int == 9 then "\\t"
    else if c as int < 32 then "\\u00" + [HexDigit(c as int / 16), HexDigit(c as int % 16)]
    else [c]
  }

  function Escapes(s: string): string {
    Concat(s, Esc)
  }

  function Quoted(s: string): string {
    "\"" + (Escapes(s) + "\"")
  }

  // ---- values --------------------------------------------------------------

  function Magnitude(n: int): nat {
    if n < 0 then -n else n
  }

  function Sign(n: int): string {
    if n < 0 then "-" else ""
  }

  function IntText(n: int): string {
    Sign(n) + Decimal(Magnitude(n))
  }

  function Spaces(n: nat): (s: string)
    ensures |s| == n && forall i | 0 <= i < n :: s[i] == ' '
  {
    seq(n, i => ' ')
  }

  function NewLine(indent: nat, depth: nat): string {
    if indent > 0 then "\n" + Spaces(indent * depth) else ""
  }

  function Colon(indent: nat): string {
    if indent > 0 then ": " else ":"
  }

  function Width(v: Json): nat {
    match v
    case Arr(items) => |items|
    case Obj(members) => |members|
    case _ => 0
  }

  function Dump(v: Json, indent: nat, depth: nat): string
    decreases v, Width(v) + 1
  {
    match v
    case Null => "null"
    case Bool(b) => if b then "true" else "false"
    case Num(n) => IntText(n)
    case Double(literal) => literal
    case Str(s) => Quoted(s)
    case Arr(items) => if items == [] then "[]" else "[" + ItemsText(v, 0, indent, depth)
    case Obj(members) => if members == [] then "{}" else "{" + MembersText(v, 0, indent, depth)
  }

  /** An array's text from before its i-th element on. */
  function ItemsText(v: Json, i: nat, indent: nat, depth: nat): string
    requires v.Arr? && i < |v.items|
    decreases v, |v.items| - i, 0
  {
    NewLine(indent, depth + 1) + (Dump(v.items[i], indent, depth + 1) + AfterItem(v, i, indent, depth))
  }

  function AfterItem(v: Json, i: nat, indent: nat, depth: nat): string
    requires v.Arr? && i < |v.items|
    decreases v, |v.items| - i - 1, 1
  {
    if i + 1 == |v.items| then NewLine(indent, depth) + "]" else "," + ItemsText(v, i + 1, indent, depth)
  }

  /** An object's text from before its i-th member on. */
  function MembersText(v: Json, i: nat, indent: nat, depth: nat): string
    requires v.Obj? && i < |v.members|
    decreases v, |v.members| - i, 0
  {
    NewLine(indent, depth + 1) + (Quoted(v.members[i].key) + (Colon(indent)
      + (Dump(v.members[i].value, indent, depth + 1) + AfterMember(v, i, indent, depth))))
  }

  function AfterMember(v: Json, i: nat, indent: nat, depth: nat): string
    requires v.Obj? && i < |v.members|
    decreases v, |v.members| - i - 1, 1
  {
    if i + 1 == |v.members| then NewLine(indent, depth) + "}" else "," + MembersText(v, i + 1, indent, depth)
  }

  // ---- what fits -----------------------------------------------------------

  /** The byte order of keys. */
  predicate KeyLess(a: string, b: string) {
    LessFrom(a, b, 0)
  }

  predicate LessFrom(a: string, b: string, i: nat)
    decreases |b| - i
  {
    i < |b| && (i >= |a| || a[i] < b[i] || (a[i] == b[i] && LessFrom(a, b, i + 1)))
  }

  /** Each key is less than the next. */
  predicate Ascending(members: seq<Member>) {
    AscendingTo(members, |members|)
  }

  predicate AscendingTo(members: seq<Member>, n: nat)
    requires n <= |members|
  {
    n <= 1 || (KeyLess(members[n - 2].key, members[n - 1].key) && AscendingTo(members, n - 1))
  }

  lemma {:induction false} LessTransitive(a: string, b: string, c: string, i: nat)
    requires LessFrom(a, b, i) && LessFrom(b, c, i)
    ensures LessFrom(a, c, i)
    decreases |b| - i
  {
    if i < |a| && i < |b| && i < |c| && a[i] == b[i] == c[i] {
      LessTransitive(a, b, c, i + 1);
    }
  }

  lemma {:induction false} LessDiffers(a: string, b: string, i: nat)
    requires LessFrom(a, b, i)
    ensures a != b
    decreases |b| - i
  {
    if i < |a| && i < |b| && a[i] == b[i] {
      LessDiffers(a, b, i + 1);
    }
  }

  /** So every key is less than every later one. */
  lemma {:induction false} AscendingPairs(members: seq<Member>, n: nat, i: nat, j: nat)
    requires i < j < n <= |members| && AscendingTo(members, n)
    ensures KeyLess(members[i].key, members[j].key)
  {
    if j < n - 1 {
      AscendingPairs(members, n - 1, i, j);
    } else if i < n - 2 {
      AscendingPairs(members, n - 1, i, n - 2);
      LessTransitive(members[i].key, members[n - 2].key, members[j].key, 0);
    }
  }

  /** The size budget of strings is looked at only after an escape: past it, every char is plain. */
  predicate Readable(s: string) {
    forall i | MAX_RECORD <= i < |s| :: Esc(s[i]) == [s[i]]
  }

  /** Within every budget of the parser, with integers of 64 bits and no doubles. */
  predicate Fits(v: Json, depth: nat)
    decreases v
  {
    && depth <= MAX_DEPTH
    && match v
       case Num(n) => I64_MIN <= n <= U64_MAX
       case Double(_) => false
       case Str(s) => Readable(s)
       case Arr(items) => |items| <= MAX_ITEMS && forall i | 0 <= i < |items| :: Fits(items[i], depth + 1)
       case Obj(members) => Ascending(members)
                            && forall i | 0 <= i < |members| :: Readable(members[i].key) && Fits(members[i].value, depth + 1)
       case _ => true
  }

  /** How many values there are, itself included. */
  function Tokens(v: Json): nat
    decreases v, Width(v) + 1
  {
    match v
    case Arr(items) => 1 + ItemTokens(v, |items|)
    case Obj(members) => 1 + MemberTokens(v, |members|)
    case _ => 1
  }

  function ItemTokens(v: Json, n: nat): nat
    requires v.Arr? && n <= |v.items|
    decreases v, n
  {
    if n == 0 then 0 else ItemTokens(v, n - 1) + Tokens(v.items[n - 1])
  }

  function MemberTokens(v: Json, n: nat): nat
    requires v.Obj? && n <= |v.members|
    decreases v, n
  {
    if n == 0 then 0 else MemberTokens(v, n - 1) + Tokens(v.members[n - 1].value)
  }

  lemma {:induction false} ItemTokensGrow(v: Json, i: nat, n: nat)
    requires v.Arr? && i <= n <= |v.items|
    ensures ItemTokens(v, i) <= ItemTokens(v, n)
  {
    if i < n {
      ItemTokensGrow(v, i, n - 1);
    }
  }

  lemma {:induction false} MemberTokensGrow(v: Json, i: nat, n: nat)
    requires v.Obj? && i <= n <= |v.members|
    ensures MemberTokens(v, i) <= MemberTokens(v, n)
  {
    if i < n {
      MemberTokensGrow(v, i, n - 1);
    }
  }

  // ---- writing -------------------------------------------------------------

  method EscapeString(out: string, value: string) returns (r: string)
    ensures r == out + Quoted(value)
  {
    r := out + "\"";
    for i := 0 to |value|
      invariant r == (out + "\"") + Escapes(value[..i])
    {
      ConcatAt(value, i, Esc);
      Associative(out + "\"", Escapes(value[..i]), Esc(value[i]));
      r := r + Esc(value[i]);
    }
    TakeAll(value);
    r := r + "\"";
    assert ((out + "\"") + Escapes(value)) + "\"" == out + ("\"" + (Escapes(value) + "\""));
  }

  method DumpInto(out: string, v: Json, indent: nat, depth: nat) returns (r: string)
    ensures r == out + Dump(v, indent, depth)
    decreases v, Width(v) + 1
  {
    match v
    case Null => r := out + "null";
    case Bool(b) => r := out + if b then "true" else "false";
    case Num(n) => r := out + IntText(n);
    case Double(literal) => r := out + literal;
    case Str(s) => r := EscapeString(out, s);
    case Arr(items) =>
      if items == [] {
        return out + "[]";
      }
      r := DumpItems(out + "[", v, indent, depth);
      Associative(out, "[", ItemsText(v, 0, indent, depth));
    case Obj(members) =>
      if members == [] {
        return out + "{}";
      }
      r := DumpMembers(out + "{", v, indent, depth);
      Associative(out, "{", MembersText(v, 0, indent, depth));
  }

  method DumpItems(out: string, v: Json, indent: nat, depth: nat) returns (r: string)
    requires v.Arr? && v.items != []
    ensures r == out + ItemsText(v, 0, indent, depth)
    decreases v, Width(v)
  {
    r := out;
    var i := 0;
    while i < |v.items|
      invariant 0 <= i <= |v.items|
      invariant r + (if i < |v.items| then (if i == 0 then ItemsText(v, 0, indent, depth) else "," + ItemsText(v, i, indent, depth))
                     else NewLine(indent, depth) + "]")
             == out + ItemsText(v, 0, indent, depth)
    {
      ghost var before := r;
      if i > 0 {
        r := r + ",";
      }
      r := r + NewLine(indent, depth + 1);
      r := DumpInto(r, v.items[i], indent, depth + 1);
      Rejoin(before, if i > 0 then "," else "", NewLine(indent, depth + 1), Dump(v.items[i], indent, depth + 1), AfterItem(v, i, indent, depth));
      i := i + 1;
    }
    Associative(r, NewLine(indent, depth), "]");
    r := r + NewLine(indent, depth);
    r := r + "]";
  }

  lemma Rejoin(a: string, b: string, c: string, d: string, e: string)
    ensures (((a + b) + c) + d) + e == a + (b + (c + (d + e)))
    ensures a + "" == a && "" + (c + (d + e)) == c + (d + e)
  {
  }

  method DumpMembers(out: string, v: Json, indent: nat, depth: nat) returns (r: string)
    requires v.Obj? && v.members != []
    ensures r == out + MembersText(v, 0, indent, depth)
    decreases v, Width(v)
  {
    r := out;
    var i := 0;
    while i < |v.members|
      invariant 0 <= i <= |v.members|
      invariant r + (if i < |v.members| then (if i == 0 then MembersText(v, 0, indent, depth) else "," + MembersText(v, i, indent, depth))
                     else NewLine(indent, depth) + "}")
             == out + MembersText(v, 0, indent, depth)
    {
      ghost var before := r;
      if i > 0 {
        r := r + ",";
      }
      r := r + NewLine(indent, depth + 1);
      r := EscapeString(r, v.members[i].key);
      r := r + Colon(indent);
      r := DumpInto(r, v.members[i].value, indent, depth + 1);
      RejoinMember(before, if i > 0 then "," else "", NewLine(indent, depth + 1), Quoted(v.members[i].key), Colon(indent),
                   Dump(v.members[i].value, indent, depth + 1), AfterMember(v, i, indent, depth));
      i := i + 1;
    }
    Associative(r, NewLine(indent, depth), "}");
    r := r + NewLine(indent, depth);
    r := r + "}";
  }

  lemma RejoinMember(a: string, b: string, c: string, k: string, s: string, d: string, e: string)
    ensures (((((a + b) + c) + k) + s) + d) + e == a + (b + (c + (k + (s + (d + e)))))
    ensures a + "" == a && "" + (c + (k + (s + (d + e)))) == c + (k + (s + (d + e)))
  {
  }
}
