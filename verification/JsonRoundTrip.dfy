/** A dumped value is a text of itself, so it is parsed back. */
module JsonRoundTrip {

  import opened Common
  import opened Decimals
  import opened JsonText
  import opened JsonTokens
  import opened JsonLayout
  import opened JsonParser

  // ---- dumped texts --------------------------------------------------------

  predicate AllSpace(s: string) {
    forall i | 0 <= i < |s| :: IsSpace(s[i])
  }

  lemma NewLineIsSpace(indent: nat, depth: nat)
    ensures AllSpace(NewLine(indent, depth))
  {
  }

  lemma DumpFirst(v: Json, indent: nat, depth: nat)
    requires !v.Double?
    ensures Dump(v, indent, depth) != [] && !IsSpace(Dump(v, indent, depth)[0])
  {
    if v.Num? && v.n >= 0 {
      assert IntText(v.n) == Decimal(v.n);
    }
  }

  /** White space, and then something else, shown at p. */
  lemma SpaceShown(text: string, p: nat, space: string, rest: string)
    requires At(text, p, space + rest) && AllSpace(space) && rest != [] && !IsSpace(rest[0])
    ensures SpaceUntil(text, p, p + |space|) && At(text, p + |space|, rest)
    ensures p + |space| < |text| && text[p + |space|] == rest[0]
  {
    AtSplit(text, p, space, rest);
    AtChar(text, p + |space|, rest, 0);
    forall j | p <= j < p + |space| ensures IsSpace(text[j]) {
      assert text[p + (j - p)] == space[j - p];
    }
  }

  /** at tells what the text holds where, without opening it up. */
  ghost predicate Places(text: string, at: (nat, string) -> bool) {
    forall p: nat, part: string {:trigger At(text, p, part)} :: at(p, part) <==> At(text, p, part)
  }

  /** The value is dumped at p, fits, and no number runs on past it. */
  ghost predicate Shows(text: string, at: (nat, string) -> bool, p: nat, v: Json, indent: nat, depth: nat) {
    Fits(v, depth) && at(p, Dump(v, indent, depth)) && NumberEnds(text, p + |Dump(v, indent, depth)|)
  }

  /** The parts are the elements from the i-th on, up to end. */
  ghost predicate ItemsFrom(text: string, finite: string -> bool, p: nat, parts: seq<Part>, v: Json, i: nat, depth: nat, end: nat)
    requires v.Arr? && i < |v.items|
  {
    && Elements(text, finite, p, parts, v.items[i..], false, depth) && end == From(parts, |parts|, p)
    && PartNodes(parts) + ItemTokens(v, i) == ItemTokens(v, |v.items|)
  }

  /** The parts are the members from the i-th on, up to end. */
  ghost predicate MembersFrom(text: string, finite: string -> bool, p: nat, parts: seq<Part>, v: Json, i: nat, depth: nat, end: nat)
    requires v.Obj? && i < |v.members|
  {
    && Entries(text, finite, p, parts, v.members[i..], false, depth) && end == From(parts, |parts|, p)
    && PartNodes(parts) + MemberTokens(v, i) == MemberTokens(v, |v.members|)
  }

  /** listed tells which parts are the items from which on, without opening them up. */
  ghost predicate ElementLists(text: string, finite: string -> bool, v: Json, depth: nat, listed: (nat, seq<Part>, nat, nat) -> bool)
    requires v.Arr?
  {
    forall p: nat, parts: seq<Part>, i: nat, end: nat {:trigger ItemsFrom(text, finite, p, parts, v, i, depth, end)} | i < |v.items| ::
      listed(p, parts, i, end) <==> ItemsFrom(text, finite, p, parts, v, i, depth, end)
  }

  ghost predicate ItemTails(v: Json, indent: nat, depth: nat, tail: nat -> string)
    requires v.Arr?
  {
    forall i: nat {:trigger ItemsText(v, i, indent, depth)} | i < |v.items| :: tail(i) == ItemsText(v, i, indent, depth)
  }

  /** listed tells which parts are the members from which on, without opening them up. */
  ghost predicate EntryLists(text: string, finite: string -> bool, v: Json, depth: nat, listed: (nat, seq<Part>, nat, nat) -> bool)
    requires v.Obj?
  {
    forall p: nat, parts: seq<Part>, i: nat, end: nat {:trigger MembersFrom(text, finite, p, parts, v, i, depth, end)} | i < |v.members| ::
      listed(p, parts, i, end) <==> MembersFrom(text, finite, p, parts, v, i, depth, end)
  }

  ghost predicate MemberTails(v: Json, indent: nat, depth: nat, tail: nat -> string)
    requires v.Obj?
  {
    forall i: nat {:trigger MembersText(v, i, indent, depth)} | i < |v.members| :: tail(i) == MembersText(v, i, indent, depth)
  }

  /** A dumped value is laid out where it is. */
  lemma {:induction false} DumpLaidOut(
    text: string, finite: string -> bool, at: (nat, string) -> bool, p: nat, v: Json, indent: nat, depth: nat) returns (t: Layout)
    requires Places(text, at)
    requires Shows(text, at, p, v, indent, depth)
    ensures LaidOut(text, finite, t, v, depth) && t.start == p && t.end == p + |Dump(v, indent, depth)| && Nodes(t) == Tokens(v)
    decreases v, Width(v) + 1
  {
    var end := p + |Dump(v, indent, depth)|;
    if v.Arr? && v.items != [] {
      ArrayShown(text, at, p, v, indent, depth);
      ghost var tail := (i: nat) => if i < |v.items| then ItemsText(v, i, indent, depth) else "";
      ghost var listed := (q: nat, parts: seq<Part>, i: nat, e: nat) => i < |v.items| && ItemsFrom(text, finite, q, parts, v, i, depth, e);
      var parts := ItemsLaidOut(text, finite, at, tail, listed, p + 1, v, 0, indent, depth);
      t := Layout(p, end, [], parts);
      ArrayLaidOut(text, finite, t, v, depth);
    } else if v.Obj? && v.members != [] {
      ObjectShown(text, at, p, v, indent, depth);
      ghost var tail := (i: nat) => if i < |v.members| then MembersText(v, i, indent, depth) else "";
      ghost var listed := (q: nat, parts: seq<Part>, i: nat, e: nat) => i < |v.members| && MembersFrom(text, finite, q, parts, v, i, depth, e);
      var parts := MembersLaidOut(text, finite, at, tail, listed, p + 1, v, 0, indent, depth);
      t := Layout(p, end, v.members, parts);
      ObjectLaidOut(text, finite, t, v, depth);
    } else {
      t := LeafLaidOut(text, finite, at, p, v, indent, depth);
    }
  }

  lemma ArrayLaidOut(text: string, finite: string -> bool, t: Layout, v: Json, depth: nat)
    requires v.Arr? && v.items != [] && Fits(v, depth) && t.start < t.end <= |text| && text[t.start] == '['
    requires ItemsFrom(text, finite, t.start + 1, t.parts, v, 0, depth, t.end)
    ensures LaidOut(text, finite, t, v, depth) && Nodes(t) == Tokens(v)
  {
    assert v.items[0..] == v.items;
  }

  lemma ObjectLaidOut(text: string, finite: string -> bool, t: Layout, v: Json, depth: nat)
    requires v.Obj? && v.members != [] && Fits(v, depth) && t.start < t.end <= |text| && text[t.start] == '{'
    requires t.order == v.members && MembersFrom(text, finite, t.start + 1, t.parts, v, 0, depth, t.end)
    ensures LaidOut(text, finite, t, v, depth) && Nodes(t) == Tokens(v)
  {
    assert v.members[0..] == v.members && v.members[..|v.members|] == v.members;
    AscendingSorted(v.members, |v.members|);
  }

  lemma LeafLaidOut(text: string, finite: string -> bool, at: (nat, string) -> bool, p: nat, v: Json, indent: nat, depth: nat) returns (t: Layout)
    requires Places(text, at)
    requires Shows(text, at, p, v, indent, depth) && Width(v) == 0
    ensures LaidOut(text, finite, t, v, depth) && t.start == p && t.end == p + |Dump(v, indent, depth)| && Nodes(t) == Tokens(v)
  {
    var dump := Dump(v, indent, depth);
    DumpFirst(v, indent, depth);
    assert At(text, p, dump);
    t := Layout(p, p + |dump|, [], []);
    if v.Arr? || v.Obj? {
      AtChar(text, p, dump, 0);
      AtChar(text, p, dump, 1);
    } else if v.Num? {
      IntegerSpan(text, p, v.n);
      NumberRead(text, p, v.n, finite);
    } else if v.Str? {
      QuotedRead(text, p, v.s, t.end);
    }
  }

  lemma ArrayShown(text: string, at: (nat, string) -> bool, p: nat, v: Json, indent: nat, depth: nat)
    requires Places(text, at)
    requires Shows(text, at, p, v, indent, depth) && v.Arr? && v.items != []
    ensures p < |text| && text[p] == '[' && at(p + 1, ItemsText(v, 0, indent, depth))
    ensures |Dump(v, indent, depth)| == 1 + |ItemsText(v, 0, indent, depth)| && p + |Dump(v, indent, depth)| <= |text|
  {
    AtSplit(text, p, "[", ItemsText(v, 0, indent, depth));
    AtChar(text, p, "[", 0);
  }

  lemma ObjectShown(text: string, at: (nat, string) -> bool, p: nat, v: Json, indent: nat, depth: nat)
    requires Places(text, at)
    requires Shows(text, at, p, v, indent, depth) && v.Obj? && v.members != []
    ensures p < |text| && text[p] == '{' && at(p + 1, MembersText(v, 0, indent, depth))
    ensures |Dump(v, indent, depth)| == 1 + |MembersText(v, 0, indent, depth)| && p + |Dump(v, indent, depth)| <= |text|
  {
    AtSplit(text, p, "{", MembersText(v, 0, indent, depth));
    AtChar(text, p, "{", 0);
  }

  lemma {:induction false} ItemsLaidOut(
    text: string, finite: string -> bool, at: (nat, string) -> bool, tail: nat -> string, listed: (nat, seq<Part>, nat, nat) -> bool,
    p: nat, v: Json, i: nat, indent: nat, depth: nat)
    returns (parts: seq<Part>)
    requires Places(text, at) && v.Arr? && ElementLists(text, finite, v, depth, listed)
    requires i < |v.items| && Fits(v, depth) && ItemTails(v, indent, depth, tail) && at(p, tail(i))
    ensures listed(p, parts, i, p + |tail(i)|)
    decreases v, |v.items| - i
  {
    var start, mark, end := ItemShown(text, at, tail, p, v, i, indent, depth);
    var value := DumpLaidOut(text, finite, at, start, v.items[i], indent, depth + 1);
    var rest := [];
    if i + 1 < |v.items| {
      rest := ItemsLaidOut(text, finite, at, tail, listed, mark + 1, v, i + 1, indent, depth);
    }
    var w := Part(0, 0, 0, value, mark);
    parts := [w] + rest;
    ElementsJoin(text, finite, listed, p, w, rest, v, i, depth, end);
  }

  lemma ElementsJoin(
    text: string, finite: string -> bool, listed: (nat, seq<Part>, nat, nat) -> bool, p: nat, w: Part, rest: seq<Part>, v: Json, i: nat,
    depth: nat, end: nat)
    requires v.Arr? && i < |v.items| && ElementLists(text, finite, v, depth, listed)
    requires SpaceUntil(text, p, w.value.start) && LaidOut(text, finite, w.value, v.items[i], depth + 1)
    requires SpaceUntil(text, w.value.end, w.mark) && w.mark < |text| && Nodes(w.value) == Tokens(v.items[i])
    requires text[w.mark] == if i + 1 == |v.items| then ']' else ','
    requires if i + 1 == |v.items| then end == w.mark + 1 && rest == [] else listed(w.mark + 1, rest, i + 1, end)
    ensures listed(p, [w] + rest, i, end)
  {
    assert i + 1 < |v.items| ==> ItemsFrom(text, finite, w.mark + 1, rest, v, i + 1, depth, end);
    assert ElementAt(text, finite, p, w, v.items[i], depth);
    ElementsBefore(text, finite, p, w, v.items[i], rest, v.items[i + 1..], depth);
    assert [v.items[i]] + v.items[i + 1..] == v.items[i..];
    NodesBefore(w, rest);
    assert ItemsFrom(text, finite, p, [w] + rest, v, i, depth, end);
  }

  /** White space at p, and what comes after it. */
  lemma LeadShown(text: string, at: (nat, string) -> bool, p: nat, lead: string, rest: string)
    requires Places(text, at) && at(p, lead + rest)
    requires AllSpace(lead) && rest != [] && !IsSpace(rest[0])
    ensures SpaceUntil(text, p, p + |lead|) && at(p + |lead|, rest)
    ensures p + |lead| < |text| && text[p + |lead|] == rest[0]
  {
    SpaceShown(text, p, lead, rest);
  }

  /** A part at p, and what comes after it. */
  lemma PartShown(text: string, at: (nat, string) -> bool, p: nat, part: string, after: string)
    requires Places(text, at) && at(p, part + after)
    requires after != [] && Ends(after[0])
    ensures at(p, part) && at(p + |part|, after) && NumberEnds(text, p + |part|)
  {
    AtSplit(text, p, part, after);
    AtChar(text, p + |part|, after, 0);
  }

  predicate Ends(c: char) {
    IsSpace(c) || c == ',' || c == ':' || c == ']' || c == '}'
  }

  lemma PairFirst(a: string, b: string)
    requires a != []
    ensures a + b != [] && (a + b)[0] == a[0]
  {
  }

  /** A comma at p, and what comes after it. */
  lemma CommaShown(text: string, at: (nat, string) -> bool, p: nat, rest: string)
    requires Places(text, at) && at(p, "," + rest)
    ensures p < |text| && text[p] == ',' && SpaceUntil(text, p, p) && at(p + 1, rest)
  {
    AtSplit(text, p, ",", rest);
    AtChar(text, p, ",", 0);
  }

  /** An element, and what follows it. */
  lemma ItemShown(text: string, at: (nat, string) -> bool, tail: nat -> string, p: nat, v: Json, i: nat, indent: nat, depth: nat)
    returns (start: nat, mark: nat, end: nat)
    requires Places(text, at)
    requires v.Arr? && i < |v.items| && Fits(v, depth) && ItemTails(v, indent, depth, tail) && at(p, tail(i))
    ensures SpaceUntil(text, p, start) && Shows(text, at, start, v.items[i], indent, depth + 1)
    ensures SpaceUntil(text, start + |Dump(v.items[i], indent, depth + 1)|, mark)
    ensures mark < |text| && text[mark] == if i + 1 == |v.items| then ']' else ','
    ensures end == p + |tail(i)|
    ensures if i + 1 == |v.items| then end == mark + 1 else at(mark + 1, tail(i + 1)) && end == mark + 1 + |tail(i + 1)|
  {
    var (lead, dump, after) := (NewLine(indent, depth + 1), Dump(v.items[i], indent, depth + 1), AfterItem(v, i, indent, depth));
    assert tail(i) == ItemsText(v, i, indent, depth);
    DumpFirst(v.items[i], indent, depth + 1);
    PairFirst(dump, after);
    NewLineIsSpace(indent, depth + 1);
    LeadShown(text, at, p, lead, dump + after);
    start := p + |lead|;
    mark, end := AfterItemShown(text, at, tail, start, dump, v, i, indent, depth);
  }

  lemma AfterItemShown(text: string, at: (nat, string) -> bool, tail: nat -> string, p: nat, dump: string, v: Json, i: nat, indent: nat, depth: nat)
    returns (mark: nat, end: nat)
    requires Places(text, at) && v.Arr? && i < |v.items| && ItemTails(v, indent, depth, tail) && at(p, dump + AfterItem(v, i, indent, depth))
    ensures at(p, dump) && NumberEnds(text, p + |dump|) && SpaceUntil(text, p + |dump|, mark)
    ensures mark < |text| && text[mark] == if i + 1 == |v.items| then ']' else ','
    ensures end == p + |dump| + |AfterItem(v, i, indent, depth)|
    ensures if i + 1 == |v.items| then end == mark + 1 else at(mark + 1, tail(i + 1)) && end == mark + 1 + |tail(i + 1)|
  {
    var after := AfterItem(v, i, indent, depth);
    end := p + |dump| + |after|;
    if i + 1 == |v.items| {
      NewLineIsSpace(indent, depth);
      PairFirst(NewLine(indent, depth) + "]", "");
      PartShown(text, at, p, dump, after);
      LeadShown(text, at, p + |dump|, NewLine(indent, depth), "]");
      mark := p + |dump| + |NewLine(indent, depth)|;
    } else {
      assert tail(i + 1) == ItemsText(v, i + 1, indent, depth);
      PartShown(text, at, p, dump, after);
      CommaShown(text, at, p + |dump|, tail(i + 1));
      mark := p + |dump|;
    }
  }

  lemma {:induction false} MembersLaidOut(
    text: string, finite: string -> bool, at: (nat, string) -> bool, tail: nat -> string, listed: (nat, seq<Part>, nat, nat) -> bool,
    p: nat, v: Json, i: nat, indent: nat, depth: nat)
    returns (parts: seq<Part>)
    requires Places(text, at) && v.Obj? && EntryLists(text, finite, v, depth, listed)
    requires i < |v.members| && Fits(v, depth) && MemberTails(v, indent, depth, tail) && at(p, tail(i))
    ensures listed(p, parts, i, p + |tail(i)|)
    decreases v, |v.members| - i
  {
    var key, colon, start, mark, end := EntryShown(text, at, tail, p, v, i, indent, depth);
    var value := DumpLaidOut(text, finite, at, start, v.members[i].value, indent, depth + 1);
    var rest := [];
    if i + 1 < |v.members| {
      rest := MembersLaidOut(text, finite, at, tail, listed, mark + 1, v, i + 1, indent, depth);
    }
    var w := Part(key, colon, colon, value, mark);
    parts := [w] + rest;
    EntriesJoin(text, finite, at, listed, p, w, rest, v, i, depth, end);
  }

  ghost predicate EntryKey(at: (nat, string) -> bool, p: nat, key: string, end: nat) {
    Readable(key) && at(p, Quoted(key)) && end == p + |Quoted(key)|
  }

  lemma KeyRead(text: string, at: (nat, string) -> bool, p: nat, key: string, end: nat)
    requires Places(text, at) && EntryKey(at, p, key, end)
    ensures StringAt(text, p, key, end)
  {
    assert At(text, p, Quoted(key));
    QuotedRead(text, p, key, end);
  }

  lemma EntriesJoin(
    text: string, finite: string -> bool, at: (nat, string) -> bool, listed: (nat, seq<Part>, nat, nat) -> bool, p: nat, w: Part, rest: seq<Part>,
    v: Json, i: nat, depth: nat, end: nat)
    requires Places(text, at)
    requires v.Obj? && i < |v.members| && EntryLists(text, finite, v, depth, listed)
    requires SpaceUntil(text, p, w.key) && w.key < |text| && EntryKey(at, w.key, v.members[i].key, w.keyEnd)
    requires SpaceUntil(text, w.keyEnd, w.colon) && w.colon < |text| && text[w.colon] == ':'
    requires SpaceUntil(text, w.colon + 1, w.value.start) && LaidOut(text, finite, w.value, v.members[i].value, depth + 1)
    requires SpaceUntil(text, w.value.end, w.mark) && w.mark < |text| && Nodes(w.value) == Tokens(v.members[i].value)
    requires text[w.mark] == if i + 1 == |v.members| then '}' else ','
    requires if i + 1 == |v.members| then end == w.mark + 1 && rest == [] else listed(w.mark + 1, rest, i + 1, end)
    ensures listed(p, [w] + rest, i, end)
  {
    assert i + 1 < |v.members| ==> MembersFrom(text, finite, w.mark + 1, rest, v, i + 1, depth, end);
    KeyRead(text, at, w.key, v.members[i].key, w.keyEnd);
    assert EntryAt(text, finite, w, v.members[i], depth);
    assert EndedEntry(text, finite, p, w, v.members[i], depth);
    EntriesBefore(text, finite, p, w, v.members[i], rest, v.members[i + 1..], depth);
    assert [v.members[i]] + v.members[i + 1..] == v.members[i..];
    NodesBefore(w, rest);
    assert MembersFrom(text, finite, p, [w] + rest, v, i, depth, end);
  }

  /** A key, a colon, a value, and what follows them. */
  lemma EntryShown(text: string, at: (nat, string) -> bool, tail: nat -> string, p: nat, v: Json, i: nat, indent: nat, depth: nat)
    returns (key: nat, colon: nat, start: nat, mark: nat, end: nat)
    requires Places(text, at)
    requires v.Obj? && i < |v.members| && Fits(v, depth) && MemberTails(v, indent, depth, tail) && at(p, tail(i))
    ensures SpaceUntil(text, p, key) && key < |text| && EntryKey(at, key, v.members[i].key, colon)
    ensures SpaceUntil(text, colon, colon) && colon < |text| && text[colon] == ':' && SpaceUntil(text, colon + 1, start)
    ensures Shows(text, at, start, v.members[i].value, indent, depth + 1)
    ensures SpaceUntil(text, start + |Dump(v.members[i].value, indent, depth + 1)|, mark)
    ensures mark < |text| && text[mark] == if i + 1 == |v.members| then '}' else ','
    ensures end == p + |tail(i)|
    ensures if i + 1 == |v.members| then end == mark + 1 else at(mark + 1, tail(i + 1)) && end == mark + 1 + |tail(i + 1)|
  {
    var m := v.members[i];
    var (lead, quoted, dump, after) := (NewLine(indent, depth + 1), Quoted(m.key), Dump(m.value, indent, depth + 1), AfterMember(v, i, indent, depth));
    assert tail(i) == MembersText(v, i, indent, depth);
    DumpFirst(m.value, indent, depth + 1);
    PairFirst(dump, after);
    NewLineIsSpace(indent, depth + 1);
    key, colon, start := KeyShown(text, at, p, lead, quoted, indent, dump + after);
    mark, end := AfterMemberShown(text, at, tail, start, dump, v, i, indent, depth);
  }

  /** White space, a key, a colon, and what comes after them. */
  lemma KeyShown(text: string, at: (nat, string) -> bool, p: nat, lead: string, quoted: string, indent: nat, rest: string)
    returns (key: nat, colon: nat, start: nat)
    requires Places(text, at) && at(p, lead + (quoted + (Colon(indent) + rest)))
    requires AllSpace(lead) && quoted != [] && !IsSpace(quoted[0]) && rest != [] && !IsSpace(rest[0])
    ensures SpaceUntil(text, p, key) && key < |text| && at(key, quoted) && colon == key + |quoted|
    ensures SpaceUntil(text, colon, colon) && colon < |text| && text[colon] == ':' && SpaceUntil(text, colon + 1, start)
    ensures at(start, rest) && start == p + |lead| + |quoted| + |Colon(indent)|
  {
    var after := Colon(indent) + rest;
    PairFirst(quoted, after);
    PairFirst(Colon(indent), rest);
    LeadShown(text, at, p, lead, quoted + after);
    key := p + |lead|;
    PartShown(text, at, key, quoted, after);
    colon := key + |quoted|;
    start := ColonShown(text, at, colon, indent, rest);
  }

  lemma ColonShown(text: string, at: (nat, string) -> bool, p: nat, indent: nat, rest: string) returns (start: nat)
    requires Places(text, at) && at(p, Colon(indent) + rest) && rest != [] && !IsSpace(rest[0])
    ensures SpaceUntil(text, p, p) && p < |text| && text[p] == ':' && SpaceUntil(text, p + 1, start)
    ensures at(start, rest) && start == p + |Colon(indent)|
  {
    AtSplit(text, p, Colon(indent), rest);
    AtChar(text, p, Colon(indent), 0);
    AtChar(text, p, Colon(indent), |Colon(indent)| - 1);
    start := p + |Colon(indent)|;
    AtChar(text, start, rest, 0);
  }

  lemma AfterMemberShown(text: string, at: (nat, string) -> bool, tail: nat -> string, p: nat, dump: string, v: Json, i: nat, indent: nat, depth: nat)
    returns (mark: nat, end: nat)
    requires Places(text, at) && v.Obj? && i < |v.members| && MemberTails(v, indent, depth, tail) && at(p, dump + AfterMember(v, i, indent, depth))
    ensures at(p, dump) && NumberEnds(text, p + |dump|) && SpaceUntil(text, p + |dump|, mark)
    ensures mark < |text| && text[mark] == if i + 1 == |v.members| then '}' else ','
    ensures end == p + |dump| + |AfterMember(v, i, indent, depth)|
    ensures if i + 1 == |v.members| then end == mark + 1 else at(mark + 1, tail(i + 1)) && end == mark + 1 + |tail(i + 1)|
  {
    var after := AfterMember(v, i, indent, depth);
    end := p + |dump| + |after|;
    if i + 1 == |v.members| {
      NewLineIsSpace(indent, depth);
      PairFirst(NewLine(indent, depth) + "}", "");
      PartShown(text, at, p, dump, after);
      LeadShown(text, at, p + |dump|, NewLine(indent, depth), "}");
      mark := p + |dump| + |NewLine(indent, depth)|;
    } else {
      assert tail(i + 1) == MembersText(v, i + 1, indent, depth);
      PartShown(text, at, p, dump, after);
      CommaShown(text, at, p + |dump|, tail(i + 1));
      mark := p + |dump|;
    }
  }

  // ---- the round trip ------------------------------------------------------

  /** A value laid out in a text, within the budgets, with nothing but white space around it. */
  ghost predicate Holds(text: string, finite: string -> bool, t: Layout, v: Json) {
    LaidOut(text, finite, t, v, 0) && SpaceUntil(text, 0, t.start) && SpaceUntil(text, t.end, |text|)
    && Nodes(t) <= MAX_TOKENS && |text| <= 8 * MAX_RECORD
  }

  /** Accepts exactly the texts of values: a text of a value is parsed as that value, and what
      is parsed as a value is a text of it. */
  method Parse(text: string, finite: string -> bool, ghost t: Layout, ghost v: Json) returns (r: Result<Json, ErrorCode>, ghost u: Layout)
    ensures Holds(text, finite, t, v) ==> r == Ok(v)
    ensures r.Ok? ==> Holds(text, finite, u, r.value)
    ensures |text| > 8 * MAX_RECORD ==> r == Err(PayloadTooLarge)
  {
    u := t;
    if |text| > 8 * MAX_RECORD {
      return Err(PayloadTooLarge), u;
    }
    var parser := new JsonParser(text, finite);
    parser.SkipWhitespace();
    r, u := parser.ParseValue(0, t, v);
    if r.Err? {
      return;
    }
    parser.SkipWhitespace();
    if parser.pos != |text| {
      return Err(MalformedJson), u;
    }
  }

  /** What is dumped, at any indent, is parsed back, and dumps to the same bytes again. */
  method RoundTrip(v: Json, indent: nat, finite: string -> bool) returns (text: string, r: Result<Json, ErrorCode>, again: string)
    requires Fits(v, 0) && Tokens(v) <= MAX_TOKENS && |Dump(v, indent, 0)| <= 8 * MAX_RECORD
    ensures text == Dump(v, indent, 0) && r == Ok(v) && again == text
  {
    text := DumpInto("", v, indent, 0);
    assert text == Dump(v, indent, 0);
    assert text[0..0 + |text|] == text;
    ghost var at := (p: nat, part: string) => At(text, p, part);
    ghost var t := DumpLaidOut(text, finite, at, 0, v, indent, 0);
    DumpFirst(v, indent, 0);
    ghost var u;
    r, u := Parse(text, finite, t, v);
    again := DumpInto("", r.value, indent, 0);
  }
}
