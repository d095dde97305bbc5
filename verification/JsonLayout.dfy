/** What it is for a text to be a text of a value: its tokens, with any white space between them. */
module JsonLayout {

  import opened Common
  import opened Decimals
  import opened JsonText
  import opened JsonTokens

  // ---- members -------------------------------------------------------------

  predicate HasKey(members: seq<Member>, key: string) {
    exists i :: 0 <= i < |members| && members[i].key == key
  }

  /** How many of the first n members a key comes after. */
  function Slot(members: seq<Member>, n: nat, key: string): (k: nat)
    requires n <= |members|
    ensures k <= n
  {
    if n == 0 || KeyLess(members[n - 1].key, key) then n else Slot(members, n - 1, key)
  }

  /** Puts a member where its key belongs. */
  function Insert(members: seq<Member>, key: string, value: Json): seq<Member> {
    var k := Slot(members, |members|, key);
    members[..k] + [Member(key, value)] + members[k..]
  }

  /** The first n members of a text, in the order of their keys. */
  function SortedTo(order: seq<Member>, n: nat): seq<Member>
    requires n <= |order|
  {
    if n == 0 then [] else Insert(SortedTo(order, n - 1), order[n - 1].key, order[n - 1].value)
  }

  /** No key comes twice. */
  predicate OneOfEach(order: seq<Member>) {
    forall i, j | 0 <= i < j < |order| :: order[i].key != order[j].key
  }

  // ---- texts of values -----------------------------------------------------

  /** White space from p, and something else or the end of the text at q. */
  ghost predicate SpaceUntil(text: string, p: nat, q: nat) {
    p <= q <= |text| && (forall i | p <= i < q :: IsSpace(text[i])) && (q < |text| ==> !IsSpace(text[q]))
  }

  /** Where a value's text starts and ends, its members in the order of the text, and where its
      elements or members are. */
  datatype Layout = Layout(start: nat, end: nat, order: seq<Member>, parts: seq<Part>)

  /** One element or member: its key, colon and value, and the comma or bracket after it. */
  datatype Part = Part(key: nat, keyEnd: nat, colon: nat, value: Layout, mark: nat)

  /** How many values there are, itself included. */
  function Nodes(t: Layout): nat
    decreases t, 1
  {
    1 + PartNodes(t.parts)
  }

  function PartNodes(parts: seq<Part>): nat
    decreases parts, 0
  {
    if parts == [] then 0 else PartNodes(parts[..|parts| - 1]) + NodesIn(parts[|parts| - 1])
  }

  function NodesIn(w: Part): nat
    decreases w, 2
  {
    Nodes(w.value)
  }

  /** Where the white space before the i-th part begins. */
  function From(parts: seq<Part>, i: nat, start: nat): nat
    requires i <= |parts|
  {
    if i == 0 then start else parts[i - 1].mark + 1
  }

  /** The text there is a text of the value, with any white space between its tokens. What is
      inside is brought in only where Unfold is mentioned. */
  ghost predicate LaidOut(text: string, finite: string -> bool, t: Layout, v: Json, depth: nat)
    decreases t, 2
  {
    && depth <= MAX_DEPTH && t.start < t.end <= |text|
    && forall b {:trigger Unfold(b)} :: Unfold(b) ==> ValueAt(text, finite, t, v, depth)
  }

  ghost predicate ValueAt(text: string, finite: string -> bool, t: Layout, v: Json, depth: nat)
    requires t.start < t.end <= |text|
    decreases t, 1
  {
    match v
    case Arr(items) =>
      && |items| <= MAX_ITEMS && text[t.start] == '['
      && (if items == [] then Closes(text, t, ']') else t.end == From(t.parts, |t.parts|, t.start + 1))
      && Elements(text, finite, t.start + 1, t.parts, items, false, depth)
    case Obj(members) =>
      && OneOfEach(t.order) && members == SortedTo(t.order, |t.order|) && text[t.start] == '{'
      && (if t.order == [] then Closes(text, t, '}') else t.end == From(t.parts, |t.parts|, t.start + 1))
      && Entries(text, finite, t.start + 1, t.parts, t.order, false, depth)
    case _ => t.parts == [] && ScalarAt(text, finite, t.start, t.end, v)
  }

  ghost predicate ScalarAt(text: string, finite: string -> bool, p: nat, end: nat, v: Json) {
    match v
    case Null => At(text, p, "null") && end == p + 4
    case Bool(b) => At(text, p, BoolText(b)) && end == p + |BoolText(b)|
    case Num(_) => IsNumber(text, p, end, v, finite)
    case Double(_) => IsNumber(text, p, end, v, finite)
    case Str(s) => StringAt(text, p, s, end)
    case _ => false
  }

  function BoolText(b: bool): string {
    if b then "true" else "false"
  }

  /** A string token within the size budget; likewise brought in where Unfold is mentioned. */
  ghost predicate StringAt(text: string, p: nat, s: string, end: nat) {
    forall b {:trigger Unfold(b)} :: Unfold(b) ==> StringToken(text, p) == Some(Token(s, end, true))
  }

  ghost predicate Closes(text: string, t: Layout, c: char) {
    0 < t.end <= |text| && SpaceUntil(text, t.start + 1, t.end - 1) && text[t.end - 1] == c
  }

  /** The parts are the elements, each after the other; a comma follows each but the last, and
      that one too when more are to come. */
  ghost predicate Elements(
    text: string, finite: string -> bool, start: nat, parts: seq<Part>, items: seq<Json>, more: bool, depth: nat)
    decreases parts, 0
  {
    && |parts| == |items|
    && forall i {:trigger items[i]} | 0 <= i < |items| ::
         && ElementAt(text, finite, From(parts, i, start), parts[i], items[i], depth)
         && (text[parts[i].mark] == ',' <==> i + 1 < |items| || more)
  }

  ghost predicate ElementAt(text: string, finite: string -> bool, p: nat, w: Part, v: Json, depth: nat)
    decreases w, 2
  {
    && SpaceUntil(text, p, w.value.start) && LaidOut(text, finite, w.value, v, depth + 1)
    && SpaceUntil(text, w.value.end, w.mark) && w.mark < |text|
    && (text[w.mark] == ',' || text[w.mark] == ']')
  }

  /** The parts are the members, each a key, a colon and a value. */
  ghost predicate Entries(
    text: string, finite: string -> bool, start: nat, parts: seq<Part>, order: seq<Member>, more: bool, depth: nat)
    decreases parts, 0
  {
    && |parts| == |order|
    && forall i {:trigger order[i]} | 0 <= i < |order| ::
         && EndedEntry(text, finite, From(parts, i, start), parts[i], order[i], depth)
         && (text[parts[i].mark] == ',' <==> i + 1 < |order| || more)
  }

  ghost predicate EndedEntry(text: string, finite: string -> bool, p: nat, w: Part, m: Member, depth: nat)
    decreases w, 3
  {
    && SpaceUntil(text, p, w.key) && w.key < |text| && EntryAt(text, finite, w, m, depth)
    && SpaceUntil(text, w.value.end, w.mark) && w.mark < |text|
    && (text[w.mark] == ',' || text[w.mark] == '}')
  }

  ghost predicate EntryAt(text: string, finite: string -> bool, w: Part, m: Member, depth: nat)
    decreases w, 2
  {
    && StringAt(text, w.key, m.key, w.keyEnd)
    && SpaceUntil(text, w.keyEnd, w.colon) && w.colon < |text| && text[w.colon] == ':'
    && SpaceUntil(text, w.colon + 1, w.value.start) && LaidOut(text, finite, w.value, m.value, depth + 1)
  }

  /** The first char of a scalar's text tells its kind. */
  lemma {:induction false} ScalarLead(text: string, finite: string -> bool, p: nat, end: nat, v: Json)
    requires ScalarAt(text, finite, p, end, v)
    ensures p < |text| && !IsSpace(text[p]) && text[p] !in {'[', '{', ']', '}'}
    ensures var c := text[p];
      && (c == '\"' <==> v.Str?) && (c == 't' <==> v == Bool(true)) && (c == 'f' <==> v == Bool(false))
      && (c == 'n' <==> v.Null?) && (c == '-' || IsDigit(c) <==> v.Num? || v.Double?)
  {
    assert Unfold(true);
    match v
    case Null => AtChar(text, p, "null", 0);
    case Bool(b) => AtChar(text, p, BoolText(b), 0);
    case _ =>
  }

  /** The first char of a value's text tells its kind. */
  lemma {:induction false} LeadChar(text: string, finite: string -> bool, t: Layout, v: Json, depth: nat)
    requires LaidOut(text, finite, t, v, depth)
    ensures t.start < |text| && !IsSpace(text[t.start]) && text[t.start] != ']' && text[t.start] != '}'
    ensures var c := text[t.start];
      && (c == '{' <==> v.Obj?) && (c == '[' <==> v.Arr?) && (c == '\"' <==> v.Str?)
      && (c == 't' <==> v == Bool(true)) && (c == 'f' <==> v == Bool(false)) && (c == 'n' <==> v.Null?)
      && (c == '-' || IsDigit(c) <==> v.Num? || v.Double?)
    ensures v.Arr? || v.Obj? || (t.parts == [] && ScalarAt(text, finite, t.start, t.end, v))
  {
    assert Unfold(true);
    if !v.Arr? && !v.Obj? {
      ScalarLead(text, finite, t.start, t.end, v);
    }
  }

  /** Past the bracket and white space comes the first element, or the closing bracket. */
  lemma {:induction false} ArrayOpens(text: string, finite: string -> bool, t: Layout, v: Json, depth: nat) returns (q: nat)
    requires LaidOut(text, finite, t, v, depth) && v.Arr?
    ensures SpaceUntil(text, t.start + 1, q) && q < |text| && (text[q] == ']' <==> v.items == [])
    ensures |v.items| <= MAX_ITEMS && Elements(text, finite, t.start + 1, t.parts, v.items, false, depth)
    ensures if v.items == [] then t.end == q + 1 && t.parts == []
            else |t.parts| == |v.items| && t.end == t.parts[|t.parts| - 1].mark + 1 && q == t.parts[0].value.start
  {
    assert Unfold(true) && ValueAt(text, finite, t, v, depth);
    assert Elements(text, finite, t.start + 1, t.parts, v.items, false, depth);
    if v.items == [] {
      q := t.end - 1;
    } else {
      assert ElementAt(text, finite, t.start + 1, t.parts[0], v.items[0], depth);
      LeadChar(text, finite, t.parts[0].value, v.items[0], depth + 1);
      q := t.parts[0].value.start;
    }
  }

  lemma {:induction false} EntryOpens(text: string, finite: string -> bool, w: Part, m: Member, depth: nat)
    requires EntryAt(text, finite, w, m, depth)
    ensures w.key < |text| && text[w.key] == '\"'
  {
    assert Unfold(true) && StringToken(text, w.key).Some?;
  }

  lemma {:induction false} ObjectOpens(text: string, finite: string -> bool, t: Layout, v: Json, depth: nat) returns (q: nat)
    requires LaidOut(text, finite, t, v, depth) && v.Obj?
    ensures SpaceUntil(text, t.start + 1, q) && q < |text| && (text[q] == '}' <==> t.order == [])
    ensures OneOfEach(t.order) && v.members == SortedTo(t.order, |t.order|)
    ensures Entries(text, finite, t.start + 1, t.parts, t.order, false, depth)
    ensures if t.order == [] then t.end == q + 1 && t.parts == []
            else |t.parts| == |t.order| && t.end == t.parts[|t.parts| - 1].mark + 1 && q == t.parts[0].key
  {
    assert Unfold(true) && ValueAt(text, finite, t, v, depth);
    assert Entries(text, finite, t.start + 1, t.parts, t.order, false, depth);
    if t.order == [] {
      q := t.end - 1;
    } else {
      assert EndedEntry(text, finite, t.start + 1, t.parts[0], t.order[0], depth);
      EntryOpens(text, finite, t.parts[0], t.order[0], depth);
      q := t.parts[0].key;
    }
  }

  /** The same element is at any white space before it, and the next one comes after its comma. */
  lemma {:induction false} ElementHere(
    text: string, finite: string -> bool, start: nat, q: nat, parts: seq<Part>, items: seq<Json>, i: nat, depth: nat)
    requires i < |items| && Elements(text, finite, start, parts, items, false, depth) && SpaceUntil(text, q, parts[i].value.start)
    ensures ElementAt(text, finite, q, parts[i], items[i], depth) && (text[parts[i].mark] == ',' <==> i + 1 < |items|)
    ensures i + 1 < |items| ==> SpaceUntil(text, parts[i].mark + 1, parts[i + 1].value.start)
  {
    assert ElementAt(text, finite, From(parts, i, start), parts[i], items[i], depth);
    if i + 1 < |items| {
      assert ElementAt(text, finite, From(parts, i + 1, start), parts[i + 1], items[i + 1], depth);
    }
  }

  lemma {:induction false} EntryHere(
    text: string, finite: string -> bool, start: nat, q: nat, parts: seq<Part>, order: seq<Member>, i: nat, depth: nat)
    requires i < |order| && Entries(text, finite, start, parts, order, false, depth) && SpaceUntil(text, q, parts[i].key)
    ensures EndedEntry(text, finite, q, parts[i], order[i], depth) && (text[parts[i].mark] == ',' <==> i + 1 < |order|)
    ensures i + 1 < |order| ==> SpaceUntil(text, parts[i].mark + 1, parts[i + 1].key)
  {
    assert EndedEntry(text, finite, From(parts, i, start), parts[i], order[i], depth);
    if i + 1 < |order| {
      assert EndedEntry(text, finite, From(parts, i + 1, start), parts[i + 1], order[i + 1], depth);
    }
  }

  /** One more element after those there are. */
  lemma {:induction false} ElementsGrow(
    text: string, finite: string -> bool, start: nat, parts: seq<Part>, items: seq<Json>, w: Part, v: Json, more: bool, depth: nat)
    requires Elements(text, finite, start, parts, items, true, depth)
    requires ElementAt(text, finite, From(parts, |parts|, start), w, v, depth) && (text[w.mark] == ',' <==> more)
    ensures Elements(text, finite, start, parts + [w], items + [v], more, depth)
  {
    forall i | 0 <= i < |items + [v]|
      ensures ElementAt(text, finite, From(parts + [w], i, start), (parts + [w])[i], (items + [v])[i], depth)
      ensures text[(parts + [w])[i].mark] == ',' <==> i + 1 < |items + [v]| || more
    {
      if i < |items| {
        assert ElementAt(text, finite, From(parts, i, start), parts[i], items[i], depth);
      }
    }
  }

  lemma {:induction false} EntriesGrow(
    text: string, finite: string -> bool, start: nat, parts: seq<Part>, order: seq<Member>, w: Part, m: Member, more: bool, depth: nat)
    requires Entries(text, finite, start, parts, order, true, depth)
    requires EndedEntry(text, finite, From(parts, |parts|, start), w, m, depth) && (text[w.mark] == ',' <==> more)
    ensures Entries(text, finite, start, parts + [w], order + [m], more, depth)
  {
    forall i | 0 <= i < |order + [m]|
      ensures EndedEntry(text, finite, From(parts + [w], i, start), (parts + [w])[i], (order + [m])[i], depth)
      ensures text[(parts + [w])[i].mark] == ',' <==> i + 1 < |order + [m]| || more
    {
      if i < |order| {
        assert EndedEntry(text, finite, From(parts, i, start), parts[i], order[i], depth);
      }
    }
  }

  /** One more element before those there are. */
  lemma {:induction false} ElementsBefore(
    text: string, finite: string -> bool, start: nat, w: Part, v: Json, parts: seq<Part>, items: seq<Json>, depth: nat)
    requires ElementAt(text, finite, start, w, v, depth) && (text[w.mark] == ',' <==> items != [])
    requires Elements(text, finite, w.mark + 1, parts, items, false, depth)
    ensures Elements(text, finite, start, [w] + parts, [v] + items, false, depth)
  {
    forall i | 0 <= i < |[v] + items|
      ensures ElementAt(text, finite, From([w] + parts, i, start), ([w] + parts)[i], ([v] + items)[i], depth)
      ensures text[([w] + parts)[i].mark] == ',' <==> i + 1 < |[v] + items|
    {
      if i > 0 {
        assert ElementAt(text, finite, From(parts, i - 1, w.mark + 1), parts[i - 1], items[i - 1], depth);
      }
    }
  }

  lemma {:induction false} EntriesBefore(
    text: string, finite: string -> bool, start: nat, w: Part, m: Member, parts: seq<Part>, order: seq<Member>, depth: nat)
    requires EndedEntry(text, finite, start, w, m, depth) && (text[w.mark] == ',' <==> order != [])
    requires Entries(text, finite, w.mark + 1, parts, order, false, depth)
    ensures Entries(text, finite, start, [w] + parts, [m] + order, false, depth)
  {
    forall i | 0 <= i < |[m] + order|
      ensures EndedEntry(text, finite, From([w] + parts, i, start), ([w] + parts)[i], ([m] + order)[i], depth)
      ensures text[([w] + parts)[i].mark] == ',' <==> i + 1 < |[m] + order|
    {
      if i > 0 {
        assert EndedEntry(text, finite, From(parts, i - 1, w.mark + 1), parts[i - 1], order[i - 1], depth);
      }
    }
  }

  lemma {:induction false} NodesBefore(w: Part, parts: seq<Part>)
    ensures PartNodes([w] + parts) == Nodes(w.value) + PartNodes(parts)
    decreases |parts|
  {
    var n := |parts| - 1;
    if parts == [] {
      assert ([w] + parts)[..0] == [];
    } else {
      NodesBefore(w, parts[..n]);
      assert ([w] + parts)[..n + 1] == [w] + parts[..n];
    }
  }

  lemma {:induction false} NodesGrow(parts: seq<Part>, w: Part)
    ensures PartNodes(parts + [w]) == PartNodes(parts) + Nodes(w.value)
  {
    assert (parts + [w])[..|parts|] == parts;
  }

  /** The values in the first i parts and in the next one. */
  lemma {:induction false} NodesNext(parts: seq<Part>, i: nat)
    requires i < |parts|
    ensures PartNodes(parts[..i + 1]) == PartNodes(parts[..i]) + Nodes(parts[i].value)
    ensures PartNodes(parts[..i + 1]) <= PartNodes(parts)
  {
    assert parts[..i + 1][..i] == parts[..i];
    NodesPrefix(parts, i + 1);
  }

  lemma {:induction false} NodesPrefix(parts: seq<Part>, i: nat)
    requires i <= |parts|
    ensures PartNodes(parts[..i]) <= PartNodes(parts) && (i == |parts| ==> parts[..i] == parts)
    decreases |parts|
  {
    if i == |parts| {
      assert parts[..i] == parts;
    } else {
      NodesPrefix(parts[..|parts| - 1], i);
      assert parts[..|parts| - 1][..i] == parts[..i];
    }
  }

  lemma {:induction false} TakeNext<A>(s: seq<A>, i: nat)
    requires i < |s|
    ensures s[..i] + [s[i]] == s[..i + 1] && (i + 1 == |s| ==> s[..i + 1] == s)
  {
  }

  // ---- keys ----------------------------------------------------------------

  lemma {:induction false} InsertKeys(members: seq<Member>, key: string, value: Json, other: string)
    ensures HasKey(Insert(members, key, value), other) <==> HasKey(members, other) || other == key
  {
    var k := Slot(members, |members|, key);
    var grown := Insert(members, key, value);
    forall i | 0 <= i < |members| ensures members[i] == grown[if i < k then i else i + 1] {
    }
    assert grown[k] == Member(key, value);
  }

  /** Sorting keeps the keys. */
  lemma {:induction false} SortedKeys(order: seq<Member>, n: nat, key: string)
    requires n <= |order|
    ensures HasKey(SortedTo(order, n), key) <==> HasKey(order[..n], key)
  {
    if n > 0 {
      SortedKeys(order, n - 1, key);
      InsertKeys(SortedTo(order, n - 1), order[n - 1].key, order[n - 1].value, key);
      TakeNext(order, n - 1);
      KeysNext(order[..n - 1], order[n - 1], key);
    }
  }

  lemma {:induction false} KeysNext(order: seq<Member>, m: Member, key: string)
    ensures HasKey(order + [m], key) <==> HasKey(order, key) || m.key == key
  {
    forall i | 0 <= i < |order| ensures (order + [m])[i] == order[i] {
    }
    assert (order + [m])[|order|] == m;
  }

  lemma {:induction false} StillOneOfEach(order: seq<Member>, m: Member)
    requires OneOfEach(order) && !HasKey(SortedTo(order, |order|), m.key)
    ensures OneOfEach(order + [m]) && SortedTo(order + [m], |order| + 1) == Insert(SortedTo(order, |order|), m.key, m.value)
  {
    SortedKeys(order, |order|, m.key);
    assert order[..|order|] == order;
    NewKey(order, m);
    SortedPrefix(order, m, |order|);
  }

  lemma {:induction false} NewKey(order: seq<Member>, m: Member)
    requires OneOfEach(order) && !HasKey(order, m.key)
    ensures OneOfEach(order + [m])
  {
  }

  lemma {:induction false} SortedPrefix(order: seq<Member>, m: Member, n: nat)
    requires n <= |order|
    ensures SortedTo(order + [m], n) == SortedTo(order, n)
  {
    if n > 0 {
      SortedPrefix(order, m, n - 1);
    }
  }

  lemma {:induction false} KeysDiffer(members: seq<Member>, j: nat, i: nat)
    requires Ascending(members) && j < i < |members|
    ensures members[j].key != members[i].key
  {
    AscendingPairs(members, |members|, j, i);
    LessDiffers(members[j].key, members[i].key, 0);
  }

  /** Members already in order stay as they are. */
  lemma {:induction false} AscendingSorted(members: seq<Member>, n: nat)
    requires Ascending(members) && n <= |members|
    ensures SortedTo(members, n) == members[..n] && OneOfEach(members)
  {
    forall i, j | 0 <= i < j < |members| ensures members[i].key != members[j].key {
      KeysDiffer(members, i, j);
    }
    if n > 0 {
      AscendingSorted(members, n - 1);
      InsertsLast(members, n - 1);
    }
  }

  /** And each goes last. */
  lemma {:induction false} InsertsLast(members: seq<Member>, i: nat)
    requires Ascending(members) && i < |members|
    ensures Insert(members[..i], members[i].key, members[i].value) == members[..i + 1]
  {
    if i > 0 {
      AscendingPairs(members, |members|, i - 1, i);
    }
  }

  lemma {:induction false} SlotExactly(members: seq<Member>, n: nat, key: string)
    requires n <= |members|
    ensures var k := Slot(members, n, key);
      (k > 0 ==> KeyLess(members[k - 1].key, key)) && forall j | k <= j < n :: !KeyLess(members[j].key, key)
  {
    if n > 0 && !KeyLess(members[n - 1].key, key) {
      SlotExactly(members, n - 1, key);
    }
  }

  lemma {:induction false} LessTotal(a: string, b: string, i: nat)
    requires i <= |a| && i <= |b| && a[..i] == b[..i] && a != b && !LessFrom(a, b, i)
    ensures LessFrom(b, a, i)
    decreases |b| - i
  {
    assert a[..|a|] == a && b[..|b|] == b;
    if i < |a| && i < |b| && a[i] == b[i] {
      assert a[..i + 1] == a[..i] + [a[i]] && b[..i + 1] == b[..i] + [b[i]];
      LessTotal(a, b, i + 1);
    }
  }

  lemma {:induction false} NeighboursAscend(members: seq<Member>, n: nat)
    requires n <= |members| && forall i | 0 < i < n :: KeyLess(members[i - 1].key, members[i].key)
    ensures AscendingTo(members, n)
  {
    if n > 1 {
      NeighboursAscend(members, n - 1);
      assert KeyLess(members[n - 1 - 1].key, members[n - 1].key);
    }
  }

  lemma {:induction false} InsertAscends(members: seq<Member>, key: string, value: Json)
    requires Ascending(members) && !HasKey(members, key)
    ensures Ascending(Insert(members, key, value))
  {
    var k, grown := Slot(members, |members|, key), Insert(members, key, value);
    SlotExactly(members, |members|, key);
    if k < |members| {
      LessTotal(members[k].key, key, 0);
    }
    forall i | 0 < i < |grown| ensures KeyLess(grown[i - 1].key, grown[i].key) {
      StillLess(members, Member(key, value), k, i);
    }
    NeighboursAscend(grown, |grown|);
  }

  lemma {:induction false} StillLess(members: seq<Member>, m: Member, k: nat, i: nat)
    requires Ascending(members) && k <= |members| && 0 < i <= |members|
    requires k > 0 ==> KeyLess(members[k - 1].key, m.key)
    requires k < |members| ==> KeyLess(m.key, members[k].key)
    ensures var grown := members[..k] + [m] + members[k..]; KeyLess(grown[i - 1].key, grown[i].key)
  {
    if i < k {
      AscendingPairs(members, |members|, i - 1, i);
    } else if i > k + 1 {
      AscendingPairs(members, |members|, i - 2, i - 1);
    }
  }

  lemma {:induction false} InsertMembers(members: seq<Member>, key: string, value: Json)
    ensures multiset(Insert(members, key, value)) == multiset(members) + multiset{Member(key, value)}
  {
    var k := Slot(members, |members|, key);
    assert members[..k] + members[k..] == members;
  }

  lemma {:induction false} OneMoreSorted(sorted: seq<Member>, m: Member, order: seq<Member>)
    requires Ascending(sorted) && !HasKey(sorted, m.key) && multiset(sorted) == multiset(order)
    ensures Ascending(Insert(sorted, m.key, m.value))
    ensures multiset(Insert(sorted, m.key, m.value)) == multiset(order + [m])
  {
    InsertAscends(sorted, m.key, m.value);
    InsertMembers(sorted, m.key, m.value);
  }

  /** Whatever order a text has them in, the members of an object are those of the text, by
      ascending keys. */
  lemma {:induction false} SortedMembers(order: seq<Member>, n: nat)
    requires OneOfEach(order) && n <= |order|
    ensures Ascending(SortedTo(order, n)) && multiset(SortedTo(order, n)) == multiset(order[..n])
  {
    if n > 0 {
      SortedMembers(order, n - 1);
      SortedKeys(order, n - 1, order[n - 1].key);
      OneMoreSorted(SortedTo(order, n - 1), order[n - 1], order[..n - 1]);
      TakeNext(order, n - 1);
    }
  }
}
