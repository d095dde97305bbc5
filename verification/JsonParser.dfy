/** The strict JSON parser. */
module JsonParser {

  import opened Arith
  import opened Common
  import opened Folds
  import opened Decimals
  import opened JsonText
  import opened JsonTokens
  import opened JsonLayout

  // ---- the parser ----------------------------------------------------------

  datatype Unit = End | Plain(chars: string) | Escaped(chars: string)

  class JsonParser {
    const text: string
    /** Whether a literal reads as a finite double. */
    const finite: string -> bool

    var pos: nat
    var tokens: nat

    constructor (text: string, finite: string -> bool)
      ensures this.text == text && this.finite == finite && pos == 0 && tokens == 0
    {
      this.text, this.finite, pos, tokens := text, finite, 0, 0;
    }

    method Consume(c: char) returns (found: bool)
      requires pos <= |text|
      modifies `pos
      ensures found <==> old(pos) < |text| && text[old(pos)] == c
      ensures pos == old(pos) + if found then 1 else 0
      ensures pos <= |text|
    {
      found := pos < |text| && text[pos] == c;
      if found {
        pos := pos + 1;
      }
    }

    method SkipWhitespace()
      requires pos <= |text|
      modifies `pos
      ensures SpaceUntil(text, old(pos), pos)
      ensures forall q: nat :: SpaceUntil(text, old(pos), q) ==> pos == q
    {
      while pos < |text| && IsSpace(text[pos])
        modifies `pos
        invariant old(pos) <= pos <= |text| && forall i | old(pos) <= i < pos :: IsSpace(text[i])
      {
        pos := pos + 1;
      }
      forall q: nat | SpaceUntil(text, old(pos), q) ensures pos == q {
        SpaceEnds(text, old(pos), pos, q);
      }
    }

    /** Reads one char of a string, plain or escaped, or its end. */
    method ReadUnit() returns (r: Result<Unit, ErrorCode>)
      requires pos <= |text|
      modifies `pos
      ensures old(pos) <= pos <= |text| && (r.Ok? ==> old(pos) < pos)
      ensures r.Err? ==> r.error == MalformedJson && forall n: nat :: StringFrom(text, old(pos), n) == None
      ensures r == Ok(End) ==> forall n: nat :: StringFrom(text, old(pos), n) == Some(Token("", pos, true))
      ensures r.Ok? && r.value.Plain? ==>
                |r.value.chars| == 1 && forall n: nat :: StringFrom(text, old(pos), n) == Before(r.value.chars, true, StringFrom(text, pos, n + 1))
      ensures r.Ok? && r.value.Escaped? ==>
                forall n: nat :: StringFrom(text, old(pos), n)
                  == Before(r.value.chars, n + |r.value.chars| <= MAX_RECORD, StringFrom(text, pos, n + |r.value.chars|))
    {
      if pos >= |text| {
        return Err(MalformedJson);
      }
      var c := text[pos];
      pos := pos + 1;
      if c == '\"' {
        return Ok(End);
      }
      if c as int < 32 {
        return Err(MalformedJson);
      }
      if c != '\\' {
        return Ok(Plain([c]));
      }
      var e := EscapeAt(text, pos);
      if e.None? {
        return Err(MalformedJson);
      }
      pos := e.value.1;
      return Ok(Escaped(e.value.0));
    }

    /** Reads exactly the string tokens whose escapes come within the size budget. */
    method ParseString() returns (r: Result<string, ErrorCode>)
      requires pos <= |text|
      modifies `pos
      ensures old(pos) <= pos <= |text|
      ensures r.Ok? <==> StringToken(text, old(pos)).Some? && StringToken(text, old(pos)).value.fits
      ensures r.Ok? ==> StringAt(text, old(pos), r.value, pos)
      ensures r.Err? && StringToken(text, old(pos)).Some? ==> r.error == PayloadTooLarge
    {
      var quote := Consume('\"');
      if !quote {
        return Err(MalformedJson);
      }
      ghost var whole := StringFrom(text, pos, 0);
      var out := "";
      BeforeNothing(whole);
      while true
        modifies `pos
        invariant old(pos) < pos <= |text| && whole == Before(out, true, StringFrom(text, pos, |out|))
        decreases |text| - pos
      {
        ghost var rest := StringFrom(text, pos, |out|);
        var unit := ReadUnit();
        if unit.Err? {
          return Err(unit.error);
        }
        if unit.value.End? {
          assert out + "" == out;
          return Ok(out);
        }
        BeforeJoins(out, unit.value.chars, unit.value.Plain? || |out + unit.value.chars| <= MAX_RECORD,
                    StringFrom(text, pos, |out + unit.value.chars|));
        out := out + unit.value.chars;
        if unit.value.Escaped? && |out| > MAX_RECORD {
          return Err(PayloadTooLarge);
        }
      }
    }

    /** Advances over the digits at pos. */
    method SkipDigits()
      requires pos <= |text|
      modifies `pos
      ensures pos == DigitsEnd(text, old(pos))
    {
      while pos < |text| && IsDigit(text[pos])
        modifies `pos
        invariant old(pos) <= pos <= |text| && DigitsEnd(text, old(pos)) == DigitsEnd(text, pos)
      {
        pos := pos + 1;
      }
    }

    /** At least one digit. */
    method SomeDigits() returns (ok: bool)
      requires pos <= |text|
      modifies `pos
      ensures old(pos) <= pos <= |text| && (ok <==> SomeDigitsEnd(text, old(pos)).Some?)
      ensures ok ==> pos == SomeDigitsEnd(text, old(pos)).value
    {
      ok := pos < |text| && IsDigit(text[pos]);
      SkipDigits();
    }

    /** A sign, and a zero or a run of digits. */
    method IntegerPart() returns (ok: bool)
      requires pos <= |text|
      modifies `pos
      ensures old(pos) <= pos <= |text| && (ok <==> IntegerEnd(text, old(pos)).Some?)
      ensures ok ==> pos == IntegerEnd(text, old(pos)).value
    {
      var minus := Consume('-');
      if pos >= |text| || !IsDigit(text[pos]) {
        return false;
      }
      if text[pos] == '0' {
        pos := pos + 1;
      } else {
        SkipDigits();
      }
      return true;
    }

    /** An optional fraction. */
    method Fraction() returns (ok: bool)
      requires pos <= |text|
      modifies `pos
      ensures old(pos) <= pos <= |text| && (ok <==> FractionEnd(text, old(pos)).Some?)
      ensures ok ==> pos == FractionEnd(text, old(pos)).value
    {
      ok := true;
      if pos < |text| && text[pos] == '.' {
        pos := pos + 1;
        ok := SomeDigits();
      }
    }

    /** An optional exponent. */
    method Exponent() returns (ok: bool)
      requires pos <= |text|
      modifies `pos
      ensures old(pos) <= pos <= |text| && (ok <==> ExponentEnd(text, old(pos)).Some?)
      ensures ok ==> pos == ExponentEnd(text, old(pos)).value
    {
      ok := true;
      if pos < |text| && (text[pos] == 'e' || text[pos] == 'E') {
        pos := pos + 1;
        if pos < |text| && (text[pos] == '+' || text[pos] == '-') {
          pos := pos + 1;
        }
        ok := SomeDigits();
      }
    }

    /** Reads exactly the number tokens whose value the parser can hold. */
    method ParseNumber() returns (r: Result<Json, ErrorCode>)
      requires pos <= |text|
      modifies `pos
      ensures old(pos) <= pos <= |text|
      ensures r.Ok? ==> IsNumber(text, old(pos), pos, r.value, finite)
      ensures r.Err? ==> r.error == MalformedJson && forall end: nat, v: Json :: !IsNumber(text, old(pos), end, v, finite)
    {
      var start := pos;
      var digits := IntegerPart();
      if !digits {
        return Err(MalformedJson);
      }
      var whole := pos;
      var ok := Fraction();
      if !ok {
        return Err(MalformedJson);
      }
      ok := Exponent();
      if !ok {
        return Err(MalformedJson);
      }
      r := NumberOf(text[start..pos], pos == whole, finite);
    }

    method Literal(word: string) returns (ok: bool)
      requires pos <= |text|
      modifies `pos
      ensures pos <= |text| && (ok <==> At(text, old(pos), word)) && pos == old(pos) + if ok then |word| else 0
    {
      ok := pos + |word| <= |text| && text[pos..pos + |word|] == word;
      if ok {
        pos := pos + |word|;
      }
    }

    /** true, false or null. */
    method ParseWord(c: char) returns (r: Result<Json, ErrorCode>)
      requires pos < |text| && c == text[pos]
      modifies `pos
      ensures old(pos) <= pos <= |text|
      ensures r.Ok? ==> (r.value.Null? || r.value.Bool?) && ScalarAt(text, finite, old(pos), pos, r.value)
      ensures r.Err? ==> r.error == MalformedJson
                         && forall end: nat, v: Json | v.Null? || v.Bool? :: !ScalarAt(text, finite, old(pos), end, v)
    {
      var ok := false;
      if c == 't' {
        ok := Literal("true");
      } else if c == 'f' {
        ok := Literal("false");
      } else if c == 'n' {
        ok := Literal("null");
      }
      r := if !ok then Err(MalformedJson) else if c == 'n' then Ok(Null) else Ok(Bool(c == 't'));
      if r.Err? {
        WordsOnly(text, finite, old(pos));
      }
    }

    /** What a value's text costs in tokens is one for each value in it. */
    ghost predicate Affords(count: nat, nodes: nat) {
      count + nodes <= MAX_TOKENS
    }

    /** Reads a value exactly where the text, within the depth and token budgets, has one: given
        any layout of a value there it gives that value, and what it gives is laid out there. */
    method ParseValue(depth: nat, ghost t: Layout, ghost v: Json) returns (r: Result<Json, ErrorCode>, ghost u: Layout)
      requires pos <= |text|
      modifies `pos, `tokens
      ensures old(pos) <= pos <= |text|
      ensures old(pos) == t.start && LaidOut(text, finite, t, v, depth) && Affords(old(tokens), Nodes(t))
              ==> r == Ok(v) && pos == t.end && tokens == old(tokens) + Nodes(t)
      ensures r.Ok? ==> SpaceUntil(text, old(pos), u.start) && LaidOut(text, finite, u, r.value, depth) && pos == u.end
                        && tokens == old(tokens) + Nodes(u) <= MAX_TOKENS
      decreases |text| - pos, 0
    {
      ghost var shown := pos == t.start && LaidOut(text, finite, t, v, depth) && Affords(tokens, Nodes(t));
      u := t;
      if depth > MAX_DEPTH {
        return Err(MalformedJson), u;
      }
      tokens := tokens + 1;
      if tokens > MAX_TOKENS {
        return Err(TooManyItems), u;
      }
      if shown { LeadChar(text, finite, t, v, depth); }
      SkipWhitespace();
      if pos >= |text| {
        return Err(MalformedJson), u;
      }
      var c := text[pos];
      if c == '{' {
        pos := pos + 1;
        r, u := ParseObject(depth, t, v);
      } else if c == '[' {
        pos := pos + 1;
        r, u := ParseArray(depth, t, v);
      } else {
        var start := pos;
        r := ParseScalar(t.end, v);
        u := Layout(start, pos, [], []);
      }
    }

    method ParseScalar(ghost end: nat, ghost v: Json) returns (r: Result<Json, ErrorCode>)
      requires pos < |text| && text[pos] != '{' && text[pos] != '['
      modifies `pos
      ensures old(pos) <= pos <= |text|
      ensures ScalarAt(text, finite, old(pos), end, v) ==> r == Ok(v) && pos == end
      ensures r.Ok? ==> ScalarAt(text, finite, old(pos), pos, r.value) && old(pos) < pos
    {
      assert Unfold(true);
      ghost var shown := ScalarAt(text, finite, pos, end, v);
      if shown { ScalarLead(text, finite, pos, end, v); }
      ghost var start := pos;
      var c := text[pos];
      if c == '\"' {
        var s := ParseString();
        r := if s.Ok? then Ok(Str(s.value)) else Err(s.error);
      } else if c == '-' || IsDigit(c) {
        r := ParseNumber();
      } else {
        r := ParseWord(c);
      }
      if r.Ok? { ScalarLead(text, finite, start, pos, r.value); }
    }

    /** The elements after the opening bracket. */
    method ParseArray(depth: nat, ghost t: Layout, ghost v: Json) returns (r: Result<Json, ErrorCode>, ghost u: Layout)
      requires 0 < pos <= |text| && text[pos - 1] == '[' && depth <= MAX_DEPTH && tokens <= MAX_TOKENS
      modifies `pos, `tokens
      ensures old(pos) <= pos <= |text|
      ensures old(pos) == t.start + 1 && LaidOut(text, finite, t, v, depth) && v.Arr? && Affords(old(tokens), PartNodes(t.parts))
              ==> r == Ok(v) && pos == t.end && tokens == old(tokens) + PartNodes(t.parts)
      ensures r.Ok? ==> u.start == old(pos) - 1 && LaidOut(text, finite, u, r.value, depth) && pos == u.end
                        && tokens == old(tokens) + PartNodes(u.parts) <= MAX_TOKENS
      decreases |text| - pos, 4
    {
      ghost var start := pos;
      ghost var shown := pos == t.start + 1 && LaidOut(text, finite, t, v, depth) && v.Arr? && Affords(tokens, PartNodes(t.parts));
      if shown {
        var _ := ArrayOpens(text, finite, t, v, depth);
      }
      SkipWhitespace();
      ReadingStarts(text, finite, start, pos, depth);
      var closed := Consume(']');
      if closed {
        u := Layout(start - 1, pos, [], []);
        return Ok(Arr([])), u;
      }
      r, u := ReadElements(depth, start, shown, t.parts, if v.Arr? then v.items else []);
    }

    /** Elements one after another, up to the closing bracket. */
    method ReadElements(depth: nat, ghost start: nat, ghost shown: bool, ghost all: seq<Part>, ghost items: seq<Json>)
      returns (r: Result<Json, ErrorCode>, ghost u: Layout)
      requires 0 < start <= pos <= |text| && text[start - 1] == '[' && depth <= MAX_DEPTH && tokens <= MAX_TOKENS
      requires ElementsRead(text, finite, start, pos, [], [], depth, 0)
      requires shown ==> items != [] && |items| == |all| && |items| <= MAX_ITEMS && Elements(text, finite, start, all, items, false, depth)
                         && SpaceUntil(text, pos, all[0].value.start) && Affords(tokens, PartNodes(all))
      modifies `pos, `tokens
      ensures old(pos) <= pos <= |text|
      ensures shown ==> r == Ok(Arr(items)) && pos == all[|all| - 1].mark + 1 && tokens == old(tokens) + PartNodes(all)
      ensures r.Ok? ==> u.start == start - 1 && LaidOut(text, finite, u, r.value, depth) && pos == u.end
                        && tokens == old(tokens) + PartNodes(u.parts) <= MAX_TOKENS
      decreases |text| - pos, 3
    {
      ghost var count := tokens;
      ghost var sums := Sums(all);
      u := Layout(start - 1, pos, [], []);
      var out: seq<Json> := [];
      ghost var parts: seq<Part>, nodes: nat := [], 0;
      while true
        modifies `pos, `tokens
        invariant old(pos) <= pos <= |text| && |out| <= MAX_ITEMS
        invariant ElementsRead(text, finite, start, pos, parts, out, depth, nodes) && tokens == count + nodes <= MAX_TOKENS
        invariant shown ==> |out| < |items| == |all| && out == items[..|out|] && SpaceUntil(text, pos, all[|out|].value.start)
        invariant shown ==> tokens == count + sums[|out|]
        decreases |text| - pos
      {
        ghost var i := |out|;
        if shown {
          TakeNext(items, i);
          assert sums[i + 1] == sums[i] + Nodes(all[i].value);
        }
        var step;
        ghost var w;
        step, w := ReadElement(depth, out, start, parts, nodes, all, items);
        if step.Err? {
          return Err(step.error), u;
        }
        out, parts, nodes := out + [step.value.0], parts + [w], nodes + Nodes(w.value);
        if !step.value.1 {
          u := Layout(start - 1, pos, [], parts);
          return Ok(Arr(out)), u;
        }
      }
    }

    /** One more element after those read so far. */
    method ReadElement(depth: nat, out: seq<Json>, ghost start: nat, ghost parts: seq<Part>, ghost nodes: nat,
                       ghost all: seq<Part>, ghost items: seq<Json>)
      returns (r: Result<(Json, bool), ErrorCode>, ghost w: Part)
      requires 0 < start <= pos <= |text| && text[start - 1] == '[' && depth <= MAX_DEPTH
      requires ElementsRead(text, finite, start, pos, parts, out, depth, nodes)
      modifies `pos, `tokens
      ensures old(pos) <= pos <= |text| && (r.Ok? ==> old(pos) < pos)
      ensures Elements(text, finite, start, all, items, false, depth) && |out| < |items| <= MAX_ITEMS
              && SpaceUntil(text, old(pos), all[|out|].value.start) && Affords(old(tokens), Nodes(all[|out|].value))
              ==> && r == Ok((items[|out|], |out| + 1 < |items|))
                  && pos == all[|out|].mark + 1 && tokens == old(tokens) + Nodes(all[|out|].value)
                  && (|out| + 1 < |items| ==> SpaceUntil(text, pos, all[|out| + 1].value.start))
      ensures r.Ok? ==> |out| < MAX_ITEMS && tokens == old(tokens) + Nodes(w.value) <= MAX_TOKENS
      ensures r.Ok? && r.value.1 ==>
                ElementsRead(text, finite, start, pos, parts + [w], out + [r.value.0], depth, nodes + Nodes(w.value))
      ensures r.Ok? && !r.value.1 ==>
                && LaidOut(text, finite, Layout(start - 1, pos, [], parts + [w]), Arr(out + [r.value.0]), depth)
                && PartNodes(parts + [w]) == nodes + Nodes(w.value)
      decreases |text| - pos, 2
    {
      ghost var before, i := pos, |out|;
      ghost var shown := Elements(text, finite, start, all, items, false, depth) && i < |items| && SpaceUntil(text, pos, all[i].value.start);
      if shown { ElementHere(text, finite, start, pos, all, items, i, depth); }
      r, w := ParseElement(depth, |out|, if shown then all[i] else NOTHING, if shown then items[i] else Null);
      if r.Ok? {
        ElementRead(text, finite, start, before, parts, out, w, r.value.0, depth, nodes);
      }
    }

    /** One more element, and whether a comma follows it. */
    method ParseElement(depth: nat, count: nat, ghost part: Part, ghost v: Json)
      returns (r: Result<(Json, bool), ErrorCode>, ghost w: Part)
      requires pos <= |text|
      modifies `pos, `tokens
      ensures old(pos) <= pos <= |text| && (r.Ok? ==> old(pos) < pos)
      ensures ElementAt(text, finite, old(pos), part, v, depth) && count < MAX_ITEMS && Affords(old(tokens), Nodes(part.value))
              ==> r == Ok((v, text[part.mark] == ',')) && pos == part.mark + 1 && tokens == old(tokens) + Nodes(part.value)
      ensures r.Ok? ==> ElementAt(text, finite, old(pos), w, r.value.0, depth) && pos == w.mark + 1 && count < MAX_ITEMS
                        && (r.value.1 <==> text[w.mark] == ',') && tokens == old(tokens) + Nodes(w.value) <= MAX_TOKENS
      decreases |text| - pos, 1
    {
      w := part;
      SkipWhitespace();
      var item;
      ghost var u;
      item, u := ParseValue(depth + 1, part.value, v);
      if item.Err? {
        return Err(item.error), w;
      }
      if count + 1 > MAX_ITEMS {
        return Err(TooManyItems), w;
      }
      SkipWhitespace();
      w := Part(0, 0, 0, u, pos);
      var comma := Consume(',');
      if !comma {
        var bracket := Consume(']');
        if !bracket {
          return Err(MalformedJson), w;
        }
      }
      r := Ok((item.value, comma));
    }

    /** The members after the opening brace, in any order. */
    method ParseObject(depth: nat, ghost t: Layout, ghost v: Json) returns (r: Result<Json, ErrorCode>, ghost u: Layout)
      requires 0 < pos <= |text| && text[pos - 1] == '{' && depth <= MAX_DEPTH && tokens <= MAX_TOKENS
      modifies `pos, `tokens
      ensures old(pos) <= pos <= |text|
      ensures old(pos) == t.start + 1 && LaidOut(text, finite, t, v, depth) && v.Obj? && Affords(old(tokens), PartNodes(t.parts))
              ==> r == Ok(v) && pos == t.end && tokens == old(tokens) + PartNodes(t.parts)
      ensures r.Ok? ==> u.start == old(pos) - 1 && LaidOut(text, finite, u, r.value, depth) && pos == u.end
                        && tokens == old(tokens) + PartNodes(u.parts) <= MAX_TOKENS
      decreases |text| - pos, 5
    {
      ghost var start := pos;
      ghost var shown := pos == t.start + 1 && LaidOut(text, finite, t, v, depth) && v.Obj? && Affords(tokens, PartNodes(t.parts));
      ghost var stages: seq<seq<Member>> := [];
      if shown {
        var _ := ObjectOpens(text, finite, t, v, depth);
        stages := Stages(t.order, v.members);
      }
      SkipWhitespace();
      ReadingStarts(text, finite, start, pos, depth);
      var closed := Consume('}');
      if closed {
        u := Layout(start - 1, pos, [], []);
        return Ok(Obj([])), u;
      }
      r, u := ReadEntries(depth, start, shown, t.parts, t.order, stages);
    }

    /** Members one after another, up to the closing brace. */
    method ReadEntries(depth: nat, ghost start: nat, ghost shown: bool, ghost all: seq<Part>, ghost whole: seq<Member>,
                       ghost stages: seq<seq<Member>>)
      returns (r: Result<Json, ErrorCode>, ghost u: Layout)
      requires 0 < start <= pos <= |text| && text[start - 1] == '{' && depth <= MAX_DEPTH && tokens <= MAX_TOKENS
      requires EntriesRead(text, finite, start, pos, [], [], [], depth, 0)
      requires shown ==> whole != [] && |whole| == |all| && Entries(text, finite, start, all, whole, false, depth)
                         && SpaceUntil(text, pos, all[0].key) && Affords(tokens, PartNodes(all))
      requires shown ==> |stages| == |whole| + 1 && stages[0] == []
                         && forall i | 0 <= i < |whole| :: Adds(stages[i], whole[i], stages[i + 1])
      modifies `pos, `tokens
      ensures old(pos) <= pos <= |text|
      ensures shown ==> r == Ok(Obj(stages[|whole|])) && pos == all[|all| - 1].mark + 1 && tokens == old(tokens) + PartNodes(all)
      ensures r.Ok? ==> u.start == start - 1 && LaidOut(text, finite, u, r.value, depth) && pos == u.end
                        && tokens == old(tokens) + PartNodes(u.parts) <= MAX_TOKENS
      decreases |text| - pos, 4
    {
      ghost var count := tokens;
      ghost var sums := Sums(all);
      u := Layout(start - 1, pos, [], []);
      var out: seq<Member> := [];
      ghost var parts: seq<Part>, order: seq<Member>, nodes: nat := [], [], 0;
      while true
        modifies `pos, `tokens
        invariant old(pos) <= pos <= |text|
        invariant EntriesRead(text, finite, start, pos, parts, order, out, depth, nodes) && tokens == count + nodes <= MAX_TOKENS
        invariant shown ==> |order| < |whole| == |all| && out == stages[|order|] && SpaceUntil(text, pos, all[|order|].key)
        invariant shown ==> tokens == count + sums[|order|]
        decreases |text| - pos
      {
        ghost var i := |order|;
        if shown {
          assert sums[i + 1] == sums[i] + Nodes(all[i].value);
        }
        var step;
        ghost var w, m;
        step, w, m := ReadEntry(depth, out, start, parts, order, nodes, all, whole, stages);
        if step.Err? {
          return Err(step.error), u;
        }
        out, order, parts, nodes := step.value.0, order + [m], parts + [w], nodes + Nodes(w.value);
        if !step.value.1 {
          u := Layout(start - 1, pos, order, parts);
          return Ok(Obj(out)), u;
        }
      }
    }

    /** One more member after those read so far. */
    method ReadEntry(depth: nat, out: seq<Member>, ghost start: nat, ghost parts: seq<Part>, ghost order: seq<Member>, ghost nodes: nat,
                     ghost all: seq<Part>, ghost whole: seq<Member>, ghost stages: seq<seq<Member>>)
      returns (r: Result<(seq<Member>, bool), ErrorCode>, ghost w: Part, ghost found: Member)
      requires 0 < start <= pos <= |text| && text[start - 1] == '{' && depth <= MAX_DEPTH
      requires EntriesRead(text, finite, start, pos, parts, order, out, depth, nodes)
      modifies `pos, `tokens
      ensures old(pos) <= pos <= |text| && (r.Ok? ==> old(pos) < pos)
      ensures Entries(text, finite, start, all, whole, false, depth) && |order| < |whole| && |stages| == |whole| + 1
              && SpaceUntil(text, old(pos), all[|order|].key) && Affords(old(tokens), Nodes(all[|order|].value))
              && out == stages[|order|] && Adds(stages[|order|], whole[|order|], stages[|order| + 1])
              ==> && r == Ok((stages[|order| + 1], |order| + 1 < |whole|))
                  && pos == all[|order|].mark + 1 && tokens == old(tokens) + Nodes(all[|order|].value)
                  && (|order| + 1 < |whole| ==> SpaceUntil(text, pos, all[|order| + 1].key))
      ensures r.Ok? ==> tokens == old(tokens) + Nodes(w.value) <= MAX_TOKENS
      ensures r.Ok? && r.value.1 ==>
                EntriesRead(text, finite, start, pos, parts + [w], order + [found], r.value.0, depth, nodes + Nodes(w.value))
      ensures r.Ok? && !r.value.1 ==>
                && LaidOut(text, finite, Layout(start - 1, pos, order + [found], parts + [w]), Obj(r.value.0), depth)
                && PartNodes(parts + [w]) == nodes + Nodes(w.value)
      decreases |text| - pos, 3
    {
      ghost var before, i := pos, |order|;
      ghost var shown := Entries(text, finite, start, all, whole, false, depth) && i < |whole| && |stages| == |whole| + 1
                         && SpaceUntil(text, pos, all[i].key);
      if shown { EntryHere(text, finite, start, pos, all, whole, i, depth); }
      r, w, found := ParseEntry(depth, out, if shown then all[i] else NOTHING, if shown then whole[i] else Member("", Null),
                                if shown then stages[i + 1] else []);
      if r.Ok? {
        EntryRead(text, finite, start, before, parts, order, out, w, found, r.value.0, depth, nodes);
      }
    }

    /** One more member with a key of its own, put in its place, and whether a comma follows it. */
    method ParseEntry(depth: nat, out: seq<Member>, ghost part: Part, ghost m: Member, ghost goal: seq<Member>)
      returns (r: Result<(seq<Member>, bool), ErrorCode>, ghost w: Part, ghost found: Member)
      requires pos <= |text|
      modifies `pos, `tokens
      ensures old(pos) <= pos <= |text| && (r.Ok? ==> old(pos) < pos)
      ensures EndedEntry(text, finite, old(pos), part, m, depth) && Adds(out, m, goal) && Affords(old(tokens), Nodes(part.value))
              ==> r == Ok((goal, text[part.mark] == ',')) && pos == part.mark + 1 && tokens == old(tokens) + Nodes(part.value)
      ensures r.Ok? ==> EndedEntry(text, finite, old(pos), w, found, depth) && Adds(out, found, r.value.0) && pos == w.mark + 1
                        && (r.value.1 <==> text[w.mark] == ',') && tokens == old(tokens) + Nodes(w.value) <= MAX_TOKENS
      decreases |text| - pos, 2
    {
      assert Unfold(true);
      found := m;
      SkipWhitespace();
      var member;
      member, w := ParseMember(depth, part, m);
      if member.Err? {
        return Err(member.error), w, found;
      }
      found := member.value;
      if HasKey(out, member.value.key) {
        return Err(MalformedJson), w, found;
      }
      SkipWhitespace();
      w := w.(mark := pos);
      var comma := Consume(',');
      if !comma {
        var brace := Consume('}');
        if !brace {
          return Err(MalformedJson), w, found;
        }
      }
      r := Ok((Insert(out, member.value.key, member.value.value), comma));
    }

    /** A key, a colon and a value. */
    method ParseMember(depth: nat, ghost part: Part, ghost m: Member) returns (r: Result<Member, ErrorCode>, ghost w: Part)
      requires pos <= |text|
      modifies `pos, `tokens
      ensures old(pos) <= pos <= |text| && (r.Ok? ==> old(pos) < pos)
      ensures old(pos) == part.key && EntryAt(text, finite, part, m, depth) && Affords(old(tokens), Nodes(part.value))
              ==> r == Ok(m) && pos == part.value.end && tokens == old(tokens) + Nodes(part.value)
      ensures r.Ok? ==> w.key == old(pos) && EntryAt(text, finite, w, r.value, depth) && pos == w.value.end
                        && tokens == old(tokens) + Nodes(w.value) <= MAX_TOKENS
      decreases |text| - pos, 1
    {
      assert Unfold(true);
      w := part;
      ghost var key0 := pos;
      var key := ParseString();
      if key.Err? {
        return Err(key.error), w;
      }
      ghost var keyEnd := pos;
      SkipWhitespace();
      ghost var colonAt := pos;
      var colon := Consume(':');
      if !colon {
        return Err(MalformedJson), w;
      }
      SkipWhitespace();
      var member;
      ghost var u;
      member, u := ParseValue(depth + 1, part.value, m.value);
      w := Part(key0, keyEnd, colonAt, u, 0);
      r := if member.Ok? then Ok(Member(key.value, member.value)) else Err(member.error);
    }
  }

  lemma {:induction false} SpaceEnds(text: string, p: nat, e: nat, q: nat)
    requires SpaceUntil(text, p, e) && SpaceUntil(text, p, q)
    ensures e == q
  {
    assert e < |text| ==> !IsSpace(text[e]);
    assert q < |text| ==> !IsSpace(text[q]);
  }

  lemma {:induction false} BeforeNothing(t: Option<Token>)
    ensures Before("", true, t) == t
  {
    if t.Some? {
      assert "" + t.value.chars == t.value.chars;
    }
  }

  lemma {:induction false} BeforeJoins(out: string, chars: string, fits: bool, rest: Option<Token>)
    ensures Before(out, true, Before(chars, fits, rest)) == Before(out + chars, fits, rest)
  {
    if rest.Some? {
      assert out + (chars + rest.value.chars) == (out + chars) + rest.value.chars;
    }
  }

  /** The words begin with their own letters. */
  lemma {:induction false} WordsOnly(text: string, finite: string -> bool, p: nat)
    requires p < |text|
    ensures forall end: nat, v: Json | v.Null? || v.Bool? :: ScalarAt(text, finite, p, end, v) ==>
              text[p] == (if v.Null? then 'n' else if v.b then 't' else 'f')
  {
    forall end: nat, v: Json | (v.Null? || v.Bool?) && ScalarAt(text, finite, p, end, v)
      ensures text[p] == (if v.Null? then 'n' else if v.b then 't' else 'f')
    {
      ScalarLead(text, finite, p, end, v);
    }
  }

  const NOTHING: Part := Part(0, 0, 0, Layout(0, 0, [], []), 0)

  /** The parts read so far, each followed by a comma, are the elements read so far, and reading
      goes on at p. Brought in only where Unfold is mentioned. */
  ghost predicate ElementsRead(
    text: string, finite: string -> bool, start: nat, p: nat, parts: seq<Part>, items: seq<Json>, depth: nat, nodes: nat)
  {
    forall b {:trigger Unfold(b)} :: Unfold(b) ==>
      && Elements(text, finite, start, parts, items, true, depth) && nodes == PartNodes(parts)
      && (p == From(parts, |parts|, start) || SpaceUntil(text, From(parts, |parts|, start), p))
  }

  /** The same of members; out has them in the order of their keys. */
  ghost predicate EntriesRead(
    text: string, finite: string -> bool, start: nat, p: nat, parts: seq<Part>, order: seq<Member>, out: seq<Member>, depth: nat, nodes: nat)
  {
    forall b {:trigger Unfold(b)} :: Unfold(b) ==>
      && Entries(text, finite, start, parts, order, true, depth) && nodes == PartNodes(parts)
      && (p == From(parts, |parts|, start) || SpaceUntil(text, From(parts, |parts|, start), p))
      && OneOfEach(order) && out == SortedTo(order, |order|)
  }

  /** Before anything is read; an array or object closed here is empty. */
  lemma {:induction false} ReadingStarts(text: string, finite: string -> bool, start: nat, p: nat, depth: nat)
    requires 0 < start && SpaceUntil(text, start, p) && depth <= MAX_DEPTH
    ensures ElementsRead(text, finite, start, p, [], [], depth, 0) && EntriesRead(text, finite, start, p, [], [], [], depth, 0)
    ensures p < |text| && text[start - 1] == '[' && text[p] == ']' ==>
              LaidOut(text, finite, Layout(start - 1, p + 1, [], []), Arr([]), depth)
    ensures p < |text| && text[start - 1] == '{' && text[p] == '}' ==>
              LaidOut(text, finite, Layout(start - 1, p + 1, [], []), Obj([]), depth)
  {
  }

  /** A member with a key of its own is put in its place. Brought in only where Unfold is mentioned. */
  ghost predicate Adds(out: seq<Member>, m: Member, grown: seq<Member>) {
    forall b {:trigger Unfold(b)} :: Unfold(b) ==> !HasKey(out, m.key) && grown == Insert(out, m.key, m.value)
  }

  /** One more element: more are to come, or the array is complete. */
  lemma {:induction false} ElementRead(
    text: string, finite: string -> bool, start: nat, p: nat, parts: seq<Part>, items: seq<Json>, w: Part, v: Json, depth: nat, nodes: nat)
    requires ElementsRead(text, finite, start, p, parts, items, depth, nodes) && ElementAt(text, finite, p, w, v, depth)
    requires 0 < start <= p && text[start - 1] == '[' && |items| < MAX_ITEMS && depth <= MAX_DEPTH
    ensures text[w.mark] == ',' ==>
              ElementsRead(text, finite, start, w.mark + 1, parts + [w], items + [v], depth, nodes + Nodes(w.value))
    ensures text[w.mark] != ',' ==>
              && LaidOut(text, finite, Layout(start - 1, w.mark + 1, [], parts + [w]), Arr(items + [v]), depth)
              && PartNodes(parts + [w]) == nodes + Nodes(w.value)
  {
    assert Unfold(true);
    SpaceJoins(text, From(parts, |parts|, start), p, w.value.start);
    assert ElementAt(text, finite, From(parts, |parts|, start), w, v, depth);
    ElementsGrow(text, finite, start, parts, items, w, v, text[w.mark] == ',', depth);
    NodesGrow(parts, w);
  }

  /** One more member: more are to come, or the object is complete. */
  lemma {:induction false} EntryRead(
    text: string, finite: string -> bool, start: nat, p: nat, parts: seq<Part>, order: seq<Member>, out: seq<Member>, w: Part, m: Member,
    grown: seq<Member>, depth: nat, nodes: nat)
    requires EntriesRead(text, finite, start, p, parts, order, out, depth, nodes)
    requires EndedEntry(text, finite, p, w, m, depth) && Adds(out, m, grown)
    requires 0 < start <= p && text[start - 1] == '{' && depth <= MAX_DEPTH
    ensures text[w.mark] == ',' ==>
              EntriesRead(text, finite, start, w.mark + 1, parts + [w], order + [m], grown, depth, nodes + Nodes(w.value))
    ensures text[w.mark] != ',' ==>
              && LaidOut(text, finite, Layout(start - 1, w.mark + 1, order + [m], parts + [w]), Obj(grown), depth)
              && PartNodes(parts + [w]) == nodes + Nodes(w.value)
  {
    EntriesSoFar(text, finite, start, p, parts, order, out, depth, nodes);
    AddedKey(out, m, grown);
    StillOneOfEach(order, m);
    MarkAfter(text, finite, p, w, m, depth);
    EntryJoins(text, finite, start, p, parts, order, w, m, depth);
    NodesGrow(parts, w);
    EntriesDone(text, finite, start, parts + [w], order + [m], grown, depth, w.mark);
  }

  /** What reading so far means. */
  lemma {:induction false} EntriesSoFar(
    text: string, finite: string -> bool, start: nat, p: nat, parts: seq<Part>, order: seq<Member>, out: seq<Member>, depth: nat, nodes: nat)
    requires EntriesRead(text, finite, start, p, parts, order, out, depth, nodes)
    ensures Entries(text, finite, start, parts, order, true, depth) && nodes == PartNodes(parts) && |parts| == |order|
    ensures p == From(parts, |parts|, start) || SpaceUntil(text, From(parts, |parts|, start), p)
    ensures OneOfEach(order) && out == SortedTo(order, |order|)
  {
    assert Unfold(true);
  }

  lemma {:induction false} AddedKey(out: seq<Member>, m: Member, grown: seq<Member>)
    requires Adds(out, m, grown)
    ensures !HasKey(out, m.key) && grown == Insert(out, m.key, m.value)
  {
    assert Unfold(true);
  }

  lemma {:induction false} MarkAfter(text: string, finite: string -> bool, p: nat, w: Part, m: Member, depth: nat)
    requires EndedEntry(text, finite, p, w, m, depth)
    ensures p <= w.mark < |text|
  {
    assert EntryAt(text, finite, w, m, depth) && LaidOut(text, finite, w.value, m.value, depth + 1);
    assert Unfold(true) && StringToken(text, w.key).Some?;
  }

  /** The values in the first i parts, for each i. */
  lemma {:induction false} Sums(parts: seq<Part>) returns (sums: seq<nat>)
    ensures |sums| == |parts| + 1 && sums[0] == 0 && sums[|parts|] == PartNodes(parts)
    ensures forall i {:trigger parts[i]} | 0 <= i < |parts| ::
              sums[i + 1] == sums[i] + Nodes(parts[i].value) && sums[i + 1] <= PartNodes(parts)
  {
    sums := seq(|parts| + 1, (i: nat) => if i <= |parts| then PartNodes(parts[..i]) else 0);
    forall i {:trigger parts[i]} | 0 <= i < |parts| ensures sums[i + 1] == sums[i] + Nodes(parts[i].value) && sums[i + 1] <= PartNodes(parts) {
      NodesNext(parts, i);
    }
    NodesPrefix(parts, |parts|);
  }

  lemma {:induction false} EntryJoins(
    text: string, finite: string -> bool, start: nat, p: nat, parts: seq<Part>, order: seq<Member>, w: Part, m: Member, depth: nat)
    requires Entries(text, finite, start, parts, order, true, depth) && EndedEntry(text, finite, p, w, m, depth)
    requires p == From(parts, |parts|, start) || SpaceUntil(text, From(parts, |parts|, start), p)
    ensures Entries(text, finite, start, parts + [w], order + [m], text[w.mark] == ',', depth)
    ensures From(parts + [w], |parts + [w]|, start) == w.mark + 1
  {
    SpaceJoins(text, From(parts, |parts|, start), p, w.key);
    assert EndedEntry(text, finite, From(parts, |parts|, start), w, m, depth);
    EntriesGrow(text, finite, start, parts, order, w, m, text[w.mark] == ',', depth);
  }

  /** The members read are those so far, and of the whole object when no comma follows. */
  lemma {:induction false} EntriesDone(
    text: string, finite: string -> bool, start: nat, parts: seq<Part>, order: seq<Member>, members: seq<Member>, depth: nat, mark: nat)
    requires 0 < start <= mark < |text| && text[start - 1] == '{' && depth <= MAX_DEPTH && order != []
    requires OneOfEach(order) && members == SortedTo(order, |order|) && |parts| == |order| && mark + 1 == From(parts, |parts|, start)
    requires Entries(text, finite, start, parts, order, text[mark] == ',', depth)
    ensures text[mark] == ',' ==> EntriesRead(text, finite, start, mark + 1, parts, order, members, depth, PartNodes(parts))
    ensures text[mark] != ',' ==> LaidOut(text, finite, Layout(start - 1, mark + 1, order, parts), Obj(members), depth)
  {
  }

  /** How the members of a text are sorted, one after the other. */
  lemma {:induction false} Stages(order: seq<Member>, members: seq<Member>) returns (stages: seq<seq<Member>>)
    requires OneOfEach(order) && members == SortedTo(order, |order|)
    ensures |stages| == |order| + 1 && stages[0] == [] && stages[|order|] == members
    ensures forall i {:trigger order[i]} | 0 <= i < |order| :: Adds(stages[i], order[i], stages[i + 1])
  {
    stages := seq(|order| + 1, (i: nat) => if i <= |order| then SortedTo(order, i) else []);
    forall i | 0 <= i < |order| ensures Adds(stages[i], order[i], stages[i + 1]) {
      NextKey(order, i);
    }
  }

  lemma {:induction false} SpaceJoins(text: string, p: nat, q: nat, e: nat)
    requires (p == q || SpaceUntil(text, p, q)) && SpaceUntil(text, q, e)
    ensures SpaceUntil(text, p, e)
  {
    assert q < |text| && !IsSpace(text[q]) ==> e == q;
  }

  /** A key that comes for the first time is not among the members sorted so far. */
  lemma {:induction false} NextKey(order: seq<Member>, i: nat)
    requires i < |order| && OneOfEach(order)
    ensures !HasKey(SortedTo(order, i), order[i].key)
    ensures SortedTo(order, i + 1) == Insert(SortedTo(order, i), order[i].key, order[i].value)
  {
    SortedKeys(order, i, order[i].key);
  }
}
