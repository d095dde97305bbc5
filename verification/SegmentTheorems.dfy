/** What a scan recovers: round trips, torn tails and re-encoding. */
module SegmentTheorems {

  import opened Arith
  import opened Common
  import opened Folds
  import opened Bytes
  import opened Segment

  // ---- one frame -----------------------------------------------------------

  /** The scanner's budget covers the record header as well as the payload. */
  predicate Readable(r: Record) {
    RECORD_HEADER_BYTES + |r.payload| <= MAX_RECORD_BYTES
  }

  /** What the writer accepts. */
  predicate Writable(r: Record) {
    |r.payload| <= MAX_RECORD_BYTES
  }

  /** The part sits in the stream at pos, whole or cut off by the end of the stream. */
  ghost predicate Holds(stream: seq<Byte>, pos: nat, part: seq<Byte>) {
    pos + |part| <= |stream| && stream[pos..pos + |part|] == part
  }

  ghost predicate CutOff(stream: seq<Byte>, pos: nat, part: seq<Byte>) {
    pos <= |stream| < pos + |part| && stream[pos..] == part[..|stream| - pos]
  }

  lemma SubHolds(stream: seq<Byte>, pos: nat, part: seq<Byte>, i: nat, j: nat)
    requires Holds(stream, pos, part) && i <= j <= |part|
    ensures stream[pos + i..pos + j] == part[i..j]
  {
    var sub := stream[pos + i..pos + j];
    assert forall k | 0 <= k < j - i :: sub[k] == stream[pos..pos + |part|][i + k];
  }

  lemma SubCutOff(stream: seq<Byte>, pos: nat, part: seq<Byte>, j: nat)
    requires CutOff(stream, pos, part) && pos + j <= |stream|
    ensures stream[pos..pos + j] == part[..j]
  {
    assert stream[pos..pos + j] == stream[pos..][..j];
  }

  lemma SignedWord(x: I64)
    ensures AsSigned(AsUnsigned(x)) == x
  {
  }

  lemma BodyParts(r: Record)
    ensures var b := Body(r);
      && KindOf(b[0]) == Some(r.kind)
      && Get(b[1..9]) == r.ordinal
      && Get(b[9..17]) == AsUnsigned(r.writtenAt)
      && b[17..] == r.payload
  {
    var b := Body(r);
    assert b[1..9] == Put(r.ordinal, 8);
    assert b[9..17] == Put(AsUnsigned(r.writtenAt), 8);
    WordSizes();
    GetPut(r.ordinal, 8);
    GetPut(AsUnsigned(r.writtenAt), 8);
  }

  lemma FrameHeaderParts(h: Hashes, body: seq<Byte>)
    requires |body| < 0x1_0000_0000
    ensures Get(FrameHeader(h, body)[..4]) == |body|
    ensures Get(FrameHeader(h, body)[4..]) == h.crc(body)
  {
    WordSizes();
    assert FrameHeader(h, body)[..4] == Put(|body|, 4);
    assert FrameHeader(h, body)[4..] == Put(h.crc(body), 4);
    GetPut(|body|, 4);
    GetPut(h.crc(body), 4);
  }

  /** The footer magic read as a frame length is far beyond any frame a writer makes. */
  lemma MagicLength()
    ensures Get(FOOTER_MAGIC[..4]) == 0x464C_4546
  {
    var m := FOOTER_MAGIC[..4];
    assert m == [0x46, 0x45, 0x4C, 0x46];
    assert m[1..] == [0x45, 0x4C, 0x46] && m[1..][1..] == [0x4C, 0x46] && m[1..][1..][1..] == [0x46];
    assert m[1..][1..][1..][1..] == [];
    assert Get(m[1..][1..][1..]) == 0x46;
    assert Get(m[1..][1..]) == 0x464C;
    assert Get(m[1..]) == 0x464C45;
  }

  /** No frame header a writer produces can be mistaken for the footer. */
  lemma HeaderIsNotMagic(h: Hashes, r: Record)
    requires Writable(r)
    ensures FrameHeader(h, Body(r)) != FOOTER_MAGIC
  {
    FrameHeaderParts(h, Body(r));
    MagicLength();
  }

  lemma LengthAndCrc(h: Hashes, stream: seq<Byte>, pos: nat, body: seq<Byte>)
    requires pos + 8 <= |stream| && stream[pos..pos + 8] == FrameHeader(h, body) && |body| < 0x1_0000_0000
    ensures Get(stream[pos..pos + 4]) == |body| && Get(stream[pos + 4..pos + 8]) == h.crc(body)
  {
    FrameHeaderParts(h, body);
    var f := stream[pos..pos + 8];
    assert f[..4] == stream[pos..pos + 4] && f[4..] == stream[pos + 4..pos + 8];
  }

  lemma LookInsideBody(h: Hashes, r: Record, next: nat)
    ensures LookInside(h, Body(r), h.crc(Body(r)), next) == Read(r, next)
  {
    BodyParts(r);
    SignedWord(r.writtenAt);
  }

  /** A whole frame is read back exactly when it is within the scanner's budget. */
  lemma LookAtFrame(h: Hashes, stream: seq<Byte>, pos: nat, count: nat, r: Record)
    requires Writable(r) && Holds(stream, pos, Frame(h, r))
    ensures Look(h, stream, pos, count) == if Readable(r) then Read(r, pos + |Frame(h, r)|) else Damaged
  {
    var f, n := Frame(h, r), RECORD_HEADER_BYTES + |r.payload|;
    assert f[..8] == FrameHeader(h, Body(r)) && f[8..8 + n] == Body(r);
    SubHolds(stream, pos, f, 0, 8);
    SubHolds(stream, pos, f, 8, 8 + n);
    HeaderIsNotMagic(h, r);
    LengthAndCrc(h, stream, pos, Body(r));
    LookInsideBody(h, r, pos + |f|);
  }

  /** A frame the stream does not hold to its end is damage. */
  lemma LookAtTornFrame(h: Hashes, stream: seq<Byte>, pos: nat, count: nat, r: Record)
    requires Writable(r) && CutOff(stream, pos, Frame(h, r))
    ensures Look(h, stream, pos, count) == Damaged
  {
    if pos + 8 <= |stream| {
      SubCutOff(stream, pos, Frame(h, r), 8);
      assert Frame(h, r)[..8] == FrameHeader(h, Body(r));
      HeaderIsNotMagic(h, r);
      LengthAndCrc(h, stream, pos, Body(r));
    }
  }

  lemma LookAtFooter(h: Hashes, stream: seq<Byte>, pos: nat, count: nat)
    requires pos <= |stream| && count <= U64_MAX
    requires Holds(stream, pos, Footer(h, count, stream[..pos]))
    ensures Look(h, stream, pos, count) == Sealed
  {
    var content := stream[..pos];
    var start, footer := FooterStart(h, count, content), Footer(h, count, content);
    assert footer[..8] == FOOTER_MAGIC;
    SubHolds(stream, pos, footer, 0, 8);
    assert stream[pos..pos + FOOTER_BYTES] == footer;
    assert footer[..48] == start && footer[48..] == Put(h.crc(start), 4);
    assert footer[8..16] == Put(count, 8) && footer[16..48] == h.sha(content);
    WordSizes();
    GetPut(h.crc(start), 4);
    GetPut(count, 8);
  }

  lemma LookAtTornFooter(h: Hashes, stream: seq<Byte>, pos: nat, count: nat, content: seq<Byte>)
    requires CutOff(stream, pos, Footer(h, count, content))
    ensures Look(h, stream, pos, count) == Damaged
  {
    if pos + 8 <= |stream| {
      SubCutOff(stream, pos, Footer(h, count, content), 8);
      assert Footer(h, count, content)[..8] == FOOTER_MAGIC;
    }
  }

  // ---- following a scan ----------------------------------------------------

  /** A scan that reads the first n records of rs, one frame after another, and no more. */
  ghost predicate Follows(look: (nat, nat) -> Step, at: nat -> nat, rs: seq<Record>, n: nat) {
    && n <= |rs|
    && (forall i: nat {:trigger at(i)} | i < n :: look(at(i), i) == Read(rs[i], at(i + 1)))
    && !look(at(n), n).Read?
  }

  lemma {:induction false} ScanFollows(
    look: (nat, nat) -> Step, size: nat, at: nat -> nat, rs: seq<Record>, n: nat, i: nat)
    requires Advances(look, size) && Follows(look, at, rs, n) && i <= n && at(i) <= size
    ensures at(n) <= size
    ensures ScanFrom(look, size, at(i), i) == Recovered(rs[i..n], at(n), look(at(n), n).Sealed?)
    decreases n - i
  {
    if i < n {
      assert look(at(i), i) == Read(rs[i], at(i + 1));
      ScanFollows(look, size, at, rs, n, i + 1);
      assert rs[i..n] == [rs[i]] + rs[i + 1..n];
    }
  }

  // ---- the stream of a sealed segment --------------------------------------

  function Stream(h: Hashes, rs: seq<Record>): seq<Byte> {
    Frames(h, rs) + Footer(h, |rs|, Frames(h, rs))
  }

  /** Where the frame of record i starts, and where the footer does. */
  function Start(h: Hashes, rs: seq<Record>, i: nat): nat {
    |Frames(h, if i <= |rs| then rs[..i] else rs)|
  }

  function Starts(h: Hashes, rs: seq<Record>): nat -> nat {
    (i: nat) => Start(h, rs, i)
  }

  lemma PartHolds(a: seq<Byte>, part: seq<Byte>, b: seq<Byte>, cut: nat)
    requires |a| <= cut <= |a + (part + b)|
    ensures var stream := (a + (part + b))[..cut];
      if |a| + |part| <= cut then Holds(stream, |a|, part) else CutOff(stream, |a|, part)
  {
  }

  /** A cut stream holds a frame or has cut it off, depending on where the cut is. */
  lemma FrameAt(h: Hashes, rs: seq<Record>, i: nat, cut: nat)
    requires i < |rs| && Start(h, rs, i) <= cut <= |Stream(h, rs)|
    ensures Start(h, rs, i + 1) == Start(h, rs, i) + |Frame(h, rs[i])|
    ensures var stream := Stream(h, rs)[..cut];
      if Start(h, rs, i + 1) <= cut then Holds(stream, Start(h, rs, i), Frame(h, rs[i]))
      else CutOff(stream, Start(h, rs, i), Frame(h, rs[i]))
  {
    var a, part, c := Frames(h, rs[..i]), Frame(h, rs[i]), Frames(h, rs[i + 1..]);
    var footer := Footer(h, |rs|, Frames(h, rs));
    ConcatAt(rs, i, Framer(h));
    Regroup(a, part, c, footer);
    PartHolds(a, part, c + footer, cut);
  }

  lemma Regroup(a: seq<Byte>, b: seq<Byte>, c: seq<Byte>, d: seq<Byte>)
    ensures (a + (b + c)) + d == a + (b + (c + d))
  {
  }

  lemma FooterAt(h: Hashes, rs: seq<Record>, cut: nat)
    requires |Frames(h, rs)| <= cut <= |Stream(h, rs)| && |rs| <= U64_MAX
    ensures Look(h, Stream(h, rs)[..cut], Start(h, rs, |rs|), |rs|)
         == if cut == |Stream(h, rs)| then Sealed else Damaged
  {
    var a := Frames(h, rs);
    var footer := Footer(h, |rs|, a);
    TakeAll(rs);
    assert footer + [] == footer;
    PartHolds(a, footer, [], cut);
    var stream := Stream(h, rs)[..cut];
    if cut == |a| + |footer| {
      assert stream[..|a|] == a;
      LookAtFooter(h, stream, |a|, |rs|);
    } else {
      LookAtTornFooter(h, stream, |a|, |rs|, a);
    }
  }

  // ---- round trip and torn tails -------------------------------------------

  /** How many leading records are within the scanner's budget. */
  function Visible(rs: seq<Record>): (n: nat)
    ensures n <= |rs|
    ensures forall i | 0 <= i < n :: Readable(rs[i])
    ensures n < |rs| ==> !Readable(rs[n])
  {
    if rs == [] || !Readable(rs[0]) then 0 else 1 + Visible(rs[1..])
  }

  lemma VisibleAll(rs: seq<Record>)
    ensures Visible(rs) == |rs| <==> forall r | r in rs :: Readable(r)
  {
    var n := Visible(rs);
    if n < |rs| {
      assert rs[n] in rs;
    }
  }

  /** How many leading records have their whole frames within room bytes. */
  function Whole(h: Hashes, rs: seq<Record>, room: nat): (n: nat)
    ensures n <= |rs|
  {
    if rs == [] || |Frames(h, rs)| <= room then |rs| else Whole(h, rs[..|rs| - 1], room)
  }

  lemma {:induction false} WholeFrames(h: Hashes, rs: seq<Record>, room: nat)
    ensures var n := Whole(h, rs, room);
      |Frames(h, rs[..n])| <= room && (n < |rs| ==> |Frames(h, rs[..n + 1])| > room)
  {
    TakeAll(rs);
    if rs != [] && |Frames(h, rs)| > room {
      var m := |rs| - 1;
      var n := Whole(h, rs[..m], room);
      WholeFrames(h, rs[..m], room);
      assert rs[..m][..n] == rs[..n];
      assert n < m ==> rs[..m][..n + 1] == rs[..n + 1];
    }
  }

  lemma {:induction false} StartsAscend(h: Hashes, rs: seq<Record>, i: nat, j: nat)
    requires i <= j <= |rs|
    ensures Start(h, rs, i) <= Start(h, rs, j) <= |Frames(h, rs)|
  {
    assert rs[..j] == rs[..i] + rs[i..j] && rs == rs[..j] + rs[j..];
    ConcatAppend(rs[..i], rs[i..j], Framer(h));
    ConcatAppend(rs[..j], rs[j..], Framer(h));
  }

  /** What a scan finds at the start of record i of a stream cut at cut. */
  lemma LookAtRecord(h: Hashes, rs: seq<Record>, cut: nat, i: nat)
    requires i < |rs| && Writable(rs[i]) && Start(h, rs, i) <= cut <= |Stream(h, rs)|
    ensures Look(h, Stream(h, rs)[..cut], Start(h, rs, i), i)
         == if Start(h, rs, i + 1) <= cut && Readable(rs[i]) then Read(rs[i], Start(h, rs, i + 1)) else Damaged
  {
    FrameAt(h, rs, i, cut);
    if Start(h, rs, i + 1) <= cut {
      LookAtFrame(h, Stream(h, rs)[..cut], Start(h, rs, i), i, rs[i]);
    } else {
      LookAtTornFrame(h, Stream(h, rs)[..cut], Start(h, rs, i), i, rs[i]);
    }
  }

  /** The records a scan of a cut stream can reach are read one after another. */
  lemma CutReads(h: Hashes, rs: seq<Record>, cut: nat, i: nat)
    requires cut <= |Stream(h, rs)| && i < Visible(rs) && i < Whole(h, rs, cut)
    ensures Look(h, Stream(h, rs)[..cut], Start(h, rs, i), i) == Read(rs[i], Start(h, rs, i + 1))
  {
    WholeFrames(h, rs, cut);
    StartsAscend(h, rs, i, i + 1);
    StartsAscend(h, rs, i + 1, Whole(h, rs, cut));
    LookAtRecord(h, rs, cut, i);
  }

  lemma CutStops(h: Hashes, rs: seq<Record>, cut: nat)
    requires |rs| <= U64_MAX && cut <= |Stream(h, rs)| && forall r | r in rs :: Writable(r)
    ensures var n := Min(Visible(rs), Whole(h, rs, cut));
      Look(h, Stream(h, rs)[..cut], Start(h, rs, n), n)
      == if n == |rs| && cut == |Stream(h, rs)| then Sealed else Damaged
  {
    var n := Min(Visible(rs), Whole(h, rs, cut));
    WholeFrames(h, rs, cut);
    StartsAscend(h, rs, n, Whole(h, rs, cut));
    if n < |rs| {
      assert rs[n] in rs;
      LookAtRecord(h, rs, cut, n);
    } else {
      TakeAll(rs);
      FooterAt(h, rs, cut);
    }
  }

  /** Wherever a sealed stream is cut, a scan finds exactly the records whose frames are
      whole, up to the first that exceeds the scanner's budget, and reports the stream sealed
      exactly when nothing was cut and no record exceeded it. */
  lemma ScanCut(h: Hashes, rs: seq<Record>, cut: nat)
    requires |rs| <= U64_MAX && cut <= |Stream(h, rs)| && forall r | r in rs :: Writable(r)
    ensures var n := Min(Visible(rs), Whole(h, rs, cut));
      ScanStream(h, Stream(h, rs)[..cut])
      == Recovered(rs[..n], Start(h, rs, n), n == |rs| && cut == |Stream(h, rs)|)
  {
    var n, at, stream := Min(Visible(rs), Whole(h, rs, cut)), Starts(h, rs), Stream(h, rs)[..cut];
    var look := Looker(h, stream);
    forall i: nat | i < n ensures look(at(i), i) == Read(rs[i], at(i + 1)) {
      CutReads(h, rs, cut, i);
    }
    CutStops(h, rs, cut);
    ScanFollows(look, |stream|, at, rs, n, 0);
    assert rs[0..n] == rs[..n];
  }

  function Min(a: nat, b: nat): nat {
    if a <= b then a else b
  }

  lemma HeaderParts(id: nat, createdAt: I64, stream: seq<Byte>)
    requires id <= U64_MAX
    ensures var file := Header(id, createdAt) + stream;
      && HeaderHolds(file) && Get(file[8..12]) == FORMAT_VERSION && Get(file[12..20]) == id
      && file[HEADER_BYTES..] == stream
  {
    var file := Header(id, createdAt) + stream;
    assert file[..8] == SEGMENT_MAGIC;
    assert file[8..12] == Put(FORMAT_VERSION, 4) && file[12..20] == Put(id, 8);
    WordSizes();
    GetPut(FORMAT_VERSION, 4);
    GetPut(id, 8);
  }

  lemma SealedSplits(h: Hashes, id: nat, createdAt: I64, rs: seq<Record>)
    ensures SealedBytes(h, id, createdAt, rs) == Header(id, createdAt) + Stream(h, rs)
  {
    Associative(Header(id, createdAt), Frames(h, rs), Footer(h, |rs|, Frames(h, rs)));
  }

  /** Scanning a sealed segment visits its records in order, up to the first one the
      scanner's budget refuses, and reports it undamaged exactly when there is none. */
  lemma RoundTrip(h: Hashes, id: nat, createdAt: I64, rs: seq<Record>)
    requires id <= U64_MAX && |rs| <= U64_MAX && forall r | r in rs :: Writable(r)
    ensures var scan := ScanResult(h, SealedBytes(h, id, createdAt, rs));
      && scan.Ok? && scan.value.id == id && scan.value.records == rs[..Visible(rs)]
      && (!scan.value.damaged <==> forall r | r in rs :: Readable(r))
      && (!scan.value.damaged ==>
            scan.value.bytes == |SealedBytes(h, id, createdAt, rs)| && scan.value.digest == h.sha(Frames(h, rs)))
  {
    var stream, room := Stream(h, rs), |Frames(h, rs)|;
    SealedSplits(h, id, createdAt, rs);
    HeaderParts(id, createdAt, stream);
    ScanCut(h, rs, |stream|);
    TakeAll(stream);
    TakeAll(rs);
    WholeWhenRoomy(h, rs, |stream|);
    VisibleAll(rs);
    assert stream[..room] == Frames(h, rs);
  }

  /** A record whose payload is within the last 17 bytes of the budget is written, sealed,
      and never seen again: the scan counts its own segment as damaged. */
  lemma OversizeRecordIsLost(h: Hashes, id: nat, createdAt: I64, r: Record)
    requires id <= U64_MAX && |r.payload| == MAX_RECORD_BYTES - RECORD_HEADER_BYTES + 1
    ensures Writable(r)
    ensures var scan := ScanResult(h, SealedBytes(h, id, createdAt, [r]));
      scan.Ok? && scan.value.records == [] && scan.value.damaged
  {
    assert !Readable(r);
    RoundTrip(h, id, createdAt, [r]);
    assert r in [r];
  }

  lemma WholeWhenRoomy(h: Hashes, rs: seq<Record>, room: nat)
    requires room >= |Frames(h, rs)|
    ensures Whole(h, rs, room) == |rs|
  {
  }

  /** Cutting a sealed segment anywhere past its header leaves exactly the whole frames
      before the cut, and the scan reports damage exactly when something was cut. */
  lemma TornTail(h: Hashes, id: nat, createdAt: I64, rs: seq<Record>, cut: nat)
    requires id <= U64_MAX && |rs| <= U64_MAX && forall r | r in rs :: Readable(r)
    requires cut <= |Stream(h, rs)|
    ensures var scan := ScanResult(h, SealedBytes(h, id, createdAt, rs)[..HEADER_BYTES + cut]);
      && scan.Ok? && scan.value.records == rs[..Whole(h, rs, cut)]
      && (scan.value.damaged <==> cut < |Stream(h, rs)|)
  {
    var stream := Stream(h, rs);
    SealedSplits(h, id, createdAt, rs);
    assert (Header(id, createdAt) + stream)[..HEADER_BYTES + cut] == Header(id, createdAt) + stream[..cut];
    HeaderParts(id, createdAt, stream[..cut]);
    ScanCut(h, rs, cut);
    VisibleAll(rs);
    if cut == |stream| {
      WholeWhenRoomy(h, rs, cut);
    }
  }

  // ---- re-encoding arbitrary bytes -----------------------------------------

  lemma UnsignedSigned(word: U64)
    ensures AsUnsigned(AsSigned(word)) == word
  {
  }

  lemma BodySplits(body: seq<Byte>)
    requires |body| >= RECORD_HEADER_BYTES
    ensures body == [body[0]] + body[1..9] + body[9..17] + body[17..]
  {
  }

  lemma InsideReencodes(h: Hashes, body: seq<Byte>, crc: nat, next: nat)
    requires LookInside(h, body, crc, next).Read?
    ensures Body(LookInside(h, body, crc, next).record) == body && h.crc(body) == crc
  {
    var r := LookInside(h, body, crc, next).record;
    assert CodeOf(r.kind) == body[0];
    PutGet(body[1..9]);
    PutGet(body[9..17]);
    WordSizes();
    GetBound(body[9..17]);
    UnsignedSigned(Get(body[9..17]));
    BodySplits(body);
  }

  /** A record read from arbitrary bytes re-encodes to the bytes it was read from. */
  lemma ReadReencodes(h: Hashes, stream: seq<Byte>, pos: nat, count: nat)
    requires Look(h, stream, pos, count).Read?
    ensures var step := Look(h, stream, pos, count);
      stream[pos..step.next] == Frame(h, step.record) && Readable(step.record)
  {
    var next := Look(h, stream, pos, count).next;
    var body, crc := stream[pos + 8..next], Get(stream[pos + 4..pos + 8]);
    InsideReencodes(h, body, crc, next);
    PutGet(stream[pos..pos + 4]);
    PutGet(stream[pos + 4..pos + 8]);
    assert stream[pos..next] == stream[pos..pos + 4] + stream[pos + 4..pos + 8] + body;
  }

  ghost predicate Reencodes(look: (nat, nat) -> Step, stream: seq<Byte>, frame: Record -> seq<Byte>) {
    forall pos: nat, count: nat {:trigger look(pos, count)} | look(pos, count).Read? ::
      && pos < look(pos, count).next <= |stream|
      && stream[pos..look(pos, count).next] == frame(look(pos, count).record)
  }

  lemma {:induction false} ScanReencodes(
    look: (nat, nat) -> Step, stream: seq<Byte>, frame: Record -> seq<Byte>, pos: nat, count: nat)
    requires pos <= |stream| && Advances(look, |stream|) && Reencodes(look, stream, frame)
    ensures var s := ScanFrom(look, |stream|, pos, count);
      stream[pos..s.end] == Concat(s.records, frame)
    decreases |stream| - pos
  {
    var step := look(pos, count);
    if step.Read? {
      var rest := ScanFrom(look, |stream|, step.next, count + 1);
      ScanReencodes(look, stream, frame, step.next, count + 1);
      assert ([step.record] + rest.records)[1..] == rest.records;
      Join(stream, pos, step.next, rest.end);
    }
  }

  lemma Join(stream: seq<Byte>, a: nat, b: nat, c: nat)
    requires a <= b <= c <= |stream|
    ensures stream[a..c] == stream[a..b] + stream[b..c]
  {
  }

  lemma LookReencodes(h: Hashes, stream: seq<Byte>)
    ensures Reencodes(Looker(h, stream), stream, Framer(h))
  {
    var look := Looker(h, stream);
    forall pos: nat, count: nat | look(pos, count).Read?
      ensures stream[pos..look(pos, count).next] == Framer(h)(look(pos, count).record)
    {
      ReadReencodes(h, stream, pos, count);
    }
  }

  ghost predicate SealsFit(look: (nat, nat) -> Step, size: nat) {
    forall pos: nat, count: nat {:trigger look(pos, count)} | look(pos, count).Sealed? :: pos + FOOTER_BYTES <= size
  }

  lemma LookSealedFits(h: Hashes, stream: seq<Byte>)
    ensures SealsFit(Looker(h, stream), |stream|)
  {
  }

  lemma {:induction false} SealedFits(
    look: (nat, nat) -> Step, size: nat, pos: nat, count: nat)
    requires pos <= size && Advances(look, size)
    requires SealsFit(look, size)
    ensures var s := ScanFrom(look, size, pos, count); s.sealed ==> s.end + FOOTER_BYTES <= size
    decreases size - pos
  {
    var step := look(pos, count);
    if step.Read? {
      SealedFits(look, size, step.next, count + 1);
    }
  }

  /** Whatever the bytes are, encoding the recovered records again gives back exactly the
      bytes counted as valid, and the rest of a damaged file is its discarded tail. */
  lemma Reencoding(h: Hashes, file: seq<Byte>)
    requires ScanResult(h, file).Ok?
    ensures var scan := ScanResult(h, file).value;
      && (scan.damaged ==> file[HEADER_BYTES..scan.bytes] == Frames(h, scan.records)
                           && scan.bytes + scan.tail == |file|)
      && (!scan.damaged ==> HEADER_BYTES + FOOTER_BYTES <= scan.bytes <= |file| && scan.tail == 0
                            && file[HEADER_BYTES..scan.bytes - FOOTER_BYTES] == Frames(h, scan.records))
  {
    var stream := file[HEADER_BYTES..];
    var look, s := Looker(h, stream), ScanStream(h, stream);
    LookReencodes(h, stream);
    ScanReencodes(look, stream, Framer(h), 0, 0);
    LookSealedFits(h, stream);
    SealedFits(look, |stream|, 0, 0);
    assert stream[0..s.end] == file[HEADER_BYTES..HEADER_BYTES + s.end];
  }

  /** Every record a scan visits is within its budget, so it can be written and read again. */
  lemma {:induction false} ScanReadable(look: (nat, nat) -> Step, size: nat, pos: nat, count: nat)
    requires pos <= size && Advances(look, size)
    requires forall p: nat, c: nat {:trigger look(p, c)} | look(p, c).Read? :: Readable(look(p, c).record)
    ensures forall r | r in ScanFrom(look, size, pos, count).records :: Readable(r)
    decreases size - pos
  {
    if look(pos, count).Read? {
      ScanReadable(look, size, look(pos, count).next, count + 1);
    }
  }

  lemma ScannedReadable(h: Hashes, file: seq<Byte>)
    requires ScanResult(h, file).Ok?
    ensures forall r | r in ScanResult(h, file).value.records :: Readable(r)
  {
    var stream := file[HEADER_BYTES..];
    ScanReadable(Looker(h, stream), |stream|, 0, 0);
  }
}
