/** Where the bytes of a segment are, and that the scanner accepts exactly those. */
module SegmentLayout {

  import opened Common
  import opened Folds
  import opened Bytes
  import opened Segment
  import opened SegmentTheorems

  /** The n bytes at p are the number's, least significant first. */
  ghost predicate Holds(s: seq<Byte>, p: nat, n: nat, v: nat) {
    p + n <= |s| && forall i | 0 <= i < n :: s[p + i] == v / Pow256(i) % 256
  }

  /** The chars of a text, one byte each. */
  function Ascii(text: string): seq<int> {
    seq(|text|, i requires 0 <= i < |text| => text[i] as int)
  }

  lemma PutHolds(before: seq<Byte>, v: nat, n: nat, after: seq<Byte>, s: seq<Byte>)
    requires s == before + Put(v, n) + after
    ensures Holds(s, |before|, n, v)
  {
    forall i | 0 <= i < n ensures s[|before| + i] == v / Pow256(i) % 256 {
      PutAt(v, n, i);
    }
  }

  lemma Unsigned(x: I64)
    ensures AsUnsigned(x) == x % 0x1_0000_0000_0000_0000
  {
  }

  /** A segment starts with FELSEG01, the format version, its id, when it was made, and zeros. */
  lemma HeaderAt(id: nat, createdAt: I64)
    ensures var s := Header(id, createdAt);
      && |s| == 32 && s[..8] == Ascii("FELSEG01") && Holds(s, 8, 4, 1) && Holds(s, 12, 8, id)
      && Holds(s, 20, 8, createdAt % 0x1_0000_0000_0000_0000) && Holds(s, 28, 4, 0)
  {
    var s, version, name, at, rest := Header(id, createdAt), Put(1, 4), Put(id, 8), Put(AsUnsigned(createdAt), 8), Put(0, 4);
    Unsigned(createdAt);
    assert s == SEGMENT_MAGIC + version + (name + at + rest);
    assert s == (SEGMENT_MAGIC + version) + name + (at + rest);
    assert s == (SEGMENT_MAGIC + version + name) + at + rest;
    assert s == (SEGMENT_MAGIC + version + name + at) + rest + [];
    PutHolds(SEGMENT_MAGIC, 1, 4, name + at + rest, s);
    PutHolds(SEGMENT_MAGIC + version, id, 8, at + rest, s);
    PutHolds(SEGMENT_MAGIC + version + name, AsUnsigned(createdAt), 8, rest, s);
    PutHolds(SEGMENT_MAGIC + version + name + at, 0, 4, [], s);
  }

  /** The codes of the kinds of records, from 1. */
  const KINDS: seq<RecordKind> :=
    [PolicySnapshot, TopologySnapshot, ObservationRecord, PeriodOpened, PeriodClosed, CorrectionRecord, CompactionRecord, Watermark]

  /** A record is its kind, its number, when it was written, and its payload. */
  lemma BodyAt(r: Record)
    ensures var s := Body(r);
      && |s| == 17 + |r.payload| && 1 <= s[0] <= |KINDS| && KINDS[s[0] - 1] == r.kind
      && Holds(s, 1, 8, r.ordinal) && Holds(s, 9, 8, r.writtenAt % 0x1_0000_0000_0000_0000) && s[17..] == r.payload
  {
    var s, code, number, at := Body(r), [CodeOf(r.kind)], Put(r.ordinal, 8), Put(AsUnsigned(r.writtenAt), 8);
    Unsigned(r.writtenAt);
    assert s == code + number + (at + r.payload);
    assert s == (code + number) + at + r.payload;
    PutHolds(code, r.ordinal, 8, at + r.payload, s);
    PutHolds(code + number, AsUnsigned(r.writtenAt), 8, r.payload, s);
  }

  /** A frame is the length of the record, its checksum, and the record. */
  lemma FrameAt(h: Hashes, r: Record)
    ensures var s := Frame(h, r);
      |s| == 8 + |Body(r)| && Holds(s, 0, 4, |Body(r)|) && Holds(s, 4, 4, h.crc(Body(r))) && s[8..] == Body(r)
  {
    var s, size, crc := Frame(h, r), Put(|Body(r)|, 4), Put(h.crc(Body(r)), 4);
    assert s == [] + size + (crc + Body(r));
    assert s == size + crc + Body(r);
    PutHolds([], |Body(r)|, 4, crc + Body(r), s);
    PutHolds(size, h.crc(Body(r)), 4, Body(r), s);
  }

  /** A footer is FELFOOT1, how many records there are, the digest of the frames before it,
      and the checksum of those. */
  lemma FooterAt(h: Hashes, records: nat, content: seq<Byte>)
    ensures var s := Footer(h, records, content);
      && |s| == 52 && s[..8] == Ascii("FELFOOT1") && Holds(s, 8, 8, records) && s[16..48] == h.sha(content)
      && Holds(s, 48, 4, h.crc(s[..48]))
  {
    var s, start, count := Footer(h, records, content), FooterStart(h, records, content), Put(records, 8);
    var crc := Put(h.crc(start), 4);
    assert start == FOOTER_MAGIC + count + h.sha(content) && s == start + crc;
    assert s == FOOTER_MAGIC + count + (h.sha(content) + crc);
    assert s == start + crc + [];
    assert s[..48] == start;
    PutHolds(FOOTER_MAGIC, records, 8, h.sha(content) + crc, s);
    PutHolds(start, h.crc(start), 4, [], s);
  }

  // ---- what the scanner makes of them --------------------------------------

  /** The part is what the stream has at p. */
  ghost predicate Sits(stream: seq<Byte>, p: nat, part: seq<Byte>) {
    p + |part| <= |stream| && stream[p..p + |part|] == part
  }

  /** A record is read exactly where its frame sits, when it is within the scanner's budget. */
  lemma ReadExactly(h: Hashes, stream: seq<Byte>, pos: nat, count: nat, r: Record, next: nat)
    ensures Look(h, stream, pos, count) == Read(r, next) <==>
      Sits(stream, pos, Frame(h, r)) && next == pos + |Frame(h, r)| && 17 + |r.payload| <= 0x10_0000
  {
    if Look(h, stream, pos, count) == Read(r, next) {
      ReadReencodes(h, stream, pos, count);
    }
    if Sits(stream, pos, Frame(h, r)) && 17 + |r.payload| <= 0x10_0000 {
      LookAtFrame(h, stream, pos, count, r);
    }
  }

  lemma FooterParts(h: Hashes, records: nat, content: seq<Byte>, s: seq<Byte>)
    requires |s| == 52 && s[..8] == FOOTER_MAGIC && s[16..48] == h.sha(content)
    requires Get(s[8..16]) == records && Get(s[48..]) == h.crc(s[..48])
    ensures s == Footer(h, records, content)
  {
    PutGet(s[8..16]);
    PutGet(s[48..]);
    assert s[..48] == s[..8] + s[8..16] + s[16..48];
    assert s == s[..48] + s[48..];
  }

  /** A segment counts as sealed exactly where the footer sits that the writer would put after
      what was read. */
  lemma SealedExactly(h: Hashes, stream: seq<Byte>, pos: nat, count: nat)
    requires count < 0x1_0000_0000_0000_0000
    ensures Look(h, stream, pos, count) == Sealed <==> pos <= |stream| && Sits(stream, pos, Footer(h, count, stream[..pos]))
  {
    if Look(h, stream, pos, count) == Sealed {
      var s := stream[pos..pos + 52];
      assert s[..8] == stream[pos..pos + 8];
      FooterParts(h, count, stream[..pos], s);
    }
    if pos <= |stream| && Sits(stream, pos, Footer(h, count, stream[..pos])) {
      WordSizes();
      LookAtFooter(h, stream, pos, count);
    }
  }
}
