/** The byte format of a store segment and the scan that recovers its records. */
module Segment {

  import opened Arith
  import opened Common
  import opened Folds
  import opened Bytes

  // ---- records and hashes --------------------------------------------------

  datatype RecordKind =
    | PolicySnapshot | TopologySnapshot | ObservationRecord | PeriodOpened
    | PeriodClosed | CorrectionRecord | CompactionRecord | Watermark

  function CodeOf(kind: RecordKind): (code: Byte)
    ensures 1 <= code <= 8
  {
    match kind
    case PolicySnapshot => 1
    case TopologySnapshot => 2
    case ObservationRecord => 3
    case PeriodOpened => 4
    case PeriodClosed => 5
    case CorrectionRecord => 6
    case CompactionRecord => 7
    case Watermark => 8
  }

  function KindOf(code: Byte): Option<RecordKind> {
    match code
    case 1 => Some(PolicySnapshot)
    case 2 => Some(TopologySnapshot)
    case 3 => Some(ObservationRecord)
    case 4 => Some(PeriodOpened)
    case 5 => Some(PeriodClosed)
    case 6 => Some(CorrectionRecord)
    case 7 => Some(CompactionRecord)
    case 8 => Some(Watermark)
    case _ => None
  }

  datatype Record = Record(kind: RecordKind, ordinal: U64, writtenAt: I64, payload: seq<Byte>)

  type U32 = x: int | 0 <= x < 0x1_0000_0000

  type Digest = s: seq<Byte> | |s| == 32 witness Put(0, 32)

  const NO_DIGEST: Digest := Put(0, 32)

  /** The two checksums, left uninterpreted: nothing below depends on which they are. */
  datatype Hashes = Hashes(crc: seq<Byte> -> U32, sha: seq<Byte> -> Digest)

  // ---- writing -------------------------------------------------------------

  const MAX_RECORD_BYTES: nat := 0x10_0000
  const HEADER_BYTES: nat := 32
  const FRAME_HEADER_BYTES: nat := 8
  const FOOTER_BYTES: nat := 52
  const RECORD_HEADER_BYTES: nat := 17
  const FORMAT_VERSION: nat := 1

  /** "FELSEG01" */
  const SEGMENT_MAGIC: seq<Byte> := [0x46, 0x45, 0x4C, 0x53, 0x45, 0x47, 0x30, 0x31]
  /** "FELFOOT1" */
  const FOOTER_MAGIC: seq<Byte> := [0x46, 0x45, 0x4C, 0x46, 0x4F, 0x4F, 0x54, 0x31]

  function Header(id: nat, createdAt: I64): (s: seq<Byte>)
    ensures |s| == HEADER_BYTES
  {
    SEGMENT_MAGIC + Put(FORMAT_VERSION, 4) + Put(id, 8) + Put(AsUnsigned(createdAt), 8) + Put(0, 4)
  }

  function Body(r: Record): (s: seq<Byte>)
    ensures |s| == RECORD_HEADER_BYTES + |r.payload|
  {
    [CodeOf(r.kind)] + Put(r.ordinal, 8) + Put(AsUnsigned(r.writtenAt), 8) + r.payload
  }

  function FrameHeader(h: Hashes, body: seq<Byte>): (s: seq<Byte>)
    ensures |s| == FRAME_HEADER_BYTES
  {
    Put(|body|, 4) + Put(h.crc(body), 4)
  }

  function Frame(h: Hashes, r: Record): (s: seq<Byte>)
    ensures |s| == FRAME_HEADER_BYTES + RECORD_HEADER_BYTES + |r.payload|
  {
    FrameHeader(h, Body(r)) + Body(r)
  }

  function Framer(h: Hashes): (Record -> seq<Byte>) {
    (r: Record) => Frame(h, r)
  }

  function Frames(h: Hashes, rs: seq<Record>): seq<Byte> {
    Concat(rs, Framer(h))
  }

  function FooterStart(h: Hashes, records: nat, content: seq<Byte>): (s: seq<Byte>)
    ensures |s| == 48
  {
    FOOTER_MAGIC + Put(records, 8) + h.sha(content)
  }

  function Footer(h: Hashes, records: nat, content: seq<Byte>): (s: seq<Byte>)
    ensures |s| == FOOTER_BYTES
  {
    FooterStart(h, records, content) + Put(h.crc(FooterStart(h, records, content)), 4)
  }

  /** The bytes of a segment before and after it is sealed. */
  function OpenBytes(h: Hashes, id: nat, createdAt: I64, rs: seq<Record>): seq<Byte> {
    Header(id, createdAt) + Frames(h, rs)
  }

  function SealedBytes(h: Hashes, id: nat, createdAt: I64, rs: seq<Record>): seq<Byte> {
    OpenBytes(h, id, createdAt, rs) + Footer(h, |rs|, Frames(h, rs))
  }

  // ---- reading -------------------------------------------------------------

  datatype Step = Damaged | Sealed | Read(record: Record, next: nat)

  /** The footer at pos is whole and agrees with the frames before it. */
  predicate FooterHolds(h: Hashes, stream: seq<Byte>, pos: nat, count: nat) {
    && pos + FOOTER_BYTES <= |stream|
    && var footer := stream[pos..pos + FOOTER_BYTES];
       && h.crc(footer[..48]) == Get(footer[48..])
       && h.sha(stream[..pos]) == footer[16..48]
       && Get(footer[8..16]) == count
  }

  /** What the scan makes of a frame whose checksum it has read. */
  function LookInside(h: Hashes, body: seq<Byte>, crc: nat, next: nat): (step: Step)
    ensures step.Read? ==> step.next == next
  {
    if h.crc(body) != crc || |body| < RECORD_HEADER_BYTES || KindOf(body[0]).None? then Damaged
    else
      WordSizes();
      GetBound(body[1..9]);
      GetBound(body[9..17]);
      Read(Record(KindOf(body[0]).value, Get(body[1..9]), AsSigned(Get(body[9..17])), body[17..]), next)
  }

  /** What the scan makes of the bytes at pos of the stream that follows the segment
      header, after count records. */
  function Look(h: Hashes, stream: seq<Byte>, pos: nat, count: nat): (step: Step)
    ensures step.Read? ==> pos < step.next <= |stream|
  {
    if pos + FRAME_HEADER_BYTES > |stream| then Damaged
    else if stream[pos..pos + FRAME_HEADER_BYTES] == FOOTER_MAGIC then
      if FooterHolds(h, stream, pos, count) then Sealed else Damaged
    else
      var length, crc := Get(stream[pos..pos + 4]), Get(stream[pos + 4..pos + 8]);
      var next := pos + FRAME_HEADER_BYTES + length;
      if length > MAX_RECORD_BYTES || next > |stream| then Damaged
      else LookInside(h, stream[pos + FRAME_HEADER_BYTES..next], crc, next)
  }

  function Looker(h: Hashes, stream: seq<Byte>): (look: (nat, nat) -> Step)
    ensures Advances(look, |stream|)
  {
    (pos: nat, count: nat) => Look(h, stream, pos, count)
  }

  ghost predicate Advances(look: (nat, nat) -> Step, size: nat) {
    forall pos: nat, count: nat {:trigger look(pos, count)} ::
      look(pos, count).Read? ==> pos < look(pos, count).next <= size
  }

  /** The records recovered from pos on, where the whole frames end, and whether the
      segment is sealed there. */
  datatype Recovered = Recovered(records: seq<Record>, end: nat, sealed: bool)

  ghost function ScanFrom(look: (nat, nat) -> Step, size: nat, pos: nat, count: nat): (s: Recovered)
    requires pos <= size && Advances(look, size)
    ensures pos <= s.end <= size
    decreases size - pos
  {
    match look(pos, count)
    case Damaged => Recovered([], pos, false)
    case Sealed => Recovered([], pos, true)
    case Read(r, next) =>
      var rest := ScanFrom(look, size, next, count + 1);
      rest.(records := [r] + rest.records)
  }

  ghost function ScanStream(h: Hashes, stream: seq<Byte>): Recovered {
    ScanFrom(Looker(h, stream), |stream|, 0, 0)
  }

  predicate HeaderHolds(file: seq<Byte>) {
    |file| >= HEADER_BYTES && file[..8] == SEGMENT_MAGIC
  }

  datatype Scan = Scan(
    id: nat, records: seq<Record>, bytes: nat, tail: nat, digest: Digest, damaged: bool)

  ghost function ScanResult(h: Hashes, file: seq<Byte>): Result<Scan, ErrorCode> {
    if !HeaderHolds(file) then Err(SegmentCorrupt)
    else if Get(file[8..12]) != FORMAT_VERSION then Err(StoreFormatMismatch)
    else
      var stream := file[HEADER_BYTES..];
      var s := ScanStream(h, stream);
      var bytes := HEADER_BYTES + if s.sealed then s.end + FOOTER_BYTES else s.end;
      Ok(Scan(Get(file[12..20]), s.records, bytes,
              if s.sealed || |file| <= bytes then 0 else |file| - bytes,
              if s.sealed then h.sha(stream[..s.end]) else NO_DIGEST,
              !s.sealed))
  }

  /** The read loop: a position and the records visited so far. */
  method ReadRecords(look: (nat, nat) -> Step, size: nat) returns (s: Recovered)
    requires Advances(look, size)
    ensures s == ScanFrom(look, size, 0, 0)
  {
    var pos, records, reading := 0, [], true;
    s := Recovered([], 0, false);
    while reading
      invariant pos <= size
      invariant reading ==>
        var rest := ScanFrom(look, size, pos, |records|);
        ScanFrom(look, size, 0, 0) == rest.(records := records + rest.records)
      invariant !reading ==> ScanFrom(look, size, 0, 0) == s
      decreases reading, size - pos
    {
      match look(pos, |records|)
      case Damaged =>
        s, reading := Recovered(records, pos, false), false;
        assert records + [] == records;
      case Sealed =>
        s, reading := Recovered(records, pos, true), false;
        assert records + [] == records;
      case Read(record, next) =>
        Associative(records, [record], ScanFrom(look, size, next, |records| + 1).records);
        pos, records := next, records + [record];
    }
  }

  method ScanSegment(h: Hashes, file: seq<Byte>) returns (r: Result<Scan, ErrorCode>)
    ensures r == ScanResult(h, file)
  {
    if |file| < HEADER_BYTES || file[..8] != SEGMENT_MAGIC {
      return Err(SegmentCorrupt);
    }
    if Get(file[8..12]) != FORMAT_VERSION {
      return Err(StoreFormatMismatch);
    }
    var stream := file[HEADER_BYTES..];
    var s := ReadRecords(Looker(h, stream), |stream|);
    var bytes := HEADER_BYTES + if s.sealed then s.end + FOOTER_BYTES else s.end;
    var tail := if s.sealed || |file| <= bytes then 0 else |file| - bytes;
    return Ok(Scan(Get(file[12..20]), s.records, bytes, tail,
                   if s.sealed then h.sha(stream[..s.end]) else NO_DIGEST, !s.sealed));
  }
}
