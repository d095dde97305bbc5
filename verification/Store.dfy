/** The append-only record store over a directory. */
module Store {

  import opened Common
  import opened Arith
  import opened Folds
  import opened Bytes
  import opened Segment
  import opened SegmentTheorems
  import opened Volume
  import opened Session
  import opened Placement
  import opened Ordering

  datatype RecoveryPolicy = Conservative | Strict

  datatype StoreConfig = StoreConfig(
    recovery: RecoveryPolicy, maxBytes: nat, maxSegmentBytes: nat, maxSegments: nat, exclusive: bool)

  const MAX_FRAME_BYTES: nat := FRAME_HEADER_BYTES + RECORD_HEADER_BYTES + MAX_RECORD_BYTES

  /** What a segment takes beside its frames. */
  const SEAL_BYTES: nat := HEADER_BYTES + FOOTER_BYTES

  function BatchBytes(es: seq<Entry>): nat {
    if es == [] then 0 else BatchBytes(es[..|es| - 1]) + FrameBytes(es[|es| - 1])
  }

  function TotalRecords(infos: seq<SegmentInfo>): nat {
    if infos == [] then 0 else TotalRecords(infos[..|infos| - 1]) + infos[|infos| - 1].records
  }

  function TotalBytes(infos: seq<SegmentInfo>): nat {
    if infos == [] then 0 else TotalBytes(infos[..|infos| - 1]) + infos[|infos| - 1].bytes
  }

  // ---- sizes ---------------------------------------------------------------

  lemma {:induction false} TotalsAppend(a: seq<SegmentInfo>, b: seq<SegmentInfo>)
    ensures TotalBytes(a + b) == TotalBytes(a) + TotalBytes(b) && TotalRecords(a + b) == TotalRecords(a) + TotalRecords(b)
  {
    if b == [] {
      assert a + b == a;
    } else {
      TotalsAppend(a, b[..|b| - 1]);
      assert (a + b)[..|a + b| - 1] == a + b[..|b| - 1];
    }
  }

  lemma {:induction false} SameBytes(a: seq<SegmentInfo>, b: seq<SegmentInfo>)
    requires |a| == |b| && forall i | 0 <= i < |a| :: a[i].bytes == b[i].bytes
    ensures TotalBytes(a) == TotalBytes(b)
  {
    if a != [] {
      SameBytes(a[..|a| - 1], b[..|b| - 1]);
    }
  }

  lemma {:induction false} BatchBytesAppend(a: seq<Entry>, b: seq<Entry>)
    ensures BatchBytes(a + b) == BatchBytes(a) + BatchBytes(b)
  {
    if b == [] {
      assert a + b == a;
    } else {
      BatchBytesAppend(a, b[..|b| - 1]);
      assert (a + b)[..|a + b| - 1] == a + b[..|b| - 1];
    }
  }

  lemma {:induction false} FramesSize(h: Hashes, rs: seq<Record>)
    ensures |Frames(h, rs)| == BatchBytes(Entries(rs))
  {
    if rs != [] {
      var n := |rs| - 1;
      FramesSize(h, rs[..n]);
      SplitLast(rs);
      ConcatSnoc(rs[..n], rs[n], Framer(h));
      EntriesAppend(rs[..n], [rs[n]]);
      assert Entries(rs)[..n] == Entries(rs[..n]);
    }
  }

  lemma {:induction false} SealedTotals(h: Hashes, ws: seq<Written>)
    ensures TotalBytes(SealedInfos(h, ws)) == SEAL_BYTES * |ws| + BatchBytes(Entries(All(ws)))
    ensures TotalRecords(SealedInfos(h, ws)) == |All(ws)|
  {
    if ws != [] {
      var n := |ws| - 1;
      SealedTotals(h, ws[..n]);
      SplitLast(ws);
      ConcatSnoc(ws[..n], ws[n], RecordsOf);
      FramesSize(h, ws[n].records);
      EntriesAppend(All(ws[..n]), ws[n].records);
      BatchBytesAppend(Entries(All(ws[..n])), Entries(ws[n].records));
      assert SealedInfos(h, ws)[..n] == SealedInfos(h, ws[..n]);
    }
  }

  /** What the records written in new segments add: their frames, and a header and a footer for
      each segment. Brought in only where Unfold is mentioned. */
  ghost predicate Grows(before: seq<SegmentInfo>, after: seq<SegmentInfo>, es: seq<Entry>) {
    forall b {:trigger Unfold(b)} :: Unfold(b) ==>
      && |before| <= |after|
      && TotalBytes(after) == TotalBytes(before) + SEAL_BYTES * (|after| - |before|) + BatchBytes(es)
      && TotalRecords(after) == TotalRecords(before) + |es|
  }

  lemma SessionGrows(h: Hashes, kept: seq<SegmentInfo>, ws: seq<Written>, now: seq<SegmentInfo>, es: seq<Entry>)
    requires now == kept + SealedInfos(h, ws) && es == Entries(All(ws))
    ensures Grows(kept, now, es)
  {
    TotalsAppend(kept, SealedInfos(h, ws));
    SealedTotals(h, ws);
  }

  /** The manifest keeps times as text in whole milliseconds; one that does not fit is lost. */
  function SavedTime(t: I64): I64 {
    var floor := (t / 1_000_000) * 1_000_000;
    if FitsI64(floor) then floor else 0
  }

  /** The latest of the writes at times so far; zero stands for none. */
  function Later(mark: I64, at: I64): (latest: I64)
    ensures latest == mark || latest == at
    ensures at <= latest && if mark == 0 then latest == at else mark <= latest
  {
    if mark == 0 || at > mark then at else mark
  }

  function First(mark: I64, at: I64): (first: I64)
    ensures mark != 0 ==> first == mark
    ensures mark == 0 ==> first == at
  {
    if mark == 0 then at else mark
  }

  /** The damage flag is not written to the manifest. */
  function Saved(info: SegmentInfo): SegmentInfo {
    info.(damaged := false)
  }

  function SavedInfos(infos: seq<SegmentInfo>): (saved: seq<SegmentInfo>)
    ensures |saved| == |infos|
    ensures forall i | 0 <= i < |infos| :: saved[i] == Saved(infos[i])
  {
    Mapped(infos, Saved)
  }

  lemma SavedNames(infos: seq<SegmentInfo>)
    ensures Names(SavedInfos(infos)) == Names(infos)
  {
  }

  lemma SavedSound(scan: Reading, files: map<string, File>, infos: seq<SegmentInfo>, clean: bool)
    requires Sound(scan, files, infos, clean)
    ensures Sound(scan, files, SavedInfos(infos), clean)
  {
    forall i | 0 <= i < |infos|
      ensures Stored(scan, files, Saved(infos[i])) && (clean ==> Agrees(scan, files, Saved(infos[i])))
    {
      assert Stored(scan, files, infos[i]);
    }
  }

  lemma AgreeingBytes(scan: Reading, files: map<string, File>, a: seq<SegmentInfo>, b: seq<SegmentInfo>)
    requires Names(a) == Names(b) && Sound(scan, files, a, true) && Sound(scan, files, b, true)
    ensures TotalBytes(a) == TotalBytes(b)
  {
    assert |Names(a)| == |Names(b)|;
    forall i | 0 <= i < |a| ensures a[i].bytes == b[i].bytes {
      assert Names(a)[i] == Names(b)[i];
      assert Agrees(scan, files, a[i]) && Agrees(scan, files, b[i]);
    }
    SameBytes(a, b);
  }

  method BatchSize(batch: seq<Entry>) returns (r: Result<U64, ErrorCode>)
    ensures r.Ok? <==> AllWritable(batch) && BatchBytes(batch) <= U64_MAX
    ensures r.Ok? ==> r.value == BatchBytes(batch)
    ensures r.Err? ==> r.error == PayloadTooLarge || r.error == ArithmeticOverflow
    ensures r == Err(PayloadTooLarge) ==> !AllWritable(batch)
    ensures r == Err(ArithmeticOverflow) ==> BatchBytes(batch) > U64_MAX
  {
    var incoming: U64 := 0;
    for i := 0 to |batch|
      invariant AllWritable(batch[..i])
      invariant incoming == BatchBytes(batch[..i])
    {
      TakeSucc(batch, i);
      assert batch[..i + 1][..i] == batch[..i];
      BatchBytesPrefix(batch, i + 1);
      if |batch[i].payload| > MAX_RECORD_BYTES {
        assert !EntryWritable(batch[i]);
        return Err(PayloadTooLarge);
      }
      var total := AddChecked(incoming, FrameBytes(batch[i]));
      if total.None? {
        return Err(ArithmeticOverflow);
      }
      incoming := total.value;
    }
    TakeAll(batch);
    return Ok(incoming);
  }

  lemma {:induction false} BatchBytesPrefix(batch: seq<Entry>, i: nat)
    requires i <= |batch|
    ensures BatchBytes(batch[..i]) <= BatchBytes(batch)
    decreases |batch| - i
  {
    if i == |batch| {
      TakeAll(batch);
    } else {
      BatchBytesPrefix(batch, i + 1);
      assert batch[..i + 1][..i] == batch[..i];
    }
  }

  /** What the open segment's running fields say about it. */
  ghost predicate Tracks(
    h: Hashes, w: Written, id: nat, bytes: nat, records: nat, hashed: seq<Byte>, maxSegmentBytes: nat)
  {
    && id == w.id && bytes == |OpenBytes(h, w.id, w.createdAt, w.records)|
    && records == |w.records| && hashed == Frames(h, w.records)
    && (bytes <= maxSegmentBytes || bytes <= HEADER_BYTES + MAX_FRAME_BYTES)
  }

  lemma TracksFresh(h: Hashes, id: nat, createdAt: I64, maxSegmentBytes: nat)
    ensures Tracks(h, Written(id, createdAt, []), id, HEADER_BYTES, 0, [], maxSegmentBytes)
  {
  }

  lemma TracksExtended(
    h: Hashes, w: Written, r: Record, id: nat, bytes: nat, records: nat, hashed: seq<Byte>, maxSegmentBytes: nat)
    requires Tracks(h, w, id, bytes, records, hashed, maxSegmentBytes) && Writable(r)
    requires bytes == HEADER_BYTES || bytes + |Frame(h, r)| <= maxSegmentBytes
    ensures Tracks(h, Extended(w, r), id, bytes + |Frame(h, r)|, records + 1, hashed + Frame(h, r), maxSegmentBytes)
    ensures OpenInfo(h, Extended(w, r)) == OpenInfo(h, w).(records := records + 1, bytes := bytes + |Frame(h, r)|)
  {
    FrameAppended(h, w, r);
  }

  /** The frame goes out in two writes, header first. */
  method AppendRecord(h: Hashes, disk: Disk, id: nat, r: Record, ghost p: Progress, ghost w: Written)
    returns (frame: seq<Byte>)
    requires Consistent(h, p, disk.image, disk.history) && p.current == Some(w) && id == w.id
    modifies disk
    ensures frame == Frame(h, r)
    ensures Consistent(h, p.(current := Some(Extended(w, r))), disk.image, disk.history)
  {
    FramedConsistent(h, p, disk.image, disk.history, w, r);
    var body := Body(r);
    var header := FrameHeader(h, body);
    AppendBoth(disk, id, header, body);
    frame := header + body;
  }

  lemma {:induction false} FilteredAppend(a: seq<Record>, b: seq<Record>, keep: Record -> bool)
    ensures Filtered(a + b, keep) == Filtered(a, keep) + Filtered(b, keep)
  {
    if b == [] {
      assert a + b == a;
    } else {
      FilteredAppend(a, b[..|b| - 1], keep);
      assert (a + b)[..|a + b| - 1] == a + b[..|b| - 1];
    }
  }

  lemma {:induction false} FilteredReadable(rs: seq<Record>, keep: Record -> bool)
    requires ReadableAll(rs)
    ensures ReadableAll(Filtered(rs, keep))
  {
    if rs != [] {
      FilteredReadable(rs[..|rs| - 1], keep);
    }
  }

  function Spelling(name: string): seq<int> {
    Mapped(name, (c: char) => c as int)
  }

  function IdRank(info: SegmentInfo): seq<int> {
    [info.id]
  }

  ghost predicate IsEntry(scan: Reading, files: map<string, File>, info: SegmentInfo) {
    && IsSegmentName(info.file) && Scannable(scan, files, info.file) && info == EntryFor(scan, files, info.file)
  }

  /** The list has one entry for each segment file that can be scanned, by ascending id. */
  ghost predicate Rebuilt(scan: Reading, files: map<string, File>, infos: seq<SegmentInfo>) {
    && Distinct(infos)
    && (forall i {:trigger infos[i]} | 0 <= i < |infos| :: IsEntry(scan, files, infos[i]))
    && (forall name | name in files && IsSegmentName(name) && Scannable(scan, files, name) :: EntryFor(scan, files, name) in infos)
    && (forall i, j {:trigger infos[i], infos[j]} | 0 <= i < j < |infos| :: infos[i].id <= infos[j].id)
  }

  lemma RebuiltPresent(scan: Reading, files: map<string, File>, infos: seq<SegmentInfo>)
    requires Rebuilt(scan, files, infos)
    ensures infos != [] ==> infos[0].file in files
  {
  }

  ghost function Collected(scan: Reading, files: map<string, File>, names: seq<string>): seq<SegmentInfo> {
    if names == [] then []
    else
      var n := |names| - 1;
      Collected(scan, files, names[..n])
      + if Scannable(scan, files, names[n]) then [EntryFor(scan, files, names[n])] else []
  }

  lemma {:induction false} CollectedEntries(scan: Reading, files: map<string, File>, names: seq<string>)
    requires Distinct(names) && forall name | name in names :: IsSegmentName(name)
    ensures var found := Collected(scan, files, names);
      && Distinct(found)
      && (forall info | info in found :: info.file in names && IsEntry(scan, files, info))
      && (forall name | name in names && Scannable(scan, files, name) :: EntryFor(scan, files, name) in found)
  {
    if names != [] {
      var n := |names| - 1;
      CollectedEntries(scan, files, names[..n]);
      SplitLast(names);
      assert names[n] !in names[..n];
    }
  }

  lemma RebuiltFrom(scan: Reading, files: map<string, File>, names: seq<string>, infos: seq<SegmentInfo>)
    requires forall name :: name in names <==> name in files && IsSegmentName(name)
    requires Distinct(infos) && SortedBy(infos, IdRank)
    requires forall info | info in infos :: IsEntry(scan, files, info)
    requires forall name | name in names && Scannable(scan, files, name) :: EntryFor(scan, files, name) in infos
    ensures Rebuilt(scan, files, infos)
  {
    forall i, j | 0 <= i < j < |infos| ensures infos[i].id <= infos[j].id {
      assert LexLeq(IdRank(infos[i]), IdRank(infos[j]));
    }
  }

  /** No segment file is on the disk but those listed. */
  ghost predicate OnlyListed(files: map<string, File>, infos: seq<SegmentInfo>) {
    forall name | name in files && IsSegmentName(name) :: name in Names(infos)
  }

  function IdOf(info: SegmentInfo): nat {
    info.id
  }

  lemma RebuiltEntry(
    scan: Reading, files: map<string, File>, lost: seq<SegmentInfo>, info: SegmentInfo, clean: bool)
    requires Sound(scan, files, lost, clean) && Named(lost, U64_MAX) && OnlyListed(files, lost)
    requires IsEntry(scan, files, info)
    ensures info.id in Mapped(lost, IdOf) && info.id < U64_MAX && info.file == SegmentName(info.id)
    ensures Stored(scan, files, info) && (clean ==> Agrees(scan, files, info))
  {
    assert info.file in Names(lost);
    var k :| 0 <= k < |lost| && Names(lost)[k] == info.file;
    assert Stored(scan, files, lost[k]) && (clean ==> Agrees(scan, files, lost[k]));
    assert Mapped(lost, IdOf)[k] == info.id;
  }

  /** When the manifest is lost but its segment files are all there is, rebuilding from the
      files gives back the list. */
  lemma RebuiltExactly(
    scan: Reading, files: map<string, File>, lost: seq<SegmentInfo>, infos: seq<SegmentInfo>, clean: bool)
    requires Sound(scan, files, lost, clean) && Named(lost, U64_MAX) && OnlyListed(files, lost)
    requires Rebuilt(scan, files, infos)
    ensures Names(infos) == Names(lost) && Named(infos, U64_MAX) && Sound(scan, files, infos, clean)
  {
    var (a, b) := (Mapped(infos, IdOf), Mapped(lost, IdOf));
    forall i | 0 <= i < |infos|
      ensures a[i] in b && infos[i].file == SegmentName(a[i]) && a[i] < U64_MAX
      ensures Stored(scan, files, infos[i]) && (clean ==> Agrees(scan, files, infos[i]))
    {
      assert IsEntry(scan, files, infos[i]);
      RebuiltEntry(scan, files, lost, infos[i], clean);
    }
    forall i, j | 0 <= i < j < |infos| ensures a[i] < a[j] {
      assert infos[i].id <= infos[j].id && infos[i] != infos[j];
      assert IsEntry(scan, files, infos[i]) && IsEntry(scan, files, infos[j]);
    }
    forall k | 0 <= k < |lost| ensures b[k] in a {
      assert Stored(scan, files, lost[k]);
      SegmentNamed(lost[k].id);
      assert EntryFor(scan, files, lost[k].file) in infos;
      var i :| 0 <= i < |infos| && infos[i] == EntryFor(scan, files, lost[k].file);
      assert a[i] == b[k];
    }
    AscendingSame(a, b);
    assert |a| == |b|;
    forall i | 0 <= i < |infos| ensures infos[i].file == lost[i].file {
      assert a[i] == b[i];
    }
  }

  /** The first id above every listed one. */
  function NextAfter(infos: seq<SegmentInfo>): nat {
    if infos == [] then 1
    else
      var (n, id) := (NextAfter(infos[..|infos| - 1]), infos[|infos| - 1].id);
      if id >= n then id + 1 else n
  }

  lemma {:induction false} NextAfterAll(infos: seq<SegmentInfo>, bound: nat)
    ensures forall info | info in infos :: info.id < NextAfter(infos)
    ensures bound > 0 && (forall info | info in infos :: info.id < bound) ==> NextAfter(infos) <= bound
  {
    if infos != [] {
      NextAfterAll(infos[..|infos| - 1], bound);
      SplitLast(infos);
    }
  }

  lemma NextAfterSame(a: seq<SegmentInfo>, b: seq<SegmentInfo>)
    requires forall info :: info in a <==> info in b
    ensures NextAfter(a) == NextAfter(b)
  {
    NextAfterPositive(a);
    NextAfterPositive(b);
    NextAfterAll(a, NextAfter(b));
    NextAfterAll(b, NextAfter(a));
  }

  lemma NextAfterPositive(infos: seq<SegmentInfo>)
    ensures NextAfter(infos) > 0
  {
  }

  lemma NamedNext(infos: seq<SegmentInfo>)
    requires Named(infos, U64_MAX)
    ensures Named(infos, NextAfter(infos)) && NextAfter(infos) <= U64_MAX
  {
    NextAfterAll(infos, U64_MAX);
    forall i | 0 <= i < |infos| ensures infos[i].id < U64_MAX && infos[i].id < NextAfter(infos) {
      assert infos[i] in infos;
    }
    forall info | info in infos ensures info.id < U64_MAX {
      var i :| 0 <= i < |infos| && infos[i] == info;
    }
  }

  /** What strict recovery accepts: no manifest at all, or one whose every file is what it says. */
  ghost predicate StrictlyOpens(scan: Reading, image: Image) {
    match image.published
    case Absent => true
    case Garbled => false
    case Manifested(m) => forall i | 0 <= i < |m.segments| :: Matches(scan, image.files, m.segments[i])
  }

  lemma CleanStrictlyOpens(scan: Reading, image: Image, rs: seq<Record>)
    requires Recoverable(scan, image, rs, true)
    ensures StrictlyOpens(scan, image)
  {
    var infos := image.published.manifest.segments;
    forall i | 0 <= i < |infos| ensures Matches(scan, image.files, infos[i]) {
      assert Agrees(scan, image.files, infos[i]);
    }
  }

  /** The checks append_many makes before it writes; all are of what stats reports. */
  ghost predicate Admissible(config: StoreConfig, slots: nat, used: nat, batch: seq<Entry>) {
    && config.exclusive && AllWritable(batch)
    && used + BatchBytes(batch) <= U64_MAX && used + BatchBytes(batch) <= config.maxBytes
    && slots < config.maxSegments
  }

  datatype CompactionReport = CompactionReport(
    segmentsBefore: nat, segmentsAfter: nat, bytesBefore: nat, bytesAfter: nat, dropped: nat)

  class LedgerStore {
    const h: Hashes
    ghost const scan: Reading
    const disk: Disk
    const config: StoreConfig
    const readOnly: bool

    /** Promised by the caller: every batch is within the scanner's budget. */
    ghost const clean: bool

    var segments: seq<SegmentInfo>
    var nextSegmentId: nat
    var open: bool
    var currentId: nat
    var currentBytes: nat
    var currentRecords: nat
    var hashed: seq<Byte>
    var totalRecords: nat
    var totalBytes: nat
    var revision: nat
    var watermark: I64
    var firstWrite: I64
    var dirty: bool

    ghost var progress: Progress

    constructor (h: Hashes, ghost scan: Reading, config: StoreConfig, disk: Disk, ghost clean: bool)
      ensures this.scan == scan && this.clean == clean && this.h == h && this.config == config && this.disk == disk && readOnly == !config.exclusive
      ensures segments == [] && nextSegmentId == 1 && !open && !dirty && revision == 0
    {
      this.h, this.config, this.disk, readOnly := h, config, disk, !config.exclusive;
      this.scan, this.clean := scan, clean;
      segments, nextSegmentId, open, dirty := [], 1, false, false;
      currentId, currentBytes, currentRecords, hashed := 0, 0, 0, [];
      totalRecords, totalBytes, revision, watermark, firstWrite := 0, 0, 0, 0, 0;
      progress := Progress(Image(map[], Absent), 0, 0, [], [], None);
    }

    // ---- what holds between calls ------------------------------------------

    /** Segment sizes cannot overflow 64 bits. */
    predicate Sane() {
      readOnly == !config.exclusive && config.maxSegmentBytes + 2 * MAX_FRAME_BYTES <= U64_MAX
    }

    /** New segments get ids above every id in the manifest and in memory. */
    ghost predicate Valid()
      reads this, disk
    {
      && ReadsAs(h, scan) && Sane() && !open && !dirty
      && disk.image.published.Manifested?
      && Named(disk.image.published.manifest.segments, nextSegmentId)
      && Named(segments, nextSegmentId)
    }

    /** What replay visits now. */
    ghost function Live(): seq<Record>
      reads this, disk
    {
      Contents(scan, disk.image.files, Names(segments))
    }

    /** Memory and manifest list the same files, and those are on the disk. */
    ghost predicate Steady()
      reads this, disk
    {
      && Valid() && nextSegmentId <= U64_MAX
      && Names(disk.image.published.manifest.segments) == Names(segments)
      && Sound(scan, disk.image.files, disk.image.published.manifest.segments, clean)
      && Sound(scan, disk.image.files, segments, clean)
    }

    /** What is listed, in memory and in the manifest, is on the disk; the two may differ. */
    ghost predicate Standing()
      reads this, disk
    {
      && Valid() && nextSegmentId <= U64_MAX
      && Sound(scan, disk.image.files, disk.image.published.manifest.segments, clean)
      && Sound(scan, disk.image.files, segments, clean)
    }

    lemma SteadyRecovers()
      requires Steady()
      ensures Recoverable(scan, disk.image, Live(), clean) && Standing()
    {
    }

    lemma StandingRecovers()
      requires Standing()
      ensures Recoverable(scan, disk.image, Durable(scan, disk.image), clean)
    {
    }

    /** Nothing about the store or its directory has changed. */
    twostate predicate Untouched()
      reads this, disk
    {
      && disk.image == old(disk.image) && disk.history == old(disk.history)
      && segments == old(segments) && nextSegmentId == old(nextSegmentId) && Unbooked()
      && (old(Standing()) ==> Standing())
    }

    /** What is published lists as many segments as memory does, and as many bytes when what is
        on the disk is intact. */
    lemma SameCount()
      requires disk.image.published == Manifested(ManifestNow()) || Steady()
      ensures disk.image.published.Manifested? && |disk.image.published.manifest.segments| == |segments|
      ensures disk.image.published == Manifested(ManifestNow()) || clean ==>
                TotalBytes(disk.image.published.manifest.segments) == TotalBytes(segments)
    {
      var listed := disk.image.published.manifest.segments;
      if disk.image.published == Manifested(ManifestNow()) {
        SameBytes(listed, segments);
      } else {
        assert |Names(listed)| == |Names(segments)|;
        if clean { AgreeingBytes(scan, disk.image.files, listed, segments); }
      }
    }

    lemma QuietStands(before: Image)
      requires Undisturbed(before, disk.image) && before.published.Manifested?
      requires Sound(scan, before.files, before.published.manifest.segments, clean)
      ensures disk.image.published == before.published
      ensures Sound(scan, disk.image.files, disk.image.published.manifest.segments, clean)
      ensures Durable(scan, disk.image) == Durable(scan, before)
    {
      SoundSame(scan, before.files, disk.image.files, before.published.manifest.segments, clean);
      ContentsSame(scan, before.files, disk.image.files, before.published.manifest.segments);
    }

    // ---- a session ----------------------------------------------------------

    ghost predicate InSession()
      reads this, disk
    {
      && Sane() && Consistent(h, progress, disk.image, disk.history)
      && open == progress.current.Some?
      && nextSegmentId == NextId(progress) && segments == Listed(h, progress)
      && (open ==> Tracks(h, progress.current.value, currentId, currentBytes, currentRecords, hashed, config.maxSegmentBytes))
    }

    /** The segments the session has begun, and the bytes in the open one. */
    ghost function Extent(): Spread
      reads this
    {
      Spread(|progress.ws| + (if open then 1 else 0), currentBytes)
    }

    lemma SlotsTaken()
      requires InSession()
      ensures |segments| == |progress.kept| + Extent().segments
    {
    }

    ghost method BeginSession(from: seq<SegmentInfo>)
      requires Sane() && !open && segments == from
      modifies `progress
      ensures InSession()
      ensures progress == Progress(disk.image, nextSegmentId, |disk.history|, from, [], None)
    {
      progress := Progress(disk.image, nextSegmentId, |disk.history|, from, [], None);
      BeginConsistent(h, disk.image, disk.history, nextSegmentId, from);
    }

    /** Creates the segment file with the next id and writes its header. */
    method OpenSegment(createdAt: I64)
      requires InSession() && !open
      modifies disk, `segments, `nextSegmentId, `open, `currentId, `currentBytes, `currentRecords, `hashed, `progress
      ensures InSession()
      ensures progress == old(progress).(current := Some(Written(old(nextSegmentId), createdAt, [])))
      ensures open && nextSegmentId == old(nextSegmentId) + 1 && currentBytes == HEADER_BYTES
    {
      ghost var w := Written(nextSegmentId, createdAt, []);
      OpenedConsistent(h, progress, disk.image, disk.history, createdAt);
      CreateFile(disk, nextSegmentId, Header(nextSegmentId, createdAt));
      ListingOpened(h, progress.kept, progress.ws, w);
      TracksFresh(h, nextSegmentId, createdAt, config.maxSegmentBytes);
      progress := progress.(current := Some(w));
      open, currentId, currentBytes, currentRecords, hashed := true, nextSegmentId, HEADER_BYTES, 0, [];
      segments := segments + [OpenInfo(h, Written(nextSegmentId, createdAt, []))];
      nextSegmentId := nextSegmentId + 1;
    }

    /** Appends one framed record, opening a segment first when none is open. */
    method WriteFrame(entry: Entry, writtenAt: I64) returns (r: Result<(), ErrorCode>)
      requires InSession() && open && currentRecords <= U64_MAX
      requires currentBytes == HEADER_BYTES || currentBytes + FrameBytes(entry) <= config.maxSegmentBytes
      modifies disk, `segments, `currentBytes, `currentRecords, `hashed, `progress
      ensures r == if EntryWritable(entry) then Ok(()) else Err(PayloadTooLarge)
      ensures InSession()
      ensures r.Err? ==> progress == old(progress)
      ensures r.Ok? ==> currentBytes == old(currentBytes) + FrameBytes(entry)
      ensures r.Ok? ==> progress == old(progress).(current := Some(
                Extended(old(progress.current.value), Record(entry.kind, old(currentRecords), writtenAt, entry.payload))))
    {
      if |entry.payload| > MAX_RECORD_BYTES {
        return Err(PayloadTooLarge);
      }
      ghost var w := progress.current.value;
      var record := Record(entry.kind, currentRecords, writtenAt, entry.payload);
      var frame := AppendRecord(h, disk, currentId, record, progress, w);
      TracksExtended(h, w, record, currentId, currentBytes, currentRecords, hashed, config.maxSegmentBytes);
      ListingExtended(h, progress.kept, progress.ws, w, Extended(w, record));
      hashed := hashed + frame;
      currentBytes, currentRecords := currentBytes + |frame|, currentRecords + 1;
      var last := |segments| - 1;
      var info := segments[last].(records := currentRecords, bytes := currentBytes);
      assert info == OpenInfo(h, Extended(w, record));
      segments := segments[last := info];
      progress := progress.(current := Some(Extended(w, record)));
      return Ok(());
    }

    /** Writes the footer and syncs. */
    method SealSegment()
      requires InSession()
      modifies disk, `segments, `open, `currentBytes, `currentRecords, `hashed, `progress
      ensures InSession() && !open
      ensures nextSegmentId == NextId(old(progress))
      ensures progress == match old(progress).current
                          case None => old(progress)
                          case Some(w) => old(progress).(ws := old(progress).ws + [w], current := None)
    {
      if !open {
        return;
      }
      ghost var w := progress.current.value;
      var footer := Footer(h, currentRecords, hashed);
      ClosedConsistent(h, progress, disk.image, disk.history, w);
      AppendAndSync(disk, currentId, footer);
      ListingClosed(h, progress.kept, progress.ws, w);
      var last := |segments| - 1;
      segments := segments[last := segments[last].(
          bytes := currentBytes + FOOTER_BYTES, digest := h.sha(hashed), damaged := false)];
      open, currentBytes, currentRecords, hashed := false, 0, 0, [];
      progress := progress.(ws := progress.ws + [w], current := None);
    }

    /** A frame finds room, in the open segment or in one more. */
    predicate Continues(kept: nat, s: Spread, frame: nat) {
      s.bytes + frame <= config.maxSegmentBytes || kept + s.segments < config.maxSegments
    }

    /** Starts a new segment when the open one has no room, if the segment budget allows. */
    method RotateIfNeeded(incoming: nat) returns (r: Result<(), ErrorCode>)
      requires InSession()
      modifies disk, `segments, `nextSegmentId, `open, `currentId, `currentBytes, `currentRecords, `hashed, `progress
      ensures InSession()
      ensures progress.base == old(progress).base && progress.firstId == old(progress).firstId
      ensures progress.start == old(progress).start && progress.kept == old(progress).kept
      ensures Done(progress.ws, progress.current) == Done(old(progress).ws, old(progress).current)
      ensures nextSegmentId <= old(nextSegmentId) + 1
      ensures r.Ok? && old(open) ==> open && (currentBytes == HEADER_BYTES || currentBytes + incoming <= config.maxSegmentBytes)
      ensures r.Ok? && old(open) ==> Extent().(bytes := currentBytes + incoming) == Place(old(Extent()), incoming, config.maxSegmentBytes)
      ensures old(open) && old(currentBytes) + incoming <= U64_MAX ==>
                (r.Ok? <==> Continues(|progress.kept|, old(Extent()), incoming))
      ensures r == Err(ArithmeticOverflow) ==> old(currentBytes) + incoming > U64_MAX
      ensures r.Err? && r != Err(ArithmeticOverflow) ==>
                r == Err(CapacityExceeded) && !open && Extent().segments == old(Extent()).segments
    {
      if !open {
        return Ok(());
      }
      if currentBytes + incoming > U64_MAX {
        return Err(ArithmeticOverflow);
      }
      if currentBytes + incoming <= config.maxSegmentBytes {
        return Ok(());
      }
      DoneClosed(progress.ws, progress.current.value);
      SealSegment();
      SlotsTaken();
      if |segments| >= config.maxSegments {
        return Err(CapacityExceeded);
      }
      ghost var sealed := progress;
      OpenSegment(watermark);
      DoneOpened(sealed.ws, progress.current.value);
      return Ok(());
    }

    /** Everything about the session but what it has written so far. */
    twostate predicate SameSession()
      reads this
    {
      && progress.base == old(progress).base && progress.firstId == old(progress).firstId
      && progress.start == old(progress).start && progress.kept == old(progress).kept
    }

    ghost function Progressed(): seq<Record>
      reads this
    {
      Done(progress.ws, progress.current)
    }

    /** No frame of a record overflows the arithmetic, so segments running out is all that fails. */
    method MakeRoom(entry: Entry) returns (r: Result<(), ErrorCode>)
      requires InSession() && open && EntryWritable(entry)
      modifies disk, `segments, `nextSegmentId, `open, `currentId, `currentBytes, `currentRecords, `hashed, `progress
      ensures InSession() && SameSession() && nextSegmentId <= old(nextSegmentId) + 1
      ensures Progressed() == old(Progressed())
      ensures r.Ok? <==> Continues(|progress.kept|, old(Extent()), FrameBytes(entry))
      ensures r.Ok? ==> open && (currentBytes == HEADER_BYTES || currentBytes + FrameBytes(entry) <= config.maxSegmentBytes)
      ensures r.Ok? ==> Extent().(bytes := currentBytes + FrameBytes(entry))
                        == Place(old(Extent()), FrameBytes(entry), config.maxSegmentBytes)
      ensures r.Err? ==> r.error == CapacityExceeded && !open && Extent().segments == old(Extent()).segments
    {
      assert currentBytes + FrameBytes(entry) <= U64_MAX;
      r := RotateIfNeeded(FrameBytes(entry));
    }

    /** The open segment has room for the record. */
    method PutFrame(entry: Entry, writtenAt: I64)
      requires InSession() && open && EntryWritable(entry) && |Progressed()| < U64_MAX
      requires currentBytes == HEADER_BYTES || currentBytes + FrameBytes(entry) <= config.maxSegmentBytes
      modifies disk, `segments, `currentBytes, `currentRecords, `hashed, `progress
      ensures InSession() && SameSession() && Entries(Progressed()) == Entries(old(Progressed())) + [entry]
      ensures Extent() == old(Extent()).(bytes := old(currentBytes) + FrameBytes(entry))
    {
      ghost var w := progress.current.value;
      assert |w.records| <= |Progressed()|;
      DoneExtended(progress.ws, w, Record(entry.kind, |w.records|, writtenAt, entry.payload));
      var _ := WriteFrame(entry, writtenAt);
    }

    /** A record goes to the open segment, or to the next one when it has no room. It is
        refused only when the store has run out of segments. */
    method WriteRecord(entry: Entry, writtenAt: I64) returns (r: Result<(), ErrorCode>)
      requires InSession() && open && EntryWritable(entry) && |Progressed()| < U64_MAX
      modifies disk, `segments, `nextSegmentId, `open, `currentId, `currentBytes, `currentRecords, `hashed, `progress
      ensures InSession() && SameSession() && nextSegmentId <= old(nextSegmentId) + 1
      ensures r.Ok? <==> Continues(|progress.kept|, old(Extent()), FrameBytes(entry))
      ensures r.Ok? ==> open && Entries(Progressed()) == Entries(old(Progressed())) + [entry]
      ensures r.Ok? ==> Extent() == Place(old(Extent()), FrameBytes(entry), config.maxSegmentBytes)
      ensures r.Err? ==> r.error == CapacityExceeded && !open && Extent().segments == old(Extent()).segments
      ensures r.Err? ==> Progressed() == old(Progressed())
    {
      r := MakeRoom(entry);
      if r.Err? {
        return;
      }
      PutFrame(entry, writtenAt);
    }

    /** How many records of a batch get written when so many segments are in use. */
    ghost function Taken(slots: nat, batch: seq<Entry>): (k: nat)
      ensures k <= |batch|
    {
      Held(slots, batch, config.maxSegmentBytes, config.maxSegments)
    }

    /** The segments they are spread over. */
    ghost function Over(slots: nat, batch: seq<Entry>): nat {
      SpreadOf(batch[..Taken(slots, batch)], config.maxSegmentBytes).segments
    }

    ghost predicate Fits(slots: nat, batch: seq<Entry>, i: nat)
      requires i <= |batch|
    {
      FitsIn(slots, batch[..i], config.maxSegmentBytes, config.maxSegments)
    }

    ghost function SpreadTo(batch: seq<Entry>, i: nat): Spread
      requires i <= |batch|
    {
      SpreadOf(batch[..i], config.maxSegmentBytes)
    }

    lemma NextFits(slots: nat, batch: seq<Entry>, i: nat)
      requires i < |batch| && Fits(slots, batch, i)
      ensures SpreadTo(batch, i + 1) == Place(SpreadTo(batch, i), FrameBytes(batch[i]), config.maxSegmentBytes)
      ensures Continues(slots, SpreadTo(batch, i), FrameBytes(batch[i])) <==> Fits(slots, batch, i + 1)
    {
      TakeSucc(batch, i);
      SpreadNext(batch[..i], batch[i], config.maxSegmentBytes);
    }

    lemma TakenExactly(slots: nat, batch: seq<Entry>, k: nat)
      requires k <= |batch| && Fits(slots, batch, k) && (k < |batch| ==> !Fits(slots, batch, k + 1))
      ensures Taken(slots, batch) == k && Over(slots, batch) == SpreadTo(batch, k).segments
    {
      HeldIs(slots, batch, k, config.maxSegmentBytes, config.maxSegments);
    }

    /** InSession, brought in only where Unfold is mentioned. */
    ghost predicate Folded()
      reads this, disk
    {
      forall b {:trigger Unfold(b)} :: Unfold(b) ==> InSession()
    }

    /** The first i records of the batch are written, and nothing else in this session. */
    ghost predicate Reached(batch: seq<Entry>, i: nat)
      reads this, disk
      requires i <= |batch|
    {
      && Folded() && Entries(Progressed()) == batch[..i]
      && Extent().segments == SpreadTo(batch, i).segments && (open ==> currentBytes == SpreadTo(batch, i).bytes)
    }

    method WriteNext(batch: seq<Entry>, i: nat, writtenAt: I64) returns (r: Result<(), ErrorCode>)
      requires i < |batch| <= U64_MAX && AllWritable(batch)
      requires Reached(batch, i) && open && Fits(|progress.kept|, batch, i)
      modifies disk, `segments, `nextSegmentId, `open, `currentId, `currentBytes, `currentRecords, `hashed, `progress
      ensures SameSession() && nextSegmentId <= old(nextSegmentId) + 1
      ensures r.Ok? <==> Fits(|progress.kept|, batch, i + 1)
      ensures r.Ok? ==> Reached(batch, i + 1) && open
      ensures r.Err? ==> Reached(batch, i) && !open && r.error == CapacityExceeded
    {
      assert Unfold(true) && |Progressed()| == i;
      NextFits(|progress.kept|, batch, i);
      r := WriteRecord(batch[i], writtenAt);
      TakeSucc(batch, i);
    }

    /** The loop of append_many and of compact: as much of the batch is written as finds room. */
    method WriteBatch(batch: seq<Entry>, writtenAt: I64) returns (r: Result<(), ErrorCode>, ghost k: nat)
      requires Reached(batch, 0) && open && AllWritable(batch) && |batch| <= U64_MAX
      modifies disk, `segments, `nextSegmentId, `open, `currentId, `currentBytes, `currentRecords, `hashed, `progress
      ensures SameSession() && nextSegmentId <= old(nextSegmentId) + |batch|
      ensures k <= |batch| && Reached(batch, k) && Fits(|progress.kept|, batch, k)
      ensures r.Ok? ==> open && k == |batch|
      ensures r.Err? ==> r.error == CapacityExceeded && !open && k < |batch| && !Fits(|progress.kept|, batch, k + 1)
    {
      k := 0;
      for i := 0 to |batch|
        invariant k == i && Reached(batch, i) && open && SameSession()
        invariant nextSegmentId <= old(nextSegmentId) + i
        invariant Fits(|progress.kept|, batch, i)
      {
        r := WriteNext(batch, i, writtenAt);
        if r.Err? {
          return;
        }
        k := k + 1;
      }
      return Ok(()), k;
    }

    method RecomputeTotals()
      modifies `totalRecords, `totalBytes
      ensures totalRecords == TotalRecords(segments) && totalBytes == TotalBytes(segments)
    {
      var records, bytes := 0, 0;
      for i := 0 to |segments|
        invariant records == TotalRecords(segments[..i]) && bytes == TotalBytes(segments[..i])
      {
        TakeSucc(segments, i);
        assert segments[..i + 1][..i] == segments[..i];
        records, bytes := records + segments[i].records, bytes + segments[i].bytes;
      }
      TakeAll(segments);
      totalRecords, totalBytes := records, bytes;
    }

    function ManifestNow(): Manifest
      reads this
    {
      Manifest(revision, totalRecords, totalBytes, SavedTime(watermark), SavedTime(firstWrite), SavedInfos(segments))
    }

    method WriteManifest()
      modifies disk, `dirty
      ensures !dirty && disk.image == old(disk.image).(published := Manifested(ManifestNow()))
      ensures disk.history == old(disk.history) + [disk.image]
    {
      disk.Publish(Manifest(
        revision, totalRecords, totalBytes, SavedTime(watermark), SavedTime(firstWrite), SavedInfos(segments)));
      dirty := false;
    }

    method Flush()
      modifies disk, `dirty
      ensures !dirty
      ensures old(dirty) ==> disk.image == old(disk.image).(published := Manifested(ManifestNow()))
      ensures old(dirty) ==> disk.history == old(disk.history) + [disk.image]
      ensures !old(dirty) ==> disk.image == old(disk.image) && disk.history == old(disk.history)
    {
      if dirty {
        WriteManifest();
      }
    }

    /** A batch passes every check made before anything is written. */
    ghost predicate Admits(batch: seq<Entry>)
      reads this
    {
      Admissible(config, |segments|, totalBytes, batch)
    }

    /** Why a batch is turned away before anything is written. */
    ghost predicate Refused(batch: seq<Entry>, error: ErrorCode)
      reads this
    {
      if readOnly then error == StoreReadOnly
      else if !AllWritable(batch) || BatchBytes(batch) > U64_MAX then
        || (error == PayloadTooLarge && !AllWritable(batch))
        || (error == ArithmeticOverflow && BatchBytes(batch) > U64_MAX)
      else if totalBytes + BatchBytes(batch) > U64_MAX then error == ArithmeticOverflow
      else error == CapacityExceeded && (totalBytes + BatchBytes(batch) > config.maxBytes || |segments| >= config.maxSegments)
    }

    method Admit(batch: seq<Entry>) returns (r: Result<(), ErrorCode>)
      requires !open && Sane()
      ensures r.Ok? <==> Admits(batch)
      ensures r.Err? ==> Refused(batch, r.error)
    {
      if readOnly {
        return Err(StoreReadOnly);
      }
      var incoming := BatchSize(batch);
      if incoming.Err? {
        return Err(incoming.error);
      }
      var projected := totalBytes + incoming.value;
      if projected > U64_MAX {
        return Err(ArithmeticOverflow);
      }
      if projected > config.maxBytes {
        return Err(CapacityExceeded);
      }
      if !open && |segments| >= config.maxSegments {
        return Err(CapacityExceeded);
      }
      return Ok(());
    }

    predicate FromId(infos: seq<SegmentInfo>, bound: nat) {
      forall i {:trigger infos[i]} | 0 <= i < |infos| :: infos[i].id >= bound
    }

    /** What is readable after a session that began with these segments. */
    lemma SessionResult()
      requires ReadsAs(h, scan) && InSession() && !open && Named(progress.kept, progress.firstId)
      requires nextSegmentId <= U64_MAX && |Progressed()| <= U64_MAX && WritableAll(Progressed())
      ensures progress.kept <= segments && FromId(segments[|progress.kept|..], progress.firstId)
      ensures Gained(Contents(scan, progress.base.files, Names(progress.kept)), Live(), Entries(Progressed()))
      ensures Named(segments, nextSegmentId)
      ensures Sound(scan, progress.base.files, progress.kept, clean) && (clean ==> ReadableAll(Progressed()))
              ==> Sound(scan, disk.image.files, segments, clean)
    {
      var p := progress;
      DoneAll(p.ws);
      FittingAll(p.ws, p.firstId);
      assert segments == p.kept + SealedInfos(h, p.ws);
      assert segments[|p.kept|..] == SealedInfos(h, p.ws);
      SessionContents(h, scan, p.base, disk.image, p.firstId, p.kept, p.ws);
      BatchGained(Contents(scan, p.base.files, Names(p.kept)), p.ws, Entries(Progressed()));
      SessionNamed(h, p.firstId, p.kept, p.ws);
      if Sound(scan, p.base.files, p.kept, clean) && (clean ==> ReadableAll(Progressed())) {
        SessionSound(h, scan, p.base, disk.image, p.firstId, p.kept, p.ws, clean);
      }
    }

    lemma SealedGrew()
      requires progress.current.None? && segments == Listed(h, progress)
      ensures Grows(progress.kept, segments, Entries(Progressed()))
    {
      DoneAll(progress.ws);
      SessionGrows(h, progress.kept, progress.ws, segments, Entries(Progressed()));
    }

    /** Writes as much of a batch as finds room into new segments, which nothing published
        lists yet. */
    method WriteSession(batch: seq<Entry>, writtenAt: I64) returns (r: Result<(), ErrorCode>)
      requires Sane() && !open && AllWritable(batch) && |batch| <= U64_MAX
      modifies disk, `segments, `nextSegmentId, `open, `currentId, `currentBytes, `currentRecords, `hashed, `progress
      ensures InSession() && !open
      ensures progress.base == old(disk.image) && progress.firstId == old(nextSegmentId)
      ensures progress.start == |old(disk.history)| && progress.kept == old(segments)
      ensures nextSegmentId <= old(nextSegmentId) + |batch| + 1
      ensures Entries(Progressed()) == batch[..old(Taken(|segments|, batch))]
      ensures |segments| == old(|segments| + Over(|segments|, batch))
      ensures Grows(old(segments), segments, Entries(Progressed()))
      ensures r.Ok? <==> old(Taken(|segments|, batch)) == |batch|
      ensures r.Err? ==> r.error == CapacityExceeded
    {
      BeginSession(segments);
      OpenSegment(writtenAt);
      ghost var k;
      r, k := WriteBatch(batch, writtenAt);
      assert Unfold(true);
      TakenExactly(|progress.kept|, batch, k);
      if r.Ok? {
        DoneClosed(progress.ws, progress.current.value);
        SealSegment();
      }
      SlotsTaken();
      SealedGrew();
    }

    ghost predicate Quiet(since: Image, from: nat)
      reads this, disk
    {
      && Undisturbed(since, disk.image) && from <= |disk.history|
      && forall i {:trigger disk.history[i]} | from <= i < |disk.history| :: Undisturbed(since, disk.history[i])
    }

    lemma SessionQuiet()
      requires InSession()
      requires progress.base.published.Manifested? ==>
                 Named(progress.base.published.manifest.segments, progress.firstId)
      ensures Quiet(progress.base, progress.start)
    {
      var p := progress;
      SheltersUndisturbed(p.base, disk.image, p.firstId);
      forall i | p.start <= i < |disk.history| ensures Undisturbed(p.base, disk.history[i]) {
        SheltersUndisturbed(p.base, disk.history[i], p.firstId);
      }
    }

    /** As much of the batch as finds room follows the records in memory. */
    twostate predicate Joined(batch: seq<Entry>)
      reads this, disk
    {
      var part := batch[..old(Taken(|segments|, batch))];
      && Gained(old(Live()), Live(), part) && Grows(old(segments), segments, part)
      && |segments| == old(|segments| + Over(|segments|, batch))
    }

    /** A session disturbs nothing published; the records that found room can be read through
        the segment list in memory, all of the batch when it succeeds. */
    method WriteNew(batch: seq<Entry>, writtenAt: I64) returns (r: Result<(), ErrorCode>, ghost k: nat)
      requires Valid() && AllWritable(batch) && nextSegmentId + |batch| + 1 <= U64_MAX
      modifies disk, `segments, `nextSegmentId, `open, `currentId, `currentBytes, `currentRecords, `hashed, `progress
      ensures Valid() && nextSegmentId <= old(nextSegmentId) + |batch| + 1
      ensures Quiet(old(disk.image), |old(disk.history)|)
      ensures old(segments) <= segments && FromId(segments[|old(segments)|..], old(nextSegmentId))
      ensures k == old(Taken(|segments|, batch)) && Joined(batch)
      ensures if r.Ok? then k == |batch| else k < |batch| && r.error == CapacityExceeded
      ensures old(Sound(scan, disk.image.files, segments, clean)) && (clean ==> AllReadable(batch))
              ==> Sound(scan, disk.image.files, segments, clean)
      ensures old(Standing()) && (clean ==> AllReadable(batch)) ==> Standing()
    {
      r := WriteSession(batch, writtenAt);
      k := |Progressed()|;
      SessionQuiet();
      EntriesBudget(Progressed());
      SessionResult();
      if old(Standing()) { QuietStands(old(disk.image)); }
    }

    /** After a commit the manifest lists what is in memory. */
    lemma Committed()
      requires ReadsAs(h, scan) && Sane() && !open && !dirty && Named(segments, nextSegmentId)
      requires disk.image.published == Manifested(ManifestNow())
      ensures Valid() && Durable(scan, disk.image) == Live()
      ensures nextSegmentId <= U64_MAX && Sound(scan, disk.image.files, segments, clean) ==> Steady()
    {
      SavedNames(segments);
      if Sound(scan, disk.image.files, segments, clean) {
        SavedSound(scan, disk.image.files, segments, clean);
      }
    }

    /** Publishes the segments now in memory as the next revision. */
    method Commit()
      requires ReadsAs(h, scan) && Sane() && !open && Named(segments, nextSegmentId)
      modifies disk, `totalRecords, `totalBytes, `revision, `dirty
      ensures revision == old(revision) + 1
      ensures totalRecords == TotalRecords(segments) && totalBytes == TotalBytes(segments)
      ensures disk.image == old(disk.image).(published := Manifested(ManifestNow()))
      ensures disk.history == old(disk.history) + [disk.image]
      ensures Valid() && Live() == old(Live()) && Durable(scan, disk.image) == Live()
      ensures nextSegmentId <= U64_MAX && Sound(scan, disk.image.files, segments, clean) ==> Steady()
    {
      RecomputeTotals();
      revision := revision + 1;
      dirty := true;
      Flush();
      Committed();
    }

    /** Every step since then left what was published untouched, except that the last step of
        a success is the one that publishes. */
    ghost predicate OneStep(since: Image, from: nat, ok: bool)
      reads this, disk
    {
      && (!ok ==> Undisturbed(since, disk.image))
      && forall i {:trigger disk.history[i]} | from <= i < |disk.history| ::
           Undisturbed(since, disk.history[i]) || (ok && i == |disk.history| - 1 && disk.history[i] == disk.image)
    }

    /** Both times are kept; zero means that there is none. */
    method Advance(writtenAt: I64)
      modifies `watermark, `firstWrite
      ensures watermark == Later(old(watermark), writtenAt) && firstWrite == First(old(firstWrite), writtenAt)
    {
      if watermark == 0 || writtenAt > watermark {
        watermark := writtenAt;
      }
      if firstWrite == 0 {
        firstWrite := writtenAt;
      }
    }

    method CommitAt(writtenAt: I64)
      requires ReadsAs(h, scan) && Sane() && !open && Named(segments, nextSegmentId)
      modifies disk, `totalRecords, `totalBytes, `revision, `dirty, `watermark, `firstWrite
      ensures revision == old(revision) + 1
      ensures watermark == Later(old(watermark), writtenAt) && firstWrite == First(old(firstWrite), writtenAt)
      ensures totalRecords == TotalRecords(segments) && totalBytes == TotalBytes(segments)
      ensures disk.image == old(disk.image).(published := Manifested(ManifestNow()))
      ensures disk.history == old(disk.history) + [disk.image]
      ensures Valid() && Live() == old(Live()) && Durable(scan, disk.image) == Live()
      ensures nextSegmentId <= U64_MAX && old(Sound(scan, disk.image.files, segments, clean)) ==> Steady()
    {
      Advance(writtenAt);
      Commit();
    }

    /** What is in memory is published, counted, and stamped as the next revision. */
    twostate predicate Booked(at: I64)
      reads this, disk
    {
      && disk.image.published == Manifested(ManifestNow()) && Durable(scan, disk.image) == Live()
      && totalBytes == TotalBytes(segments) && totalRecords == TotalRecords(segments)
      && revision == old(revision) + 1
      && watermark == Later(old(watermark), at) && firstWrite == First(old(firstWrite), at)
    }

    /** Nothing about the books has changed, whatever the segment list now is. */
    twostate predicate Unbooked()
      reads this
    {
      && totalBytes == old(totalBytes) && totalRecords == old(totalRecords)
      && revision == old(revision) && watermark == old(watermark) && firstWrite == old(firstWrite)
    }

    method AppendAdmitted(batch: seq<Entry>, writtenAt: I64) returns (r: Result<(), ErrorCode>)
      requires Valid() && AllWritable(batch) && nextSegmentId + |batch| + 1 <= U64_MAX
      modifies this, disk
      ensures Valid() && nextSegmentId <= old(nextSegmentId) + |batch| + 1
      ensures OneStep(old(disk.image), |old(disk.history)|, r.Ok?)
      ensures r.Ok? <==> old(Taken(|segments|, batch)) == |batch|
      ensures match r case Ok(_) => Booked(writtenAt) case Err(error) => error == CapacityExceeded && Unbooked()
      ensures Joined(batch)
      ensures old(Standing()) && (clean ==> AllReadable(batch)) ==> if r.Ok? then Steady() else Standing()
    {
      ghost var k;
      r, k := WriteNew(batch, writtenAt);
      if r.Ok? {
        CommitAt(writtenAt);
      }
    }

    /** Succeeds exactly when the batch passes the checks and the segments left have room for
        all of it. A success publishes the records in memory followed by the batch: all of it
        when it is within the scanner's budget, and otherwise less than all of it. A failure
        publishes nothing, and changes nothing either when the checks failed; otherwise the
        records that found room have joined those in memory. */
    method AppendMany(batch: seq<Entry>, writtenAt: I64) returns (r: Result<(), ErrorCode>)
      requires Valid() && nextSegmentId + |batch| + 1 <= U64_MAX
      modifies this, disk
      ensures Valid() && nextSegmentId <= old(nextSegmentId) + |batch| + 1
      ensures OneStep(old(disk.image), |old(disk.history)|, r.Ok?)
      ensures r.Ok? <==> batch == [] || old(Admits(batch) && Taken(|segments|, batch) == |batch|)
      ensures batch == [] || !old(Admits(batch)) ==> Untouched()
      ensures r.Err? && !old(Admits(batch)) ==> old(Refused(batch, r.error))
      ensures r.Err? && old(Admits(batch)) ==> r.error == CapacityExceeded && Unbooked()
      ensures r.Ok? && batch != [] ==> Booked(writtenAt)
      ensures batch != [] && old(Admits(batch)) ==> Joined(batch)
      ensures old(Standing()) && (clean ==> AllReadable(batch)) ==> Standing() && (r.Ok? && batch != [] ==> Steady())
    {
      if batch == [] {
        return Ok(());
      }
      r := Admit(batch);
      if r.Err? {
        return;
      }
      r := AppendAdmitted(batch, writtenAt);
    }

    // ---- reading ------------------------------------------------------------

    /** A file that is missing or has no usable header yields an error and no record. */
    method ScanFile(info: SegmentInfo) returns (r: Result<seq<Record>, ErrorCode>)
      requires ReadsAs(h, scan)
      ensures r.Ok? <==> Scannable(scan, disk.image.files, info.file)
      ensures RecordsIn(scan, disk.image.files, info.file) == if r.Ok? then r.value else []
      ensures r.Ok? ==> ReadableAll(r.value)
    {
      if info.file !in disk.image.files {
        return Err(SegmentMissing);
      }
      var found := ScanSegment(h, disk.image.files[info.file].bytes);
      if found.Err? {
        return Err(found.error);
      }
      ScannedReadable(h, disk.image.files[info.file].bytes);
      return Ok(found.value.records);
    }

    /** Visits every record of every listed segment in order; a segment that cannot be scanned
        is skipped, or under strict recovery ends the replay. */
    method Replay() returns (r: Result<seq<Record>, ErrorCode>)
      requires ReadsAs(h, scan)
      ensures r.Ok? ==> r.value == Live()
      ensures r.Ok? <==> config.recovery.Conservative? || forall i | 0 <= i < |segments| :: Scannable(scan, disk.image.files, segments[i].file)
    {
      var visited := [];
      for i := 0 to |segments|
        invariant visited == Contents(scan, disk.image.files, Names(segments)[..i])
        invariant config.recovery.Strict? ==> forall k | 0 <= k < i :: Scannable(scan, disk.image.files, segments[k].file)
      {
        var found := ScanFile(segments[i]);
        if found.Err? && config.recovery.Strict? {
          return Err(found.error);
        }
        ContentsNext(scan, disk.image.files, Names(segments), i);
        visited := visited + if found.Ok? then found.value else [];
      }
      TakeAll(Names(segments));
      return Ok(visited);
    }

    // ---- compaction ---------------------------------------------------------

    /** The records to keep, or the first segment that cannot be scanned. */
    method Survivors(keep: Record -> bool) returns (r: Result<seq<Record>, ErrorCode>, dropped: nat)
      requires ReadsAs(h, scan)
      ensures r.Ok? ==> r.value == Filtered(Live(), keep) && ReadableAll(r.value) && dropped + |r.value| == |Live()|
      ensures r.Ok? <==> forall i | 0 <= i < |segments| :: Scannable(scan, disk.image.files, segments[i].file)
    {
      var survivors := [];
      dropped := 0;
      for i := 0 to |segments|
        invariant dropped + |survivors| == |Contents(scan, disk.image.files, Names(segments)[..i])|
        invariant survivors == Filtered(Contents(scan, disk.image.files, Names(segments)[..i]), keep)
        invariant ReadableAll(survivors)
        invariant forall k | 0 <= k < i :: Scannable(scan, disk.image.files, segments[k].file)
      {
        var found := ScanFile(segments[i]);
        if found.Err? {
          return Err(found.error), dropped;
        }
        ContentsNext(scan, disk.image.files, Names(segments), i);
        FilteredAppend(Contents(scan, disk.image.files, Names(segments)[..i]), found.value, keep);
        FilteredReadable(found.value, keep);
        SplitReadable(survivors, Filtered(found.value, keep));
        var kept := Filtered(found.value, keep);
        survivors, dropped := survivors + kept, dropped + (|found.value| - |kept|);
      }
      TakeAll(Names(segments));
      return Ok(survivors), dropped;
    }

    method RemoveFiles(infos: seq<SegmentInfo>, ghost bound: nat)
      requires Valid() && Named(infos, bound) && FromId(disk.image.published.manifest.segments, bound)
      modifies disk
      ensures disk.image.published == old(disk.image).published
      ensures Quiet(old(disk.image), |old(disk.history)|) && old(disk.history) <= disk.history
    {
      var listed := disk.image.published.manifest.segments;
      for i := 0 to |infos|
        invariant disk.image.published == old(disk.image).published
        invariant Quiet(old(disk.image), |old(disk.history)|) && old(disk.history) <= disk.history
      {
        ghost var image := disk.image;
        forall k | 0 <= k < |listed| ensures Names(listed)[k] != infos[i].file {
          assert listed[k].file == SegmentName(listed[k].id) && infos[i].file == SegmentName(infos[i].id);
          if listed[k].file == infos[i].file {
            NamesDiffer(listed[k].id, infos[i].id);
          }
        }
        RemovalQuiet(image, infos[i].file);
        disk.Remove(infos[i].file);
        UndisturbedJoin(old(disk.image), image, disk.image);
      }
    }

    /** Every step left either what was published then, or what is published now, untouched. */
    ghost predicate TwoPhases(since: Image, from: nat)
      reads this, disk
    {
      forall i {:trigger disk.history[i]} | from <= i < |disk.history| ::
        Undisturbed(since, disk.history[i]) || Undisturbed(disk.image, disk.history[i])
    }

    lemma RemovedPhases(since: Image, from: nat, committed: Image, history: seq<Image>)
      requires history <= disk.history && from <= |history|
      requires forall i | from <= i < |history| :: Undisturbed(since, history[i]) || history[i] == committed
      requires Quiet(committed, |history|)
      ensures TwoPhases(since, from)
    {
      UndisturbedJoin(committed, committed, disk.image);
      UndisturbedJoin(committed, disk.image, disk.image);
      forall i | from <= i < |disk.history|
        ensures Undisturbed(since, disk.history[i]) || Undisturbed(disk.image, disk.history[i])
      {
        if i >= |history| || history[i] == committed {
          UndisturbedJoin(disk.image, committed, disk.history[i]);
        } else {
          assert disk.history[i] == history[i];
        }
      }
    }

    lemma Refilled(now: seq<Record>, batch: seq<Entry>, k: nat)
      requires k <= |batch| && AllReadable(batch) && Gained([], now, batch[..k])
      ensures Entries(now) == batch[..k]
    {
      assert AllReadable(batch[..k]);
    }

    /** The list in memory holds as many of the records to keep as find room, packed anew. */
    ghost predicate Repacked(es: seq<Entry>)
      reads this, disk
    {
      var part := es[..Taken(0, es)];
      && Entries(Live()) == part && Grows([], segments, part)
      && |segments| == if es == [] then 0 else Over(0, es)
    }

    lemma NothingRepacked()
      requires segments == []
      ensures Repacked([]) && Sound(scan, disk.image.files, segments, clean)
      ensures Quiet(disk.image, |disk.history|)
    {
      UndisturbedSelf(disk.image);
    }

    /** Writes a batch into an emptied segment list. */
    method Refill(batch: seq<Entry>, now: I64) returns (r: Result<(), ErrorCode>)
      requires Valid() && segments == [] && batch != [] && AllReadable(batch) && AllWritable(batch) && nextSegmentId + |batch| + 1 <= U64_MAX
      modifies disk, `segments, `nextSegmentId, `open, `currentId, `currentBytes, `currentRecords, `hashed, `progress
      ensures Valid() && nextSegmentId <= old(nextSegmentId) + |batch| + 1
      ensures Quiet(old(disk.image), |old(disk.history)|)
      ensures FromId(segments, old(nextSegmentId))
      ensures r.Ok? <==> Taken(0, batch) == |batch|
      ensures r.Err? ==> r.error == CapacityExceeded
      ensures Repacked(batch)
      ensures Sound(scan, disk.image.files, segments, clean)
    {
      assert Live() == [];
      ghost var k;
      r, k := WriteNew(batch, now);
      assert segments[0..] == segments;
      Refilled(Live(), batch, k);
    }

    /** Puts the surviving records alone into the segment list, in new segments. */
    method Rewrite(survivors: seq<Record>, now: I64) returns (r: Result<(), ErrorCode>)
      requires Valid() && ReadableAll(survivors) && nextSegmentId + |survivors| + 1 <= U64_MAX
      modifies disk, `segments, `nextSegmentId, `open, `currentId, `currentBytes, `currentRecords, `hashed,
        `progress, `totalRecords, `totalBytes
      ensures Valid() && nextSegmentId <= old(nextSegmentId) + |survivors| + 1
      ensures Quiet(old(disk.image), |old(disk.history)|)
      ensures FromId(segments, old(nextSegmentId))
      ensures r.Ok? <==> Taken(0, Entries(survivors)) == |survivors|
      ensures Repacked(Entries(survivors))
      ensures Sound(scan, disk.image.files, segments, clean)
      ensures r.Err? ==> r.error == CapacityExceeded && totalBytes == 0
    {
      segments, totalRecords, totalBytes := [], 0, 0;
      if survivors == [] {
        NothingRepacked();
        return Ok(());
      }
      EntriesBudget(survivors);
      r := Refill(Entries(survivors), now);
    }

    method Replace(oldFiles: seq<SegmentInfo>, ghost bound: nat, ghost since: Image, ghost from: nat)
      requires ReadsAs(h, scan) && Sane() && !open && Named(segments, nextSegmentId) && nextSegmentId <= U64_MAX
      requires FromId(segments, bound) && Named(oldFiles, bound) && Sound(scan, disk.image.files, segments, clean)
      requires Quiet(since, from)
      modifies disk, `totalRecords, `totalBytes, `revision, `dirty
      ensures TwoPhases(since, from)
      ensures Steady() && Live() == old(Live()) && Durable(scan, disk.image) == Live()
      ensures revision == old(revision) + 1 && totalBytes == TotalBytes(segments)
      ensures disk.image.published == Manifested(ManifestNow())
    {
      Commit();
      ghost var committed, history := disk.image, disk.history;
      SteadyRecovers();
      RemoveFiles(oldFiles, bound);
      RemovedPhases(since, from, committed, history);
      StillSteady(committed);
    }

    /** What is published and undisturbed can still be read the same way. */
    lemma StillSteady(before: Image)
      requires Undisturbed(before, disk.image)
      requires Valid() && nextSegmentId <= U64_MAX && disk.image.published == Manifested(ManifestNow())
      requires Sound(scan, before.files, segments, clean)
      ensures Steady() && Live() == Contents(scan, before.files, Names(segments)) && Durable(scan, disk.image) == Live()
    {
      var listed := disk.image.published.manifest.segments;
      SavedNames(segments);
      forall i | 0 <= i < |segments| ensures SameFile(before.files, disk.image.files, segments[i].file) {
        assert SameFile(before.files, disk.image.files, listed[i].file);
      }
      SoundSame(scan, before.files, disk.image.files, segments, clean);
      SavedSound(scan, disk.image.files, segments, clean);
      ContentsSame(scan, before.files, disk.image.files, segments);
    }

    /** Every listed segment can be scanned. */
    ghost predicate Legible()
      reads this, disk
    {
      forall i | 0 <= i < |segments| :: Scannable(scan, disk.image.files, segments[i].file)
    }

    lemma SoundLegible()
      requires Sound(scan, disk.image.files, segments, clean)
      ensures Legible()
    {
      forall i | 0 <= i < |segments| ensures Scannable(scan, disk.image.files, segments[i].file) {
        assert Stored(scan, disk.image.files, segments[i]);
      }
    }

    /** The survivors take the place of what the list in memory held, and are published when
        they all find room. */
    method Swap(survivors: seq<Record>, now: I64) returns (r: Result<(), ErrorCode>)
      requires Valid() && ReadableAll(survivors) && nextSegmentId + |survivors| + 1 <= U64_MAX
      modifies disk, `segments, `nextSegmentId, `open, `currentId, `currentBytes, `currentRecords, `hashed,
        `progress, `totalRecords, `totalBytes, `revision, `dirty
      ensures Valid() && nextSegmentId <= old(nextSegmentId) + |survivors| + 1
      ensures r.Ok? ==> TwoPhases(old(disk.image), |old(disk.history)|)
      ensures r.Err? ==> Quiet(old(disk.image), |old(disk.history)|) && r.error == CapacityExceeded && totalBytes == 0
      ensures r.Ok? ==> Steady() && Durable(scan, disk.image) == Live()
      ensures r.Ok? ==> totalBytes == TotalBytes(segments) && disk.image.published == Manifested(ManifestNow())
      ensures revision == old(revision) + (if r.Ok? then 1 else 0)
      ensures r.Ok? <==> Taken(0, Entries(survivors)) == |survivors|
      ensures Repacked(Entries(survivors))
      ensures old(Standing()) ==> Standing()
    {
      ghost var was, since, from := nextSegmentId, disk.image, |disk.history|;
      var oldFiles := segments;
      r := Rewrite(survivors, now);
      if r.Err? {
        if old(Standing()) { QuietStands(old(disk.image)); }
        return;
      }
      Replace(oldFiles, was, since, from);
    }

    /** Succeeds exactly when the store may write, every segment can be scanned and the segment
        budget holds all that is to be kept. A success publishes exactly that, rewritten, and
        forgets the old files. A failure publishes nothing, and changes nothing either but when
        the segments ran out: the list in memory has then been replaced by what found room. */
    method Compact(keep: Record -> bool, now: I64) returns (r: Result<CompactionReport, ErrorCode>)
      requires Valid() && nextSegmentId + |Live()| + 1 <= U64_MAX
      modifies disk, `segments, `nextSegmentId, `open, `currentId, `currentBytes, `currentRecords, `hashed,
        `progress, `totalRecords, `totalBytes, `revision, `dirty
      ensures Valid() && nextSegmentId <= old(nextSegmentId) + |old(Live())| + 1
      ensures r.Ok? ==> TwoPhases(old(disk.image), |old(disk.history)|)
      ensures r.Err? ==> Quiet(old(disk.image), |old(disk.history)|)
      ensures r.Ok? ==> Steady() && Entries(Live()) == Entries(Filtered(old(Live()), keep)) && Durable(scan, disk.image) == Live()
      ensures r.Ok? ==> r.value.dropped == |old(Live())| - |Live()| && r.value.segmentsAfter == |segments|
      ensures r.Ok? ==> r.value.segmentsBefore == |old(segments)| && r.value.bytesBefore == old(totalBytes)
      ensures r.Ok? ==> r.value.bytesAfter == TotalBytes(segments) == totalBytes
      ensures r.Ok? ==> disk.image.published == Manifested(ManifestNow())
      ensures revision == old(revision) + (if r.Ok? then 1 else 0)
      ensures r.Ok? <==> !readOnly && old(Legible()) && Taken(0, Entries(Filtered(old(Live()), keep))) == |Filtered(old(Live()), keep)|
      ensures readOnly || !old(Legible()) ==> Untouched()
      ensures r.Err? && !readOnly && old(Legible()) ==> r.error == CapacityExceeded && totalBytes == 0
      ensures !readOnly && old(Legible()) ==> Repacked(Entries(Filtered(old(Live()), keep)))
      ensures old(Standing()) ==> Standing() && old(Legible())
    {
      if old(Standing()) { SoundLegible(); }
      if readOnly {
        UndisturbedSelf(disk.image);
        return Err(StoreReadOnly);
      }
      var segmentsBefore, bytesBefore := |segments|, totalBytes;
      var survivors, dropped := Survivors(keep);
      if survivors.Err? {
        UndisturbedSelf(disk.image);
        return Err(survivors.error);
      }
      var swapped := Swap(survivors.value, now);
      if swapped.Err? {
        return Err(swapped.error);
      }
      return Ok(CompactionReport(segmentsBefore, |segments|, bytesBefore, totalBytes, dropped));
    }

    // ---- opening ------------------------------------------------------------

    method Load(m: Manifest)
      modifies `segments, `nextSegmentId, `totalRecords, `totalBytes, `revision, `watermark, `firstWrite
      ensures segments == m.segments && nextSegmentId == NextAfter(m.segments)
      ensures revision == m.revision && watermark == m.watermark && firstWrite == m.firstWrite
    {
      revision, totalRecords, totalBytes, watermark, firstWrite := m.revision, m.records, m.bytes, m.watermark, m.firstWrite;
      segments, nextSegmentId := [], 1;
      for i := 0 to |m.segments|
        modifies `segments, `nextSegmentId
        invariant segments == m.segments[..i] && nextSegmentId == NextAfter(m.segments[..i])
      {
        TakeSucc(m.segments, i);
        assert m.segments[..i + 1][..i] == m.segments[..i];
        segments := segments + [m.segments[i]];
        if m.segments[i].id >= nextSegmentId {
          nextSegmentId := m.segments[i].id + 1;
        }
      }
      TakeAll(m.segments);
    }

    method Inspect(info: SegmentInfo) returns (observed: SegmentInfo, scannable: bool)
      requires ReadsAs(h, scan)
      ensures observed == Observed(scan, disk.image.files, info) && scannable == Scannable(scan, disk.image.files, info.file)
    {
      if info.file !in disk.image.files {
        return SegmentInfo(info.file, info.id, 0, 0, info.digest, true), false;
      }
      var found := ScanSegment(h, disk.image.files[info.file].bytes);
      match found
      case Err(_) => return SegmentInfo(info.file, info.id, 0, 0, info.digest, true), false;
      case Ok(f) => return SegmentInfo(info.file, f.id, |f.records|, f.bytes, f.digest, f.damaged), true;
    }

    /** Replaces each entry by what its file holds; strict recovery accepts no disagreement. */
    method VerifyListed() returns (r: Result<(), ErrorCode>)
      requires ReadsAs(h, scan)
      modifies `segments
      ensures r.Ok? <==> config.recovery.Conservative? || forall i | 0 <= i < |old(segments)| :: Matches(scan, disk.image.files, old(segments)[i])
      ensures r.Err? ==> r.error == SegmentCorrupt && segments == old(segments)
      ensures r.Ok? ==> |segments| == |old(segments)|
                        && forall i | 0 <= i < |segments| :: segments[i] == Observed(scan, disk.image.files, old(segments)[i])
    {
      var verified := [];
      for i := 0 to |segments|
        invariant segments == old(segments) && |verified| == i
        invariant forall k | 0 <= k < i :: verified[k] == Observed(scan, disk.image.files, segments[k])
        invariant config.recovery.Strict? ==> forall k | 0 <= k < i :: Matches(scan, disk.image.files, segments[k])
      {
        var info := segments[i];
        var observed, scannable := Inspect(info);
        if !scannable || observed.damaged || observed.records != info.records || observed.digest != info.digest {
          if config.recovery.Strict? {
            assert !Matches(scan, disk.image.files, segments[i]);
            return Err(SegmentCorrupt);
          }
        }
        verified := verified + [observed];
      }
      segments := verified;
      return Ok(());
    }

    /** Removes every segment file that is not listed. */
    method SweepOrphans()
      requires disk.image.published.Manifested? ==> Names(disk.image.published.manifest.segments) == Names(segments)
      modifies disk
      ensures disk.image.published == old(disk.image).published
      ensures Quiet(old(disk.image), |old(disk.history)|)
      ensures forall name :: name in disk.image.files <==>
                name in old(disk.image).files && !(IsSegmentName(name) && name !in Names(segments))
      ensures forall name | name in disk.image.files :: disk.image.files[name] == old(disk.image).files[name]
    {
      UndisturbedSelf(disk.image);
      var listing := Ordering.Listing(disk.image.files.Keys);
      ListingMembers(listing, disk.image.files.Keys);
      var known := Names(segments);
      for i := 0 to |listing|
        invariant disk.image.published == old(disk.image).published
        invariant Quiet(old(disk.image), |old(disk.history)|)
        invariant forall name :: name in disk.image.files <==>
          name in old(disk.image).files && !(IsSegmentName(name) && name !in known && name in listing[..i])
        invariant forall name | name in disk.image.files :: disk.image.files[name] == old(disk.image).files[name]
      {
        var name := listing[i];
        TakeSucc(listing, i);
        if IsSegmentName(name) && name !in known {
          RemovalQuiet(disk.image, name);
          ghost var image := disk.image;
          disk.Remove(name);
          UndisturbedJoin(old(disk.image), image, disk.image);
        }
      }
      TakeAll(listing);
    }

    method CollectFiles(names: seq<string>) returns (found: seq<SegmentInfo>)
      requires ReadsAs(h, scan)
      modifies `nextSegmentId
      ensures found == Collected(scan, disk.image.files, names) && nextSegmentId == NextAfter(found)
    {
      found, nextSegmentId := [], 1;
      for i := 0 to |names|
        invariant found == Collected(scan, disk.image.files, names[..i]) && nextSegmentId == NextAfter(found)
      {
        TakeSucc(names, i);
        assert names[..i + 1][..i] == names[..i];
        var info, scannable := Inspect(SegmentInfo(names[i], 0, 0, 0, NO_DIGEST, false));
        if scannable {
          if info.id >= nextSegmentId {
            nextSegmentId := info.id + 1;
          }
          assert (found + [info])[..|found|] == found;
          found := found + [info];
        }
      }
      TakeAll(names);
    }

    /** Lists every segment file that can be scanned, by the id in its header. */
    method Rebuild()
      requires ReadsAs(h, scan)
      modifies `segments, `nextSegmentId, `dirty
      ensures dirty && Rebuilt(scan, disk.image.files, segments)
      ensures nextSegmentId == NextAfter(segments)
    {
      var present := set name | name in disk.image.files && IsSegmentName(name);
      var names := Ordering.Listing(present);
      names := Sort(names, Spelling);
      ListingMembers(names, present);
      var found := CollectFiles(names);
      CollectedEntries(scan, disk.image.files, names);
      segments := Sort(found, IdRank);
      DistinctPermuted(found, segments);
      RebuiltFrom(scan, disk.image.files, names, segments);
      NextAfterSame(found, segments);
      dirty := true;
    }

    /** The end of opening: totals, orphans, and the manifest when it was rebuilt. */
    method Settle()
      requires disk.image.published.Manifested? ==> Names(disk.image.published.manifest.segments) == Names(segments)
      requires dirty ==> !disk.image.published.Manifested?
      modifies disk, `totalRecords, `totalBytes, `dirty
      ensures !dirty && totalRecords == TotalRecords(segments) && totalBytes == TotalBytes(segments)
      ensures forall name :: name in disk.image.files <==>
                name in old(disk.image).files && !(IsSegmentName(name) && name !in Names(segments))
      ensures forall name | name in disk.image.files :: disk.image.files[name] == old(disk.image).files[name]
      ensures !old(dirty) ==> Quiet(old(disk.image), |old(disk.history)|)
      ensures old(dirty) ==> disk.image.published == Manifested(ManifestNow())
      ensures old(dirty) ==> OneStep(old(disk.image), |old(disk.history)|, true)
    {
      RecomputeTotals();
      SweepOrphans();
      Flush();
    }

    lemma SweptSame(files: map<string, File>, infos: seq<SegmentInfo>)
      requires forall name :: name in disk.image.files <==> name in files && !(IsSegmentName(name) && name !in Names(infos))
      requires forall name | name in disk.image.files :: disk.image.files[name] == files[name]
      ensures SameFiles(files, disk.image.files, infos)
    {
      forall i | 0 <= i < |infos| ensures SameFile(files, disk.image.files, infos[i].file) {
        assert Names(infos)[i] == infos[i].file;
      }
    }

    /** With a manifest, what it lists is what is read, whatever state the files are in; strict
        recovery refuses unless every file is what the manifest says. */
    method OpenListed(m: Manifest) returns (r: Result<(), ErrorCode>)
      requires ReadsAs(h, scan) && Sane() && !open && !dirty && disk.image.published == Manifested(m)
      modifies this, disk
      ensures r.Ok? <==> config.recovery.Conservative?
                         || forall i | 0 <= i < |m.segments| :: Matches(scan, old(disk.image).files, m.segments[i])
      ensures r.Err? ==> r.error == SegmentCorrupt && disk.image == old(disk.image) && disk.history == old(disk.history)
      ensures r.Ok? ==> Quiet(old(disk.image), |old(disk.history)|) && OnlyListed(disk.image.files, segments)
      ensures r.Ok? ==> Live() == Durable(scan, old(disk.image)) && revision == m.revision && watermark == m.watermark
      ensures r.Ok? ==> |segments| == |m.segments| && totalBytes == TotalBytes(segments) && nextSegmentId == NextAfter(m.segments)
      ensures r.Ok? && Named(m.segments, U64_MAX) && Sound(scan, old(disk.image).files, m.segments, clean) ==> Steady()
    {
      Load(m);
      r := VerifyListed();
      if r.Err? {
        return;
      }
      ghost var files := disk.image.files;
      Settle();
      Resumed(files, m.segments);
    }

    lemma Resumed(files: map<string, File>, listed: seq<SegmentInfo>)
      requires ReadsAs(h, scan) && Sane() && !open && !dirty && nextSegmentId == NextAfter(listed)
      requires disk.image.published.Manifested? && disk.image.published.manifest.segments == listed
      requires |segments| == |listed| && forall i | 0 <= i < |listed| :: segments[i] == Observed(scan, files, listed[i])
      requires forall name :: name in disk.image.files <==> name in files && !(IsSegmentName(name) && name !in Names(segments))
      requires forall name | name in disk.image.files :: disk.image.files[name] == files[name]
      ensures Live() == Contents(scan, files, Names(listed))
      ensures Named(listed, U64_MAX) && Sound(scan, files, listed, clean) ==> Steady()
    {
      assert Names(segments) == Names(listed);
      SweptSame(files, segments);
      ContentsSame(scan, files, disk.image.files, segments);
      if Named(listed, U64_MAX) && Sound(scan, files, listed, clean) {
        NamedNext(listed);
        SoundObserved(scan, files, listed, segments, clean);
        SweptSame(files, listed);
        SoundSame(scan, files, disk.image.files, listed, clean);
        SoundSame(scan, files, disk.image.files, segments, clean);
      }
    }

    /** Without one, the list is rebuilt from the files: when they are all that was listed,
        the records are what they were. */
    method OpenRebuilt(ghost lost: seq<SegmentInfo>)
      requires ReadsAs(h, scan) && Sane() && !open && !disk.image.published.Manifested?
      modifies this, disk
      ensures OneStep(old(disk.image), |old(disk.history)|, true) && OnlyListed(disk.image.files, segments)
      ensures disk.image.published == Manifested(ManifestNow())
      ensures Rebuilt(scan, old(disk.image).files, segments) && totalBytes == TotalBytes(segments)
      ensures nextSegmentId == NextAfter(segments)
      ensures Sound(scan, old(disk.image).files, lost, clean) && Named(lost, U64_MAX) && OnlyListed(old(disk.image).files, lost)
              ==> Steady() && Live() == Contents(scan, old(disk.image).files, Names(lost))
    {
      Rebuild();
      ghost var files := disk.image.files;
      Settle();
      if Sound(scan, files, lost, clean) && Named(lost, U64_MAX) && OnlyListed(files, lost) {
        RebuiltExactly(scan, files, lost, segments, clean);
        RebuiltSteady(files);
      }
    }

    lemma RebuiltSteady(files: map<string, File>)
      requires ReadsAs(h, scan) && Sane() && !open && !dirty && nextSegmentId == NextAfter(segments)
      requires disk.image.published == Manifested(ManifestNow())
      requires Named(segments, U64_MAX) && Sound(scan, files, segments, clean)
      requires forall name :: name in disk.image.files <==> name in files && !(IsSegmentName(name) && name !in Names(segments))
      requires forall name | name in disk.image.files :: disk.image.files[name] == files[name]
      ensures Steady() && Live() == Contents(scan, files, Names(segments))
    {
      SweptSame(files, segments);
      NamedNext(segments);
      ContentsSame(scan, files, disk.image.files, segments);
      SoundSame(scan, files, disk.image.files, segments, clean);
      Committed();
    }

    /** Opens the store in a directory. The segments a lost manifest listed, if any, are given
        as lost. */
    static method Open(
      h: Hashes, ghost scan: Reading, config: StoreConfig, disk: Disk, ghost clean: bool, ghost lost: seq<SegmentInfo>)
      returns (r: Result<LedgerStore, ErrorCode>)
      requires ReadsAs(h, scan) && config.maxSegmentBytes + 2 * MAX_FRAME_BYTES <= U64_MAX
      modifies disk
      ensures r.Ok? ==> fresh(r.value) && r.value.h == h && r.value.disk == disk && r.value.config == config && r.value.scan == scan && r.value.clean == clean
      ensures r.Err? ==> disk.image == old(disk.image) && disk.history == old(disk.history)
      ensures r.Ok? <==> config.recovery.Conservative? || StrictlyOpens(scan, old(disk.image))
      ensures r.Ok? ==> OnlyListed(disk.image.files, r.value.segments)
      ensures r.Ok? && old(disk.image).published.Manifested? ==>
                && r.value.Quiet(old(disk.image), |old(disk.history)|) && r.value.Live() == Durable(scan, old(disk.image))
                && |r.value.segments| == |old(disk.image).published.manifest.segments|
                && r.value.nextSegmentId == NextAfter(old(disk.image).published.manifest.segments)
      ensures r.Ok? ==> r.value.totalBytes == TotalBytes(r.value.segments)
      ensures r.Ok? && !old(disk.image).published.Manifested? ==>
                Rebuilt(scan, old(disk.image).files, r.value.segments) && r.value.nextSegmentId == NextAfter(r.value.segments)
      ensures r.Ok? && !old(disk.image).published.Manifested? ==> r.value.OneStep(old(disk.image), |old(disk.history)|, true)
      ensures r.Ok? && old(disk.image).published.Manifested? && Recoverable(scan, old(disk.image), Durable(scan, old(disk.image)), clean)
              ==> r.value.Steady()
      ensures r.Ok? && !old(disk.image).published.Manifested?
              && Sound(scan, old(disk.image).files, lost, clean) && Named(lost, U64_MAX) && OnlyListed(old(disk.image).files, lost)
              ==> r.value.Steady() && r.value.Live() == Contents(scan, old(disk.image).files, Names(lost))
    {
      var store := new LedgerStore(h, scan, config, disk, clean);
      match disk.image.published
      case Manifested(m) =>
        var verified := store.OpenListed(m);
        if verified.Err? {
          return Err(verified.error);
        }
        return Ok(store);
      case Garbled =>
        if config.recovery.Strict? {
          return Err(ManifestCorrupt);
        }
        store.OpenRebuilt(lost);
        return Ok(store);
      case Absent =>
        store.OpenRebuilt(lost);
        return Ok(store);
    }
  }
}
