/** The segments one append or compaction writes before it publishes them. */
module Session {

  import opened Common
  import opened Folds
  import opened Bytes
  import opened Segment
  import opened SegmentTheorems
  import opened Volume

  /** A segment as it is being written. */
  datatype Written = Written(id: nat, createdAt: I64, records: seq<Record>)

  function SealedInfo(h: Hashes, w: Written): SegmentInfo {
    SegmentInfo(SegmentName(w.id), w.id, |w.records|, |SealedBytes(h, w.id, w.createdAt, w.records)|,
                h.sha(Frames(h, w.records)), false)
  }

  function OpenInfo(h: Hashes, w: Written): SegmentInfo {
    SegmentInfo(SegmentName(w.id), w.id, |w.records|, |OpenBytes(h, w.id, w.createdAt, w.records)|, NO_DIGEST, false)
  }

  function Sealer(h: Hashes): (Written -> SegmentInfo) {
    (w: Written) => SealedInfo(h, w)
  }

  function SealedInfos(h: Hashes, ws: seq<Written>): (infos: seq<SegmentInfo>)
    ensures |infos| == |ws|
    ensures forall i | 0 <= i < |ws| :: infos[i] == SealedInfo(h, ws[i])
  {
    Mapped(ws, Sealer(h))
  }

  ghost predicate Numbered(ws: seq<Written>, firstId: nat) {
    forall i {:trigger ws[i]} | 0 <= i < |ws| :: ws[i].id == firstId + i
  }

  ghost predicate SealedFile(h: Hashes, files: map<string, File>, w: Written) {
    && SegmentName(w.id) in files
    && files[SegmentName(w.id)] == File(SealedBytes(h, w.id, w.createdAt, w.records), true)
  }

  ghost predicate SealedFiles(h: Hashes, files: map<string, File>, ws: seq<Written>) {
    forall i {:trigger ws[i]} | 0 <= i < |ws| :: SealedFile(h, files, ws[i])
  }

  ghost predicate OpenFile(h: Hashes, files: map<string, File>, w: Written) {
    && SegmentName(w.id) in files
    && files[SegmentName(w.id)] == File(OpenBytes(h, w.id, w.createdAt, w.records), false)
  }

  predicate WritableAll(rs: seq<Record>) {
    forall i | 0 <= i < |rs| :: Writable(rs[i])
  }

  ghost predicate Fitting(ws: seq<Written>) {
    forall i {:trigger ws[i]} | 0 <= i < |ws| ::
      ws[i].id <= U64_MAX && |ws[i].records| <= U64_MAX && WritableAll(ws[i].records)
  }

  // ---- which files a session touches ---------------------------------------

  /** No segment file numbered below the bound differs. */
  ghost predicate Below(files: map<string, File>, files': map<string, File>, bound: nat) {
    forall id: nat {:trigger SegmentName(id)} | id < bound :: SameFile(files, files', SegmentName(id))
  }

  ghost predicate Shelters(base: Image, image: Image, bound: nat) {
    image.published == base.published && Below(base.files, image.files, bound)
  }

  /** Writing a segment file leaves those with smaller ids alone. */
  lemma Touch(base: Image, image: Image, bound: nat, id: nat, f: File)
    requires Shelters(base, image, bound) && id >= bound
    ensures Shelters(base, With(image, id, f), bound)
  {
    forall other: nat | other < bound
      ensures SameFile(base.files, image.files[SegmentName(id) := f], SegmentName(other))
    {
      if SegmentName(other) == SegmentName(id) {
        NamesDiffer(other, id);
      }
    }
  }

  lemma TouchSealed(h: Hashes, files: map<string, File>, ws: seq<Written>, firstId: nat, id: nat, f: File)
    requires SealedFiles(h, files, ws) && Numbered(ws, firstId) && id >= firstId + |ws|
    ensures SealedFiles(h, files[SegmentName(id) := f], ws)
  {
    forall i | 0 <= i < |ws| ensures SealedFile(h, files[SegmentName(id) := f], ws[i]) {
      assert SealedFile(h, files, ws[i]);
      if SegmentName(ws[i].id) == SegmentName(id) {
        NamesDiffer(ws[i].id, id);
      }
    }
  }

  lemma NamedBelow(files: map<string, File>, files': map<string, File>, infos: seq<SegmentInfo>, bound: nat)
    requires Named(infos, bound) && Below(files, files', bound)
    ensures SameFiles(files, files', infos)
  {
    forall i | 0 <= i < |infos| ensures SameFile(files, files', infos[i].file) {
      assert infos[i].file == SegmentName(infos[i].id);
    }
  }

  lemma SheltersUndisturbed(base: Image, image: Image, bound: nat)
    requires Shelters(base, image, bound)
    requires base.published.Manifested? ==> Named(base.published.manifest.segments, bound)
    ensures Undisturbed(base, image)
  {
    if base.published.Manifested? {
      NamedBelow(base.files, image.files, base.published.manifest.segments, bound);
    }
  }

  // ---- what the new segments hold ------------------------------------------

  function RecordsOf(w: Written): seq<Record> {
    w.records
  }

  /** The part of a segment a scan gets to. */
  function Seen(w: Written): seq<Record> {
    w.records[..Visible(w.records)]
  }

  function All(ws: seq<Written>): seq<Record> {
    Concat(ws, RecordsOf)
  }

  function AllSeen(ws: seq<Written>): seq<Record> {
    Concat(ws, Seen)
  }

  predicate ReadableAll(rs: seq<Record>) {
    forall i | 0 <= i < |rs| :: Readable(rs[i])
  }

  lemma SealedScan(h: Hashes, scan: Reading, files: map<string, File>, w: Written)
    requires ReadsAs(h, scan)
    requires SealedFile(h, files, w) && w.id <= U64_MAX && |w.records| <= U64_MAX && WritableAll(w.records)
    ensures RecordsIn(scan, files, SegmentName(w.id)) == Seen(w)
    ensures Stored(scan, files, SealedInfo(h, w))
    ensures ReadableAll(w.records) ==> Agrees(scan, files, SealedInfo(h, w))
  {
    RoundTrip(h, w.id, w.createdAt, w.records);
    VisibleAll(w.records);
  }

  /** Reading the sealed segments of a session back gives what a scan gets to in each. */
  lemma {:induction false} ContentsSealed(h: Hashes, scan: Reading, files: map<string, File>, ws: seq<Written>)
    requires ReadsAs(h, scan)
    requires SealedFiles(h, files, ws) && Fitting(ws)
    ensures Contents(scan, files, Names(SealedInfos(h, ws))) == AllSeen(ws)
  {
    if ws != [] {
      assert SealedFile(h, files, ws[0]);
      SealedScan(h, scan, files, ws[0]);
      forall i | 0 <= i < |ws| - 1 ensures SealedFile(h, files, ws[1..][i]) {
        assert ws[1..][i] == ws[i + 1];
      }
      ContentsSealed(h, scan, files, ws[1..]);
      assert Names(SealedInfos(h, ws))[1..] == Names(SealedInfos(h, ws[1..]));
    }
  }

  lemma SealedSound(h: Hashes, scan: Reading, files: map<string, File>, ws: seq<Written>, clean: bool)
    requires ReadsAs(h, scan)
    requires SealedFiles(h, files, ws) && Fitting(ws)
    requires clean ==> ReadableAll(All(ws))
    ensures Sound(scan, files, SealedInfos(h, ws), clean)
  {
    forall i | 0 <= i < |ws|
      ensures Stored(scan, files, SealedInfos(h, ws)[i]) && (clean ==> Agrees(scan, files, SealedInfos(h, ws)[i]))
    {
      assert SealedFile(h, files, ws[i]);
      SealedScan(h, scan, files, ws[i]);
      if clean {
        PartReadable(ws, i);
      }
    }
  }

  lemma PartReadable(ws: seq<Written>, i: nat)
    requires i < |ws| && ReadableAll(All(ws))
    ensures ReadableAll(ws[i].records)
  {
    ConcatAt(ws, i, RecordsOf);
    var n := |Concat(ws[..i], RecordsOf)|;
    forall j | 0 <= j < |ws[i].records| ensures Readable(ws[i].records[j]) {
      assert All(ws)[n + j] == ws[i].records[j];
    }
  }

  /** Nothing is lost exactly when every record is within the scanner's budget. */
  lemma {:induction false} SeenExactly(ws: seq<Written>)
    ensures ReadableAll(All(ws)) ==> AllSeen(ws) == All(ws)
    ensures !ReadableAll(All(ws)) ==> |AllSeen(ws)| < |All(ws)|
  {
    if ws != [] {
      var w, rest := ws[0], ws[1..];
      SeenExactly(rest);
      VisibleAll(w.records);
      SplitReadable(w.records, All(rest));
    }
  }

  lemma SplitReadable(a: seq<Record>, b: seq<Record>)
    ensures ReadableAll(a + b) <==> ReadableAll(a) && ReadableAll(b)
  {
    if ReadableAll(a + b) {
      forall i | 0 <= i < |a| ensures Readable(a[i]) { assert (a + b)[i] == a[i]; }
      forall i | 0 <= i < |b| ensures Readable(b[i]) { assert (a + b)[|a| + i] == b[i]; }
    }
  }

  // ---- the steps of a session ----------------------------------------------

  /** Starting from base, the segments ws have been sealed, numbered from firstId on, and
      current, if any, is being written; nothing below firstId has been touched. */
  ghost predicate Writing(
    h: Hashes, base: Image, image: Image, firstId: nat, ws: seq<Written>, current: Option<Written>)
  {
    && Shelters(base, image, firstId)
    && SealedFiles(h, image.files, ws) && Numbered(ws, firstId)
    && (current.Some? ==> current.value.id == firstId + |ws| && OpenFile(h, image.files, current.value))
  }

  /** The segment list of a session. */
  function Listing(h: Hashes, kept: seq<SegmentInfo>, ws: seq<Written>, current: Option<Written>): seq<SegmentInfo> {
    kept + SealedInfos(h, ws) + match current case None => [] case Some(w) => [OpenInfo(h, w)]
  }

  lemma ListingOpened(h: Hashes, kept: seq<SegmentInfo>, ws: seq<Written>, w: Written)
    ensures Listing(h, kept, ws, Some(w)) == Listing(h, kept, ws, None) + [OpenInfo(h, w)]
  {
  }

  lemma ListingExtended(h: Hashes, kept: seq<SegmentInfo>, ws: seq<Written>, w: Written, w': Written)
    ensures var n := |kept| + |ws|;
      |Listing(h, kept, ws, Some(w))| == n + 1 && Listing(h, kept, ws, Some(w))[n] == OpenInfo(h, w)
      && Listing(h, kept, ws, Some(w))[n := OpenInfo(h, w')] == Listing(h, kept, ws, Some(w'))
  {
  }

  lemma ListingClosed(h: Hashes, kept: seq<SegmentInfo>, ws: seq<Written>, w: Written)
    ensures var n := |kept| + |ws|;
      |Listing(h, kept, ws, Some(w))| == n + 1 && Listing(h, kept, ws, Some(w))[n] == OpenInfo(h, w)
      && Listing(h, kept, ws, Some(w))[n := SealedInfo(h, w)] == Listing(h, kept, ws + [w], None)
  {
  }

  /** Every directory since start shelters what was there before the session. */
  ghost predicate AllShelter(base: Image, history: seq<Image>, start: nat, bound: nat) {
    start <= |history| && forall i {:trigger history[i]} | start <= i < |history| :: Shelters(base, history[i], bound)
  }

  lemma ShelterMore(base: Image, history: seq<Image>, start: nat, bound: nat, image: Image)
    requires AllShelter(base, history, start, bound) && Shelters(base, image, bound)
    ensures AllShelter(base, history + [image], start, bound)
  {
  }

  /** The directory with one segment file replaced. */
  function With(image: Image, id: nat, f: File): Image {
    image.(files := image.files[SegmentName(id) := f])
  }

  /** The two steps a session takes on the file it is writing. */
  lemma ShelterTwo(
    base: Image, image: Image, history: seq<Image>, start: nat, bound: nat, id: nat, f: File, g: File)
    requires Shelters(base, image, bound) && AllShelter(base, history, start, bound) && id >= bound
    ensures AllShelter(base, history + [With(image, id, f)] + [With(image, id, g)], start, bound)
  {
    Touch(base, image, bound, id, f);
    Touch(base, image, bound, id, g);
    ShelterMore(base, history, start, bound, With(image, id, f));
    ShelterMore(base, history + [With(image, id, f)], start, bound, With(image, id, g));
  }

  method CreateFile(disk: Disk, id: nat, bytes: seq<Byte>)
    modifies disk
    ensures disk.image == With(old(disk.image), id, File(bytes, false))
    ensures disk.history == old(disk.history) + [With(old(disk.image), id, File([], false))] + [disk.image]
  {
    disk.Create(SegmentName(id));
    disk.Append(SegmentName(id), bytes);
    assert [] + bytes == bytes;
    var name, files := SegmentName(id), old(disk.image).files;
    assert files[name := File([], false)][name := File(bytes, false)] == files[name := File(bytes, false)];
  }

  method AppendBoth(disk: Disk, id: nat, a: seq<Byte>, b: seq<Byte>)
    requires SegmentName(id) in disk.image.files
    modifies disk
    ensures var bytes := old(disk.image).files[SegmentName(id)].bytes;
      && disk.image == With(old(disk.image), id, File(bytes + (a + b), false))
      && disk.history == old(disk.history) + [With(old(disk.image), id, File(bytes + a, false))] + [disk.image]
  {
    var name, files := SegmentName(id), old(disk.image).files;
    var bytes := files[name].bytes;
    disk.Append(name, a);
    disk.Append(name, b);
    Associative(bytes, a, b);
    assert files[name := File(bytes + a, false)][name := File(bytes + (a + b), false)]
        == files[name := File(bytes + (a + b), false)];
  }

  method AppendAndSync(disk: Disk, id: nat, a: seq<Byte>)
    requires SegmentName(id) in disk.image.files
    modifies disk
    ensures var bytes := old(disk.image).files[SegmentName(id)].bytes;
      && disk.image == With(old(disk.image), id, File(bytes + a, true))
      && disk.history == old(disk.history) + [With(old(disk.image), id, File(bytes + a, false))] + [disk.image]
  {
    var name, files := SegmentName(id), old(disk.image).files;
    var bytes := files[name].bytes;
    disk.Append(name, a);
    disk.Sync(name);
    assert files[name := File(bytes + a, false)][name := File(bytes + a, true)] == files[name := File(bytes + a, true)];
  }

  /** A session: the directory, next id and history length it started from, the segments it
      goes on from, those it has sealed and the one it is writing. */
  datatype Progress = Progress(
    base: Image, firstId: nat, start: nat, kept: seq<SegmentInfo>, ws: seq<Written>, current: Option<Written>)

  function Listed(h: Hashes, p: Progress): seq<SegmentInfo> {
    Listing(h, p.kept, p.ws, p.current)
  }

  function NextId(p: Progress): nat {
    p.firstId + |p.ws| + if p.current.Some? then 1 else 0
  }

  ghost predicate Consistent(h: Hashes, p: Progress, image: Image, history: seq<Image>) {
    && Writing(h, p.base, image, p.firstId, p.ws, p.current)
    && AllShelter(p.base, history, p.start, p.firstId)
  }

  lemma BeginConsistent(h: Hashes, image: Image, history: seq<Image>, firstId: nat, kept: seq<SegmentInfo>)
    ensures Consistent(h, Progress(image, firstId, |history|, kept, [], None), image, history)
  {
  }

  lemma Opened(h: Hashes, base: Image, image: Image, firstId: nat, ws: seq<Written>, createdAt: I64)
    requires Writing(h, base, image, firstId, ws, None)
    ensures var id := firstId + |ws|;
      Writing(h, base, With(image, id, File(Header(id, createdAt), false)), firstId, ws, Some(Written(id, createdAt, [])))
  {
    var id := firstId + |ws|;
    Touch(base, image, firstId, id, File(Header(id, createdAt), false));
    TouchSealed(h, image.files, ws, firstId, id, File(Header(id, createdAt), false));
    assert OpenBytes(h, id, createdAt, []) == Header(id, createdAt);
  }

  lemma OpenedConsistent(h: Hashes, p: Progress, image: Image, history: seq<Image>, createdAt: I64)
    requires Consistent(h, p, image, history) && p.current.None?
    ensures var id := NextId(p);
      var image' := With(image, id, File(Header(id, createdAt), false));
      Consistent(h, p.(current := Some(Written(id, createdAt, []))), image',
                 history + [With(image, id, File([], false))] + [image'])
  {
    var id := NextId(p);
    Opened(h, p.base, image, p.firstId, p.ws, createdAt);
    ShelterTwo(p.base, image, history, p.start, p.firstId, id, File([], false), File(Header(id, createdAt), false));
  }

  function Extended(w: Written, r: Record): Written {
    w.(records := w.records + [r])
  }

  lemma FrameAppended(h: Hashes, w: Written, r: Record)
    ensures Frames(h, Extended(w, r).records) == Frames(h, w.records) + Frame(h, r)
    ensures OpenBytes(h, w.id, w.createdAt, Extended(w, r).records)
         == OpenBytes(h, w.id, w.createdAt, w.records) + Frame(h, r)
  {
    ConcatSnoc(w.records, r, Framer(h));
    Associative(Header(w.id, w.createdAt), Frames(h, w.records), Frame(h, r));
  }

  lemma Framed(
    h: Hashes, base: Image, image: Image, firstId: nat, ws: seq<Written>, w: Written, r: Record)
    requires Writing(h, base, image, firstId, ws, Some(w))
    ensures var bytes := image.files[SegmentName(w.id)].bytes + Frame(h, r);
      Writing(h, base, With(image, w.id, File(bytes, false)), firstId, ws, Some(Extended(w, r)))
  {
    var bytes := image.files[SegmentName(w.id)].bytes + Frame(h, r);
    Touch(base, image, firstId, w.id, File(bytes, false));
    TouchSealed(h, image.files, ws, firstId, w.id, File(bytes, false));
    FrameAppended(h, w, r);
  }

  lemma Closed(h: Hashes, base: Image, image: Image, firstId: nat, ws: seq<Written>, w: Written)
    requires Writing(h, base, image, firstId, ws, Some(w))
    ensures var bytes := image.files[SegmentName(w.id)].bytes + Footer(h, |w.records|, Frames(h, w.records));
      Writing(h, base, With(image, w.id, File(bytes, true)), firstId, ws + [w], None)
  {
    var bytes := image.files[SegmentName(w.id)].bytes + Footer(h, |w.records|, Frames(h, w.records));
    var files := image.files[SegmentName(w.id) := File(bytes, true)];
    Touch(base, image, firstId, w.id, File(bytes, true));
    TouchSealed(h, image.files, ws, firstId, w.id, File(bytes, true));
    assert SealedFile(h, files, w);
    forall i | 0 <= i < |ws + [w]| ensures SealedFile(h, files, (ws + [w])[i]) {
      assert i < |ws| ==> SealedFile(h, files, ws[i]);
    }
  }

  lemma FramedConsistent(h: Hashes, p: Progress, image: Image, history: seq<Image>, w: Written, r: Record)
    requires Consistent(h, p, image, history) && p.current == Some(w)
    ensures var bytes := image.files[SegmentName(w.id)].bytes;
      var image' := With(image, w.id, File(bytes + (FrameHeader(h, Body(r)) + Body(r)), false));
      Consistent(h, p.(current := Some(Extended(w, r))), image',
                 history + [With(image, w.id, File(bytes + FrameHeader(h, Body(r)), false))] + [image'])
  {
    var bytes := image.files[SegmentName(w.id)].bytes;
    Framed(h, p.base, image, p.firstId, p.ws, w, r);
    ShelterTwo(p.base, image, history, p.start, p.firstId, w.id, File(bytes + FrameHeader(h, Body(r)), false),
               File(bytes + Frame(h, r), false));
  }

  lemma ClosedConsistent(h: Hashes, p: Progress, image: Image, history: seq<Image>, w: Written)
    requires Consistent(h, p, image, history) && p.current == Some(w)
    ensures var bytes := image.files[SegmentName(w.id)].bytes + Footer(h, |w.records|, Frames(h, w.records));
      var image' := With(image, w.id, File(bytes, true));
      Consistent(h, p.(ws := p.ws + [w], current := None), image',
                 history + [With(image, w.id, File(bytes, false))] + [image'])
  {
    var bytes := image.files[SegmentName(w.id)].bytes + Footer(h, |w.records|, Frames(h, w.records));
    Closed(h, p.base, image, p.firstId, p.ws, w);
    ShelterTwo(p.base, image, history, p.start, p.firstId, w.id, File(bytes, false), File(bytes, true));
  }

  // ---- the end of a session ------------------------------------------------

  /** Every record written so far, in order. */
  function Done(ws: seq<Written>, current: Option<Written>): seq<Record> {
    All(ws) + match current case None => [] case Some(w) => w.records
  }

  lemma DoneExtended(ws: seq<Written>, w: Written, r: Record)
    ensures Done(ws, Some(Extended(w, r))) == Done(ws, Some(w)) + [r]
  {
  }

  lemma DoneClosed(ws: seq<Written>, w: Written)
    ensures Done(ws + [w], None) == Done(ws, Some(w))
  {
    ConcatSnoc(ws, w, RecordsOf);
  }

  lemma DoneOpened(ws: seq<Written>, w: Written)
    requires w.records == []
    ensures Done(ws, Some(w)) == Done(ws, None)
  {
  }

  lemma DoneAll(ws: seq<Written>)
    ensures Done(ws, None) == All(ws)
  {
  }

  lemma FittingAll(ws: seq<Written>, firstId: nat)
    requires Numbered(ws, firstId) && firstId + |ws| <= U64_MAX
    requires |All(ws)| <= U64_MAX && WritableAll(All(ws))
    ensures Fitting(ws)
  {
    forall i | 0 <= i < |ws| ensures |ws[i].records| <= U64_MAX && WritableAll(ws[i].records) {
      ConcatAt(ws, i, RecordsOf);
      var n := |Concat(ws[..i], RecordsOf)|;
      forall j | 0 <= j < |ws[i].records| ensures Writable(ws[i].records[j]) {
        assert All(ws)[n + j] == ws[i].records[j];
      }
    }
  }

  lemma NamesAppend(a: seq<SegmentInfo>, b: seq<SegmentInfo>)
    ensures Names(a + b) == Names(a) + Names(b)
  {
  }

  /** Reading the listed segments after a session gives what was readable before, and then
      what a scan gets to in the new ones. */
  lemma SessionContents(
    h: Hashes, scan: Reading, base: Image, image: Image, firstId: nat, kept: seq<SegmentInfo>, ws: seq<Written>)
    requires ReadsAs(h, scan)
    requires Writing(h, base, image, firstId, ws, None) && Named(kept, firstId) && Fitting(ws)
    ensures Contents(scan, image.files, Names(kept + SealedInfos(h, ws)))
         == Contents(scan, base.files, Names(kept)) + AllSeen(ws)
  {
    NamedBelow(base.files, image.files, kept, firstId);
    ContentsSame(scan, base.files, image.files, kept);
    ContentsSealed(h, scan, image.files, ws);
    NamesAppend(kept, SealedInfos(h, ws));
    ConcatAppend(Names(kept), Names(SealedInfos(h, ws)), Reader(scan, image.files));
  }

  lemma SessionSound(
    h: Hashes, scan: Reading, base: Image, image: Image, firstId: nat, kept: seq<SegmentInfo>, ws: seq<Written>, clean: bool)
    requires ReadsAs(h, scan)
    requires Writing(h, base, image, firstId, ws, None) && Named(kept, firstId) && Fitting(ws)
    requires Sound(scan, base.files, kept, clean) && (clean ==> ReadableAll(All(ws)))
    ensures Sound(scan, image.files, kept + SealedInfos(h, ws), clean)
  {
    NamedBelow(base.files, image.files, kept, firstId);
    SoundSame(scan, base.files, image.files, kept, clean);
    SealedSound(h, scan, image.files, ws, clean);
    SoundAppend(scan, image.files, kept, SealedInfos(h, ws), clean);
  }

  lemma SoundAppend(scan: Reading, files: map<string, File>, a: seq<SegmentInfo>, b: seq<SegmentInfo>, clean: bool)
    requires Sound(scan, files, a, clean) && Sound(scan, files, b, clean)
    ensures Sound(scan, files, a + b, clean)
  {
    forall i | 0 <= i < |a + b|
      ensures Stored(scan, files, (a + b)[i]) && (clean ==> Agrees(scan, files, (a + b)[i]))
    {
      if i < |a| {
        assert (a + b)[i] == a[i];
      } else {
        assert (a + b)[i] == b[i - |a|];
      }
    }
  }

  lemma SessionNamed(h: Hashes, firstId: nat, kept: seq<SegmentInfo>, ws: seq<Written>)
    requires Named(kept, firstId) && Numbered(ws, firstId)
    ensures Named(kept + SealedInfos(h, ws), firstId + |ws|)
  {
    var all, n := kept + SealedInfos(h, ws), |kept|;
    forall i | 0 <= i < |all|
      ensures all[i].file == SegmentName(all[i].id) && all[i].id < firstId + |ws|
      ensures if i < n then all[i] == kept[i] && all[i].id < firstId else all[i].id == firstId + (i - n)
    {
      if i < n {
        assert all[i] == kept[i];
      } else {
        assert all[i] == SealedInfo(h, ws[i - n]);
      }
    }
  }

  // ---- what a batch becomes ------------------------------------------------

  predicate EntryReadable(e: Entry) {
    RECORD_HEADER_BYTES + |e.payload| <= MAX_RECORD_BYTES
  }

  predicate EntryWritable(e: Entry) {
    |e.payload| <= MAX_RECORD_BYTES
  }

  predicate AllReadable(es: seq<Entry>) {
    forall i | 0 <= i < |es| :: EntryReadable(es[i])
  }

  predicate AllWritable(es: seq<Entry>) {
    forall i | 0 <= i < |es| :: EntryWritable(es[i])
  }

  lemma EntriesBudget(rs: seq<Record>)
    ensures AllReadable(Entries(rs)) <==> ReadableAll(rs)
    ensures AllWritable(Entries(rs)) <==> WritableAll(rs)
  {
    if AllReadable(Entries(rs)) {
      forall i | 0 <= i < |rs| ensures Readable(rs[i]) { assert EntryReadable(Entries(rs)[i]); }
    }
    if AllWritable(Entries(rs)) {
      forall i | 0 <= i < |rs| ensures Writable(rs[i]) { assert EntryWritable(Entries(rs)[i]); }
    }
  }

  /** A reader that found before now finds after, having been given a batch: all of it when it
      is within the scanner's budget, and otherwise less than all of it. */
  ghost predicate Gained(before: seq<Record>, after: seq<Record>, batch: seq<Entry>) {
    && before <= after
    && (AllReadable(batch) ==> Entries(after) == Entries(before) + batch)
    && (!AllReadable(batch) ==> |after| < |before| + |batch|)
  }

  lemma BatchGained(before: seq<Record>, ws: seq<Written>, batch: seq<Entry>)
    requires Entries(All(ws)) == batch
    ensures Gained(before, before + AllSeen(ws), batch)
  {
    EntriesBudget(All(ws));
    SeenExactly(ws);
    EntriesAppend(before, AllSeen(ws));
  }
}
