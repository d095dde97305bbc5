/** The store directory: segment files, the published manifest, and what a crash may leave. */
module Volume {

  import opened Common
  import opened Folds
  import opened Decimals
  import opened Bytes
  import opened Segment
  import opened SegmentTheorems

  // ---- names ---------------------------------------------------------------

  const PREFIX: string := "seg-"
  const SUFFIX: string := ".felseg"

  function SegmentName(id: nat): string {
    PREFIX + Padded(id, 8) + SUFFIX
  }

  lemma NamesDiffer(a: nat, b: nat)
    requires SegmentName(a) == SegmentName(b)
    ensures a == b
  {
    var n := |SegmentName(a)|;
    assert SegmentName(a)[4..n - 7] == Padded(a, 8);
    assert SegmentName(b)[4..n - 7] == Padded(b, 8);
    ValueOfPadded(a, 8);
    ValueOfPadded(b, 8);
  }

  predicate IsSegmentName(name: string) {
    |name| >= |PREFIX| && |name| >= |SUFFIX| && name[..|PREFIX|] == PREFIX && name[|name| - |SUFFIX|..] == SUFFIX
  }

  lemma SegmentNamed(id: nat)
    ensures IsSegmentName(SegmentName(id))
  {
  }

  // ---- files and manifest --------------------------------------------------

  /** synced: everything written so far has reached the disk. */
  datatype File = File(bytes: seq<Byte>, synced: bool)

  datatype SegmentInfo = SegmentInfo(
    file: string, id: nat, records: nat, bytes: nat, digest: Digest, damaged: bool)

  datatype Manifest = Manifest(
    revision: nat, records: nat, bytes: nat, watermark: I64, firstWrite: I64, segments: seq<SegmentInfo>)

  /** Publication replaces the manifest in one step. Garbled: it does not parse or fails its
      integrity check. */
  datatype Published = Absent | Garbled | Manifested(manifest: Manifest)

  datatype Image = Image(files: map<string, File>, published: Published)

  function NameOf(info: SegmentInfo): string {
    info.file
  }

  function Names(infos: seq<SegmentInfo>): (names: seq<string>)
    ensures |names| == |infos|
    ensures forall i | 0 <= i < |infos| :: names[i] == infos[i].file
  {
    Mapped(infos, NameOf)
  }

  // ---- contents ------------------------------------------------------------

  datatype Entry = Entry(kind: RecordKind, payload: seq<Byte>)

  function EntryOf(r: Record): Entry {
    Entry(r.kind, r.payload)
  }

  function Entries(rs: seq<Record>): (es: seq<Entry>)
    ensures |es| == |rs|
    ensures forall i | 0 <= i < |rs| :: es[i] == EntryOf(rs[i])
  {
    Mapped(rs, EntryOf)
  }

  lemma EntriesAppend(a: seq<Record>, b: seq<Record>)
    ensures Entries(a + b) == Entries(a) + Entries(b)
  {
  }

  /** What a reader makes of the bytes of a segment file. */
  type Reading = seq<Byte> -> Result<Scan, ErrorCode>

  ghost predicate ReadsAs(h: Hashes, scan: Reading) {
    forall file {:trigger ScanResult(h, file)} :: scan(file) == ScanResult(h, file)
  }

  ghost function Scanner(h: Hashes): (scan: Reading)
    ensures ReadsAs(h, scan)
  {
    (file: seq<Byte>) => ScanResult(h, file)
  }

  /** What replay visits in one file: nothing when it is missing or its header is bad. */
  ghost function RecordsIn(scan: Reading, files: map<string, File>, name: string): seq<Record> {
    if name !in files then []
    else
      var found := scan(files[name].bytes);
      if found.Ok? then found.value.records else []
  }

  ghost function Reader(scan: Reading, files: map<string, File>): (string -> seq<Record>) {
    (name: string) => RecordsIn(scan, files, name)
  }

  ghost function Contents(scan: Reading, files: map<string, File>, names: seq<string>): seq<Record> {
    Concat(names, Reader(scan, files))
  }

  lemma ContentsNext(scan: Reading, files: map<string, File>, names: seq<string>, i: nat)
    requires i < |names|
    ensures Contents(scan, files, names[..i + 1]) == Contents(scan, files, names[..i]) + RecordsIn(scan, files, names[i])
  {
    TakeSucc(names, i);
    ConcatSnoc(names[..i], names[i], Reader(scan, files));
  }

  /** Reading depends on the listed files only. */
  lemma {:induction false} ContentsAgree(
    scan: Reading, files: map<string, File>, files': map<string, File>, names: seq<string>)
    requires forall name | name in names :: SameFile(files, files', name)
    ensures Contents(scan, files, names) == Contents(scan, files', names)
  {
    if names != [] {
      assert SameFile(files, files', names[0]);
      ContentsAgree(scan, files, files', names[1..]);
    }
  }

  predicate SameFile(files: map<string, File>, files': map<string, File>, name: string) {
    if name in files then name in files' && files'[name] == files[name] else name !in files'
  }

  /** The records a reader finds through the published manifest. */
  ghost function Durable(scan: Reading, image: Image): seq<Record>
    requires image.published.Manifested?
  {
    Contents(scan, image.files, Names(image.published.manifest.segments))
  }

  // ---- what the store keeps true of a directory ----------------------------

  /** Segments are listed by ascending id, and each file carries the id in its name. */
  ghost predicate Named(infos: seq<SegmentInfo>, bound: nat) {
    && (forall i {:trigger infos[i]} | 0 <= i < |infos| :: infos[i].file == SegmentName(infos[i].id) && infos[i].id < bound)
    && (forall i, j {:trigger infos[i], infos[j]} | 0 <= i < j < |infos| :: infos[i].id < infos[j].id)
  }

  /** A listed segment is on the disk, and its header is readable and carries its id. */
  ghost predicate Stored(scan: Reading, files: map<string, File>, info: SegmentInfo) {
    && info.file in files && files[info.file].synced
    && scan(files[info.file].bytes).Ok?
    && scan(files[info.file].bytes).value.id == info.id
  }

  /** Moreover its content is what the list says. */
  ghost predicate Agrees(scan: Reading, files: map<string, File>, info: SegmentInfo) {
    && Stored(scan, files, info)
    && var found := scan(files[info.file].bytes).value;
       && !found.damaged && !info.damaged && |found.records| == info.records
       && found.digest == info.digest && found.bytes == info.bytes
  }

  /** clean: every listed segment is undamaged, not merely present. */
  ghost predicate Sound(scan: Reading, files: map<string, File>, infos: seq<SegmentInfo>, clean: bool) {
    forall i {:trigger infos[i]} | 0 <= i < |infos| ::
      Stored(scan, files, infos[i]) && (clean ==> Agrees(scan, files, infos[i]))
  }

  /** A directory from which a later open recovers exactly these records. */
  ghost predicate Recoverable(scan: Reading, image: Image, rs: seq<Record>, clean: bool) {
    && image.published.Manifested?
    && Named(image.published.manifest.segments, U64_MAX)
    && Sound(scan, image.files, image.published.manifest.segments, clean)
    && Durable(scan, image) == rs
  }

  ghost predicate Scannable(scan: Reading, files: map<string, File>, name: string) {
    name in files && scan(files[name].bytes).Ok?
  }

  /** The list entry a scan of the file gives. */
  ghost function EntryFor(scan: Reading, files: map<string, File>, name: string): SegmentInfo
    requires Scannable(scan, files, name)
  {
    var found := scan(files[name].bytes).value;
    SegmentInfo(name, found.id, |found.records|, found.bytes, found.digest, found.damaged)
  }

  /** What opening puts in place of a list entry. */
  ghost function Observed(scan: Reading, files: map<string, File>, info: SegmentInfo): SegmentInfo {
    if Scannable(scan, files, info.file) then EntryFor(scan, files, info.file)
    else SegmentInfo(info.file, info.id, 0, 0, info.digest, true)
  }

  /** The file is what the manifest says, as far as opening checks. */
  ghost predicate Matches(scan: Reading, files: map<string, File>, info: SegmentInfo) {
    && Scannable(scan, files, info.file)
    && var seen := Observed(scan, files, info);
       !seen.damaged && seen.records == info.records && seen.digest == info.digest
  }

  /** Opening finds a sound list as it was, entry for entry when it is clean. */
  lemma SoundObserved(
    scan: Reading, files: map<string, File>, infos: seq<SegmentInfo>, observed: seq<SegmentInfo>, clean: bool)
    requires Sound(scan, files, infos, clean) && |observed| == |infos|
    requires forall i | 0 <= i < |infos| :: observed[i] == Observed(scan, files, infos[i])
    ensures Names(observed) == Names(infos) && Sound(scan, files, observed, clean)
    ensures forall bound: nat | Named(infos, bound) :: Named(observed, bound)
    ensures clean ==> forall i | 0 <= i < |infos| :: Matches(scan, files, infos[i])
  {
    forall i | 0 <= i < |infos|
      ensures observed[i].file == infos[i].file && observed[i].id == infos[i].id
      ensures Stored(scan, files, observed[i]) && (clean ==> Agrees(scan, files, observed[i]))
      ensures clean ==> Matches(scan, files, infos[i])
    {
      assert Stored(scan, files, infos[i]);
    }
  }

  // ---- steps that disturb nothing published --------------------------------

  ghost predicate SameFiles(files: map<string, File>, files': map<string, File>, infos: seq<SegmentInfo>) {
    forall i {:trigger infos[i]} | 0 <= i < |infos| :: SameFile(files, files', infos[i].file)
  }

  /** The manifest and every file it lists are as before. */
  ghost predicate Undisturbed(before: Image, after: Image) {
    && after.published == before.published
    && (before.published.Manifested? ==> SameFiles(before.files, after.files, before.published.manifest.segments))
  }

  lemma ContentsSame(scan: Reading, files: map<string, File>, files': map<string, File>, infos: seq<SegmentInfo>)
    requires SameFiles(files, files', infos)
    ensures Contents(scan, files, Names(infos)) == Contents(scan, files', Names(infos))
  {
    forall name | name in Names(infos) ensures SameFile(files, files', name) {
      var i :| 0 <= i < |infos| && infos[i].file == name;
    }
    ContentsAgree(scan, files, files', Names(infos));
  }

  lemma SoundSame(scan: Reading, files: map<string, File>, files': map<string, File>, infos: seq<SegmentInfo>, clean: bool)
    requires SameFiles(files, files', infos) && Sound(scan, files, infos, clean)
    ensures Sound(scan, files', infos, clean)
  {
    forall i | 0 <= i < |infos| ensures Stored(scan, files', infos[i]) && (clean ==> Agrees(scan, files', infos[i])) {
      assert Stored(scan, files, infos[i]) && SameFile(files, files', infos[i].file);
    }
  }

  lemma UndisturbedRecovers(scan: Reading, before: Image, after: Image, rs: seq<Record>, clean: bool)
    requires Undisturbed(before, after) && Recoverable(scan, before, rs, clean)
    ensures Recoverable(scan, after, rs, clean)
  {
    var infos := before.published.manifest.segments;
    ContentsSame(scan, before.files, after.files, infos);
    SoundSame(scan, before.files, after.files, infos, clean);
  }

  lemma UndisturbedSelf(image: Image)
    ensures Undisturbed(image, image)
  {
  }

  lemma UndisturbedJoin(a: Image, b: Image, c: Image)
    requires Undisturbed(a, b) && Undisturbed(b, c)
    ensures Undisturbed(a, c) && Undisturbed(b, a)
  {
    if a.published.Manifested? {
      var infos := a.published.manifest.segments;
      forall i | 0 <= i < |infos|
        ensures SameFile(a.files, c.files, infos[i].file) && SameFile(b.files, a.files, infos[i].file)
      {
        assert SameFile(a.files, b.files, infos[i].file) && SameFile(b.files, c.files, infos[i].file);
      }
    }
  }

  /** Removing a file the manifest does not list disturbs nothing. */
  lemma RemovalQuiet(image: Image, name: string)
    requires image.published.Manifested? ==> name !in Names(image.published.manifest.segments)
    ensures Undisturbed(image, image.(files := image.files - {name}))
  {
    if image.published.Manifested? {
      var infos := image.published.manifest.segments;
      forall i | 0 <= i < |infos| ensures SameFile(image.files, image.files - {name}, infos[i].file) {
        assert Names(infos)[i] == infos[i].file;
      }
    }
  }

  // ---- crashes -------------------------------------------------------------

  /** What a crash may leave: the published manifest and every synced file survive; any other
      file may be lost, cut, garbled or brought back, and what is left is on the disk. */
  ghost predicate CrashLeaves(before: Image, after: Image) {
    && after.published == before.published
    && (forall name | name in before.files && before.files[name].synced :: SameFile(before.files, after.files, name))
    && (forall name | name in after.files :: after.files[name].synced)
  }

  lemma CrashRecovers(scan: Reading, before: Image, after: Image, rs: seq<Record>, clean: bool)
    requires CrashLeaves(before, after) && Recoverable(scan, before, rs, clean)
    ensures Recoverable(scan, after, rs, clean)
  {
    var infos := before.published.manifest.segments;
    forall i | 0 <= i < |infos| ensures SameFile(before.files, after.files, infos[i].file) {
      assert Stored(scan, before.files, infos[i]);
    }
    UndisturbedRecovers(scan, before, after, rs, clean);
  }

  // ---- the directory as an object ------------------------------------------

  /** Every operation is one step, and history holds the directory after each. */
  class Disk {
    var image: Image
    var history: seq<Image>

    constructor (start: Image)
      ensures image == start && history == []
    {
      image := start;
      history := [];
    }

    /** Creates the file, or truncates it when it exists. */
    method Create(name: string)
      modifies this
      ensures image == old(image).(files := old(image).files[name := File([], false)])
      ensures history == old(history) + [image]
    {
      image := image.(files := image.files[name := File([], false)]);
      history := history + [image];
    }

    method Append(name: string, bytes: seq<Byte>)
      requires name in image.files
      modifies this
      ensures image == old(image).(files := old(image).files[name := File(old(image).files[name].bytes + bytes, false)])
      ensures history == old(history) + [image]
    {
      image := image.(files := image.files[name := File(image.files[name].bytes + bytes, false)]);
      history := history + [image];
    }

    method Sync(name: string)
      requires name in image.files
      modifies this
      ensures image == old(image).(files := old(image).files[name := old(image).files[name].(synced := true)])
      ensures history == old(history) + [image]
    {
      image := image.(files := image.files[name := image.files[name].(synced := true)]);
      history := history + [image];
    }

    method Remove(name: string)
      modifies this
      ensures image == old(image).(files := old(image).files - {name})
      ensures history == old(history) + [image]
    {
      image := image.(files := image.files - {name});
      history := history + [image];
    }

    /** The new manifest is written aside, synced and renamed over the old one. */
    method Publish(manifest: Manifest)
      modifies this
      ensures image == old(image).(published := Manifested(manifest))
      ensures history == old(history) + [image]
    {
      image := image.(published := Manifested(manifest));
      history := history + [image];
    }
  }
}
