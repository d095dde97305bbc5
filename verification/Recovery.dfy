/** Crashes at any step of any operation, failures, and runs through any number of them. */
module Recovery {

  import opened Common
  import opened Folds
  import opened Segment
  import opened Volume
  import opened Session
  import opened Placement
  import opened Store

  datatype Operation =
    | Append(batch: seq<Entry>, at: I64)
    | Compaction(keep: Record -> bool, at: I64)

  /** What can be found out about a store between two calls: the records replay visits and those
      the manifest lists, in how many segments and bytes each are, the size the store reports,
      and whether everything listed is intact. */
  datatype Snapshot = Snapshot(
    memory: seq<Record>, published: seq<Record>, slots: nat, listed: nat, bytes: nat, listedBytes: nat,
    used: nat, clean: bool, config: StoreConfig)

  ghost function StateOf(store: LedgerStore): Snapshot
    reads store, store.disk
    requires store.disk.image.published.Manifested?
  {
    Snapshot(store.Live(), Durable(store.scan, store.disk.image), |store.segments|,
             |store.disk.image.published.manifest.segments|, TotalBytes(store.segments),
             TotalBytes(store.disk.image.published.manifest.segments), store.totalBytes, store.clean, store.config)
  }

  // ---- what an operation does ----------------------------------------------

  function TakenFrom(config: StoreConfig, slots: nat, batch: seq<Entry>): (k: nat)
    ensures k <= |batch|
  {
    Held(slots, batch, config.maxSegmentBytes, config.maxSegments)
  }

  function SpreadOver(config: StoreConfig, batch: seq<Entry>): nat {
    SpreadOf(batch, config.maxSegmentBytes).segments
  }

  /** The bytes a batch takes in new segments. */
  function SizeOver(config: StoreConfig, batch: seq<Entry>): nat {
    SEAL_BYTES * SpreadOver(config, batch) + BatchBytes(batch)
  }

  /** What a compaction has to write again. */
  function ToKeep(s: Snapshot, keep: Record -> bool): seq<Entry> {
    Entries(Filtered(s.memory, keep))
  }

  /** Whether an operation will succeed, from what is known before it. */
  ghost predicate Accepts(s: Snapshot, op: Operation) {
    match op
    case Append(batch, _) =>
      batch == [] || (Admissible(s.config, s.slots, s.used, batch) && TakenFrom(s.config, s.slots, batch) == |batch|)
    case Compaction(keep, _) =>
      s.config.exclusive && TakenFrom(s.config, 0, ToKeep(s, keep)) == |ToKeep(s, keep)|
  }

  /** A success publishes what it makes of the records in memory. */
  ghost predicate Succeeds(op: Operation, s: Snapshot, t: Snapshot) {
    match op
    case Append(batch, _) =>
      if batch == [] then t == s
      else Publishes(s, t) && Gained(s.memory, t.memory, batch)
           && t.slots == s.slots + SpreadOver(s.config, batch) && t.bytes == s.bytes + SizeOver(s.config, batch)
    case Compaction(keep, _) =>
      && Publishes(s, t) && Entries(t.memory) == ToKeep(s, keep)
      && t.slots == SegmentsFor(ToKeep(s, keep), s.config.maxSegmentBytes)
      && t.bytes == SEAL_BYTES * t.slots + BatchBytes(ToKeep(s, keep))
  }

  /** What is in memory is what is published, and its size is what is reported. */
  ghost predicate Publishes(s: Snapshot, t: Snapshot) {
    && t.config == s.config && t.clean == s.clean && t.published == t.memory
    && t.listed == t.slots && t.listedBytes == t.bytes == t.used
  }

  ghost predicate SamePublished(s: Snapshot, t: Snapshot) {
    && t.published == s.published && t.listed == s.listed && t.listedBytes == s.listedBytes
    && t.config == s.config && t.clean == s.clean
  }

  /** A failure publishes nothing. One that ran out of segments has changed the list in memory:
      the part of the batch that found room has joined it, or the part of the records to keep
      that found room has replaced it. Any other changes nothing at all. */
  ghost predicate Fails(op: Operation, s: Snapshot, t: Snapshot) {
    match op
    case Append(batch, _) =>
      if !Admissible(s.config, s.slots, s.used, batch) then t == s
      else
        var part := batch[..TakenFrom(s.config, s.slots, batch)];
        && SamePublished(s, t) && t.used == s.used && Gained(s.memory, t.memory, part)
        && t.slots == s.slots + SpreadOver(s.config, part) && t.bytes == s.bytes + SizeOver(s.config, part)
    case Compaction(keep, _) =>
      if !s.config.exclusive then t == s
      else
        var part := ToKeep(s, keep)[..TakenFrom(s.config, 0, ToKeep(s, keep))];
        && SamePublished(s, t) && t.used == 0 && Entries(t.memory) == part
        && t.slots == SpreadOver(s.config, part) && t.bytes == SizeOver(s.config, part)
  }

  ghost predicate Outcome(op: Operation, ok: bool, s: Snapshot, t: Snapshot) {
    (ok <==> Accepts(s, op)) && if ok then Succeeds(op, s, t) else Fails(op, s, t)
  }

  ghost predicate WithinBudget(op: Operation) {
    op.Append? ==> AllReadable(op.batch)
  }

  /** The id after all that an operation may use. */
  ghost function IdsUpTo(op: Operation, nextSegmentId: nat, live: seq<Record>): nat {
    nextSegmentId + 1 + match op case Append(batch, _) => |batch| case Compaction(_, _) => |live|
  }

  /** Segment ids remain below 2^64. */
  ghost predicate Room(op: Operation, nextSegmentId: nat, live: seq<Record>) {
    IdsUpTo(op, nextSegmentId, live) <= U64_MAX
  }

  // ---- what can be found in the directory ----------------------------------

  /** A later open recovers what is published, from the segments listed. */
  ghost predicate Holds(scan: Reading, image: Image, s: Snapshot) {
    && Recoverable(scan, image, s.published, s.clean)
    && |image.published.manifest.segments| == s.listed && TotalBytes(image.published.manifest.segments) == s.listedBytes
  }

  /** A directory in which either what was published or what the operation publishes is found. */
  ghost predicate Atomic(scan: Reading, image: Image, op: Operation, s: Snapshot) {
    || Holds(scan, image, s)
    || (Accepts(s, op) && exists t :: Succeeds(op, s, t) && Holds(scan, image, t))
  }

  lemma UndisturbedHolds(scan: Reading, before: Image, after: Image, s: Snapshot)
    requires Undisturbed(before, after) && Holds(scan, before, s)
    ensures Holds(scan, after, s)
  {
    UndisturbedRecovers(scan, before, after, s.published, s.clean);
  }

  /** Steps that leave what was published, or what is published now, untouched. */
  lemma StepsAtomic(store: LedgerStore, op: Operation, was: Image, from: nat, s: Snapshot, ok: bool)
    requires store.Standing() && Outcome(op, ok, s, StateOf(store))
    requires Holds(store.scan, was, s)
    requires forall i | from <= i < |store.disk.history| ::
               Undisturbed(was, store.disk.history[i]) || (ok && Undisturbed(store.disk.image, store.disk.history[i]))
    ensures forall i | from <= i < |store.disk.history| :: Atomic(store.scan, store.disk.history[i], op, s)
  {
    StandingHolds(store);
    forall i | from <= i < |store.disk.history|
      ensures Atomic(store.scan, store.disk.history[i], op, s)
    {
      var image := store.disk.history[i];
      if Undisturbed(was, image) {
        UndisturbedHolds(store.scan, was, image, s);
      } else {
        UndisturbedHolds(store.scan, store.disk.image, image, StateOf(store));
        assert Succeeds(op, s, StateOf(store));
      }
    }
  }

  lemma StandingHolds(store: LedgerStore)
    requires store.Standing()
    ensures Holds(store.scan, store.disk.image, StateOf(store))
  {
    store.StandingRecovers();
  }

  method Perform(store: LedgerStore, op: Operation) returns (ok: bool)
    requires store.Standing() && Room(op, store.nextSegmentId, store.Live())
    requires store.clean ==> WithinBudget(op)
    modifies store, store.disk
    ensures store.Standing() && Outcome(op, ok, old(StateOf(store)), StateOf(store))
    ensures store.nextSegmentId <= old(IdsUpTo(op, store.nextSegmentId, store.Live()))
    ensures forall i | |old(store.disk.history)| <= i < |store.disk.history| ::
              Atomic(store.scan, store.disk.history[i], op, old(StateOf(store)))
  {
    ghost var s, was, from := StateOf(store), store.disk.image, |store.disk.history|;
    StandingHolds(store);
    match op {
      case Append(batch, at) => ok := PerformAppend(store, batch, at);
      case Compaction(keep, at) => ok := PerformCompaction(store, keep, at);
    }
    StepsAtomic(store, op, was, from, s, ok);
  }

  lemma GrownBytes(before: seq<SegmentInfo>, after: seq<SegmentInfo>, es: seq<Entry>, n: nat)
    requires Grows(before, after, es) && |after| == |before| + n
    ensures TotalBytes(after) == TotalBytes(before) + SEAL_BYTES * n + BatchBytes(es)
  {
    assert Unfold(true);
  }

  method PerformAppend(store: LedgerStore, batch: seq<Entry>, at: I64) returns (ok: bool)
    requires store.Standing() && Room(Append(batch, at), store.nextSegmentId, store.Live())
    requires store.clean ==> AllReadable(batch)
    modifies store, store.disk
    ensures store.Standing() && Outcome(Append(batch, at), ok, old(StateOf(store)), StateOf(store))
    ensures store.nextSegmentId <= old(IdsUpTo(Append(batch, at), store.nextSegmentId, store.Live()))
    ensures forall i | |old(store.disk.history)| <= i < |store.disk.history| ::
              Undisturbed(old(store.disk.image), store.disk.history[i])
              || (ok && Undisturbed(store.disk.image, store.disk.history[i]))
  {
    ghost var s := StateOf(store);
    var r := store.AppendMany(batch, at);
    ok := r.Ok?;
    TakeAll(batch);
    UndisturbedSelf(store.disk.image);
    if batch != [] && Admissible(s.config, s.slots, s.used, batch) {
      var part := batch[..TakenFrom(s.config, s.slots, batch)];
      GrownBytes(old(store.segments), store.segments, part, SpreadOver(s.config, part));
    }
    if !ok {
      store.QuietStands(old(store.disk.image));
    } else if batch != [] {
      store.SameCount();
    }
  }

  method PerformCompaction(store: LedgerStore, keep: Record -> bool, at: I64) returns (ok: bool)
    requires store.Standing() && Room(Compaction(keep, at), store.nextSegmentId, store.Live())
    modifies store, store.disk
    ensures store.Standing() && Outcome(Compaction(keep, at), ok, old(StateOf(store)), StateOf(store))
    ensures store.nextSegmentId <= old(IdsUpTo(Compaction(keep, at), store.nextSegmentId, store.Live()))
    ensures forall i | |old(store.disk.history)| <= i < |store.disk.history| ::
              Undisturbed(old(store.disk.image), store.disk.history[i])
              || (ok && Undisturbed(store.disk.image, store.disk.history[i]))
  {
    ghost var s := StateOf(store);
    ghost var kept := ToKeep(s, keep);
    var r := store.Compact(keep, at);
    ok := r.Ok?;
    TakeAll(kept);
    if s.config.exclusive {
      GrownBytes([], store.segments, kept[..TakenFrom(s.config, 0, kept)], |store.segments|);
    }
    if ok {
      store.SameCount();
      assert Publishes(s, StateOf(store));
    } else {
      store.QuietStands(old(store.disk.image));
      assert s.config.exclusive ==> SamePublished(s, StateOf(store));
    }
  }

  // ---- runs ----------------------------------------------------------------

  /** An operation, one cut short by a crash after so many steps, closing and opening the store
      again, and an opening that is itself cut short and repeated. */
  datatype Event =
    | Completes(op: Operation)
    | Crashes(op: Operation, step: nat, leaves: Image -> Image, config: StoreConfig)
    | Reopens(config: StoreConfig)
    | ReopensTwice(step: nat, leaves: Image -> Image, config: StoreConfig)

  predicate IsOperation(event: Event) {
    event.Completes? || event.Crashes?
  }

  ghost predicate CanOpen(config: StoreConfig, clean: bool) {
    config.maxSegmentBytes + 2 * MAX_FRAME_BYTES <= U64_MAX && (config.recovery.Strict? ==> clean)
  }

  ghost predicate CanHappen(event: Event, clean: bool) {
    && (event.Crashes? || event.ReopensTwice? ==> forall image :: CrashLeaves(image, event.leaves(image)))
    && (IsOperation(event) && clean ==> WithinBudget(event.op))
    && (!event.Completes? ==> CanOpen(event.config, clean))
  }

  /** The store as it is opened: what was published is what is in memory. */
  ghost predicate Restored(s: Snapshot, t: Snapshot, config: StoreConfig) {
    && t.memory == t.published == s.published && t.slots == t.listed == s.listed
    && t.config == config && t.clean == s.clean
    && t.listedBytes == s.listedBytes && t.used == t.bytes && (t.clean ==> t.bytes == t.listedBytes)
  }

  /** What becomes of a store: a failed operation leaves it as it is, and the next event goes on
      from there; one cut short by a crash has happened or has not. */
  ghost predicate Follows(event: Event, ok: bool, s: Snapshot, t: Snapshot) {
    match event
    case Completes(op) => Outcome(op, ok, s, t)
    case Crashes(op, _, _, config) =>
      !ok && (Restored(s, t, config) || (Accepts(s, op) && exists u :: Succeeds(op, s, u) && Restored(u, t, config)))
    case Reopens(config) => !ok && Restored(s, t, config)
    case ReopensTwice(_, _, config) => !ok && Restored(s, t, config)
  }

  /** Opening what a run left recovers it, and the store goes on from there. */
  method Reopen(h: Hashes, ghost scan: Reading, config: StoreConfig, image: Image, ghost s: Snapshot)
    returns (store: LedgerStore)
    requires ReadsAs(h, scan) && Holds(scan, image, s) && CanOpen(config, s.clean)
    ensures store.Steady() && store.h == h && store.scan == scan
    ensures fresh(store) && fresh(store.disk)
    ensures Restored(s, StateOf(store), config)
    ensures store.nextSegmentId == NextAfter(image.published.manifest.segments)
    ensures forall i | 0 <= i < |store.disk.history| :: Holds(scan, store.disk.history[i], s)
  {
    var disk := new Disk(image);
    if s.clean {
      CleanStrictlyOpens(scan, image, s.published);
    }
    var r := LedgerStore.Open(h, scan, config, disk, s.clean, []);
    store := r.value;
    store.SameCount();
    UndisturbedHolds(scan, image, store.disk.image, s);
    forall i | 0 <= i < |store.disk.history| ensures Holds(scan, store.disk.history[i], s) {
      UndisturbedHolds(scan, image, store.disk.history[i], s);
    }
  }

  /** The directory a crash leaves: that after the given number of steps, with what was not
      synced lost. */
  method Remains(before: Image, steps: seq<Image>, step: nat, leaves: Image -> Image,
                 ghost op: Operation, ghost scan: Reading, ghost s: Snapshot)
    returns (image: Image)
    requires (forall image :: CrashLeaves(image, leaves(image))) && Holds(scan, before, s)
    requires forall i | 0 <= i < |steps| :: Atomic(scan, steps[i], op, s)
    ensures Atomic(scan, image, op, s)
  {
    var count := if step < |steps| then step else |steps|;
    image := before;
    if count > 0 {
      image := steps[count - 1];
    }
    AtomicAfterCrash(scan, image, leaves(image), op, s);
    image := leaves(image);
  }

  lemma HoldsAfterCrash(scan: Reading, before: Image, after: Image, s: Snapshot)
    requires CrashLeaves(before, after) && Holds(scan, before, s)
    ensures Holds(scan, after, s)
  {
    CrashRecovers(scan, before, after, s.published, s.clean);
  }

  lemma AtomicAfterCrash(scan: Reading, before: Image, after: Image, op: Operation, s: Snapshot)
    requires CrashLeaves(before, after) && Atomic(scan, before, op, s)
    ensures Atomic(scan, after, op, s)
  {
    if Holds(scan, before, s) {
      HoldsAfterCrash(scan, before, after, s);
    } else {
      var t :| Succeeds(op, s, t) && Holds(scan, before, t);
      HoldsAfterCrash(scan, before, after, t);
    }
  }

  /** Opens the store in the directory a crash left; what is in it decides what has happened. */
  method Recover(h: Hashes, ghost scan: Reading, config: StoreConfig, image: Image, ghost op: Operation, ghost s: Snapshot)
    returns (store: LedgerStore)
    requires ReadsAs(h, scan) && Atomic(scan, image, op, s) && CanOpen(config, s.clean)
    ensures store.Standing() && store.h == h && store.scan == scan && store.clean == s.clean
    ensures fresh(store) && fresh(store.disk)
    ensures || Restored(s, StateOf(store), config)
            || (Accepts(s, op) && exists u :: Succeeds(op, s, u) && Restored(u, StateOf(store), config))
  {
    ghost var u := s;
    if !Holds(scan, image, s) {
      u :| Succeeds(op, s, u) && Holds(scan, image, u);
    }
    store := Reopen(h, scan, config, image, u);
    store.SteadyRecovers();
    assert Restored(u, StateOf(store), config);
  }

  /** A crash while the store is being opened leaves what was published. */
  method OpeningCut(h: Hashes, ghost scan: Reading, config: StoreConfig, image: Image, step: nat, leaves: Image -> Image,
                    ghost s: Snapshot)
    returns (left: Image)
    requires ReadsAs(h, scan) && Holds(scan, image, s) && CanOpen(config, s.clean)
    requires forall image :: CrashLeaves(image, leaves(image))
    ensures Holds(scan, left, s)
  {
    var first := Reopen(h, scan, config, image, s);
    var steps := first.disk.history;
    var count := if step < |steps| then step else |steps|;
    left := if count > 0 then steps[count - 1] else image;
    HoldsAfterCrash(scan, left, leaves(left), s);
    left := leaves(left);
  }

  method Happen(store: LedgerStore, event: Event) returns (next: LedgerStore, ok: bool)
    requires store.Standing() && CanHappen(event, store.clean)
    requires IsOperation(event) ==> Room(event.op, store.nextSegmentId, store.Live())
    modifies store, store.disk
    ensures next.Standing() && next.clean == store.clean
    ensures next == store || (fresh(next) && fresh(next.disk))
    ensures Follows(event, ok, old(StateOf(store)), StateOf(next))
  {
    ghost var s := StateOf(store);
    StandingHolds(store);
    ok := false;
    match event {
      case Completes(op) =>
        ok := Perform(store, op);
        next := store;
      case Crashes(op, step, leaves, config) =>
        var from, before := |store.disk.history|, store.disk.image;
        var _ := Perform(store, op);
        var steps := if from <= |store.disk.history| then store.disk.history[from..] else [];
        var image := Remains(before, steps, step, leaves, op, store.scan, s);
        next := Recover(store.h, store.scan, config, image, op, s);
      case Reopens(config) =>
        next := Reopen(store.h, store.scan, config, store.disk.image, s);
        next.SteadyRecovers();
      case ReopensTwice(step, leaves, config) =>
        var image := OpeningCut(store.h, store.scan, config, store.disk.image, step, leaves, s);
        next := Reopen(store.h, store.scan, config, image, s);
        next.SteadyRecovers();
    }
  }

  ghost predicate IsRun(events: seq<Event>, oks: seq<bool>, seen: seq<Snapshot>) {
    && |oks| <= |events| && |seen| == |oks| + 1
    && forall i | 0 <= i < |oks| :: Follows(events[i], oks[i], seen[i], seen[i + 1])
  }

  lemma RunGrows(events: seq<Event>, oks: seq<bool>, seen: seq<Snapshot>, ok: bool, t: Snapshot)
    requires IsRun(events, oks, seen) && |oks| < |events| && Follows(events[|oks|], ok, seen[|oks|], t)
    ensures IsRun(events, oks + [ok], seen + [t])
  {
  }

  /** Any number of operations, failures, crashes and openings, in any order and under any
      configurations: each is accepted exactly when the state before it says so and leaves the
      state it should. The run ends early only when segment ids run out. */
  method Run(store: LedgerStore, events: seq<Event>) returns (last: LedgerStore, oks: seq<bool>, ghost seen: seq<Snapshot>)
    requires store.Standing() && forall i | 0 <= i < |events| :: CanHappen(events[i], store.clean)
    modifies store, store.disk
    ensures last.Standing() && IsRun(events, oks, seen)
    ensures seen[0] == old(StateOf(store)) && seen[|oks|] == StateOf(last)
    ensures |oks| == |events|
            || (IsOperation(events[|oks|]) && !Room(events[|oks|].op, last.nextSegmentId, last.Live()))
  {
    last, oks, seen := store, [], [StateOf(store)];
    for i := 0 to |events|
      invariant last.Standing() && last.clean == store.clean
      invariant last == store || (fresh(last) && fresh(last.disk))
      invariant |oks| == i && IsRun(events, oks, seen)
      invariant seen[0] == old(StateOf(store)) && seen[i] == StateOf(last)
    {
      if IsOperation(events[i]) {
        var room := HasRoom(last, events[i].op);
        if !room {
          return;
        }
      }
      var ok;
      last, ok := Happen(last, events[i]);
      RunGrows(events, oks, seen, ok, StateOf(last));
      oks, seen := oks + [ok], seen + [StateOf(last)];
    }
  }

  method HasRoom(store: LedgerStore, op: Operation) returns (room: bool)
    requires store.Standing()
    ensures room <==> Room(op, store.nextSegmentId, store.Live())
  {
    store.SoundLegible();
    var records := store.Replay();
    match op
    case Append(batch, _) => return store.nextSegmentId + 1 + |batch| <= U64_MAX;
    case Compaction(_, _) => return store.nextSegmentId + 1 + |records.value| <= U64_MAX;
  }
}
