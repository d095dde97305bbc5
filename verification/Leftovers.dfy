/** What a failed operation leaves in memory, and what comes of it when the store goes on. */
module Leftovers {

  import opened Common
  import opened Folds
  import opened Segment
  import opened Volume
  import opened Session
  import opened Placement
  import opened Store
  import opened Recovery

  /** What the operation makes of a list of records. */
  ghost predicate Applied(op: Operation, before: seq<Record>, after: seq<Record>) {
    match op
    case Append(batch, _) => Gained(before, after, batch)
    case Compaction(keep, _) => Entries(after) == Entries(Filtered(before, keep))
  }

  /** Nothing is in memory but what is published. */
  ghost predicate Settled(s: Snapshot) {
    s.memory == s.published
  }

  // ---- when a failure leaves the store alone -------------------------------

  /** Whether a failure of the operation leaves the records in memory alone: an append that the
      checks turn away or whose first record already finds no room, and a compaction of a store
      that may not write. */
  ghost predicate Harmless(s: Snapshot, op: Operation) {
    match op
    case Append(batch, _) =>
      !Admissible(s.config, s.slots, s.used, batch) || TakenFrom(s.config, s.slots, batch) == 0
    case Compaction(_, _) => !s.config.exclusive
  }

  lemma HarmlessKeeps(op: Operation, s: Snapshot, t: Snapshot)
    requires Outcome(op, false, s, t) && Harmless(s, op)
    ensures t.memory == s.memory && t.published == s.published
  {
  }

  /** A failure that is not harmless changes how many records are in memory. */
  lemma FailureCounts(op: Operation, s: Snapshot, t: Snapshot)
    requires Outcome(op, false, s, t) && WithinBudget(op) && !Harmless(s, op)
    ensures |t.memory| != |s.memory|
  {
    if op.Append? {
      var k := TakenFrom(s.config, s.slots, op.batch);
      assert AllReadable(op.batch[..k]);
      assert |Entries(t.memory)| == |s.memory| + k;
    } else {
      assert |Entries(t.memory)| < |ToKeep(s, op.keep)| <= |s.memory|;
    }
  }

  /** A failed operation leaves the records in memory alone exactly when it is harmless, which
      its sizes and the reported state of the store tell beforehand. */
  lemma FailureExactly(op: Operation, s: Snapshot, t: Snapshot)
    requires Outcome(op, false, s, t) && WithinBudget(op)
    ensures t.memory == s.memory <==> Harmless(s, op)
    ensures t.published == s.published
  {
    if Harmless(s, op) {
      HarmlessKeeps(op, s, t);
    } else {
      FailureCounts(op, s, t);
    }
  }

  // ---- what surfaces later -------------------------------------------------

  /** The next append does to what was published what it should exactly when the store was settled. */
  lemma NextAppendExactly(batch: seq<Entry>, at: I64, s: Snapshot, t: Snapshot)
    requires batch != [] && AllReadable(batch) && Succeeds(Append(batch, at), s, t)
    ensures Applied(Append(batch, at), s.published, t.published) <==> Settled(s)
  {
    if Applied(Append(batch, at), s.published, t.published) {
      assert |Entries(t.memory)| == |s.memory| + |batch| == |s.published| + |batch|;
      assert s.memory == t.memory[..|s.memory|] == s.published;
    }
  }

  function KeepAll(at: I64): Operation {
    Compaction((r: Record) => true, at)
  }

  lemma {:induction false} AllFiltered(rs: seq<Record>, at: I64)
    ensures Filtered(rs, KeepAll(at).keep) == rs
  {
    if rs != [] {
      AllFiltered(rs[..|rs| - 1], at);
      SplitLast(rs);
    }
  }

  /** A compaction that drops nothing publishes whatever is in memory: so it leaves what was
      published as it was exactly when memory holds nothing else. */
  lemma NextCompactionExactly(at: I64, s: Snapshot, t: Snapshot)
    requires Succeeds(KeepAll(at), s, t)
    ensures Entries(t.published) == Entries(s.memory)
    ensures Applied(KeepAll(at), s.published, t.published) <==> Entries(s.memory) == Entries(s.published)
  {
    AllFiltered(s.memory, at);
    AllFiltered(s.published, at);
  }

  // ---- runs in which the store is opened again after a harmful failure -----

  ghost predicate Harmful(event: Event, ok: bool, s: Snapshot) {
    event.Completes? && !ok && !Harmless(s, event.op)
  }

  predicate IsOpening(event: Event) {
    event.Reopens? || event.ReopensTwice?
  }

  /** The store is opened again after every failure that is not harmless. */
  ghost predicate Careful(events: seq<Event>, oks: seq<bool>, seen: seq<Snapshot>)
    requires |oks| <= |events| && |oks| <= |seen|
  {
    forall i {:trigger seen[i]} | 0 <= i < |oks| - 1 && Harmful(events[i], oks[i], seen[i]) :: IsOpening(events[i + 1])
  }

  /** What is published before and after an event: an acknowledged operation has happened and a
      failed one has not; one cut short by a crash either has or has not. */
  ghost predicate KeepsPromise(event: Event, ok: bool, before: seq<Record>, after: seq<Record>) {
    match event
    case Completes(op) => if ok then Applied(op, before, after) else after == before
    case Crashes(op, _, _, _) => after == before || Applied(op, before, after)
    case _ => after == before
  }

  lemma SettledKeeps(event: Event, ok: bool, s: Snapshot, t: Snapshot)
    requires Follows(event, ok, s, t) && (Settled(s) || IsOpening(event))
    ensures KeepsPromise(event, ok, s.published, t.published)
    ensures Harmful(event, ok, s) || Settled(t)
  {
    if event.Completes? && !ok && Harmless(s, event.op) {
      HarmlessKeeps(event.op, s, t);
    }
  }

  lemma {:induction false} SettledUnless(events: seq<Event>, oks: seq<bool>, seen: seq<Snapshot>, i: nat)
    requires IsRun(events, oks, seen) && Settled(seen[0]) && Careful(events, oks, seen) && i < |oks|
    ensures Settled(seen[i]) || IsOpening(events[i])
  {
    if i > 0 {
      SettledUnless(events, oks, seen, i - 1);
      assert Follows(events[i - 1], oks[i - 1], seen[i - 1], seen[i - 1 + 1]);
      SettledKeeps(events[i - 1], oks[i - 1], seen[i - 1], seen[i]);
    }
  }

  /** As long as the store is opened again after every failure that is not harmless, nothing
      acknowledged is lost and nothing else appears. */
  lemma CarefulRunKeeps(events: seq<Event>, oks: seq<bool>, seen: seq<Snapshot>)
    requires IsRun(events, oks, seen) && Settled(seen[0]) && Careful(events, oks, seen)
    ensures forall i | 0 <= i < |oks| :: KeepsPromise(events[i], oks[i], seen[i].published, seen[i + 1].published)
  {
    forall i | 0 <= i < |oks| ensures KeepsPromise(events[i], oks[i], seen[i].published, seen[i + 1].published) {
      SettledUnless(events, oks, seen, i);
      SettledKeeps(events[i], oks[i], seen[i], seen[i + 1]);
    }
  }

  /** The opening is needed: when a settled store is used on after a failure that is not
      harmless, a compaction that drops nothing changes what is published. */
  lemma OpeningNeeded(op: Operation, s: Snapshot, t: Snapshot, at: I64, u: Snapshot)
    requires Settled(s) && WithinBudget(op) && Outcome(op, false, s, t) && !Harmless(s, op)
    requires Outcome(KeepAll(at), true, t, u)
    ensures Entries(u.published) == Entries(t.memory) != Entries(s.published)
    ensures !Applied(KeepAll(at), s.published, u.published)
  {
    NextCompactionExactly(at, t, u);
    FailureExactly(op, s, t);
    FailureCounts(op, s, t);
    AllFiltered(s.published, at);
  }

  // ---- runs under one segment budget ---------------------------------------

  /** The segments in use are within the budget, and as many as the records need at least. */
  ghost predicate Bounded(s: Snapshot) {
    && SegmentsFor(Entries(s.memory), s.config.maxSegmentBytes) <= s.slots <= s.config.maxSegments
    && SegmentsFor(Entries(s.published), s.config.maxSegmentBytes) <= s.listed <= s.config.maxSegments
  }

  predicate SameLimits(c: StoreConfig, d: StoreConfig) {
    c.maxSegmentBytes == d.maxSegmentBytes && c.maxSegments == d.maxSegments
  }

  lemma AllTaken(config: StoreConfig, es: seq<Entry>)
    requires SegmentsFor(es, config.maxSegmentBytes) <= config.maxSegments
    ensures TakenFrom(config, 0, es) == |es|
  {
  }

  /** While segments are counted by the budget they were written under, no compaction runs out
      of them: what is kept, packed again, needs no more than there were. */
  lemma CompactionAccepted(s: Snapshot, keep: Record -> bool, at: I64)
    requires Bounded(s)
    ensures Accepts(s, Compaction(keep, at)) <==> s.config.exclusive
    ensures SegmentsFor(ToKeep(s, keep), s.config.maxSegmentBytes) <= s.slots
  {
    FilterFits(s.memory, keep, s.config.maxSegmentBytes);
    AllTaken(s.config, ToKeep(s, keep));
  }

  lemma AppendBounded(s: Snapshot, t: Snapshot, part: seq<Entry>)
    requires Bounded(s) && AllReadable(part) && Gained(s.memory, t.memory, part) && s.slots < s.config.maxSegments
    requires FitsIn(s.slots, part, s.config.maxSegmentBytes, s.config.maxSegments)
    requires t.slots == s.slots + SpreadOver(s.config, part)
    ensures SegmentsFor(Entries(t.memory), s.config.maxSegmentBytes) <= t.slots <= s.config.maxSegments
  {
    JoinFits(Entries(s.memory), part, s.config.maxSegmentBytes);
  }

  lemma OutcomeBounded(op: Operation, ok: bool, s: Snapshot, t: Snapshot)
    requires Bounded(s) && WithinBudget(op) && Outcome(op, ok, s, t)
    ensures Bounded(t) && SameLimits(s.config, t.config)
    ensures op.Compaction? && s.config.exclusive ==> ok
  {
    if op.Compaction? {
      CompactionAccepted(s, op.keep, op.at);
    } else if op.batch != [] && Admissible(s.config, s.slots, s.used, op.batch) {
      var k := TakenFrom(s.config, s.slots, op.batch);
      HeldExactly(s.slots, op.batch, k, s.config.maxSegmentBytes, s.config.maxSegments);
      assert AllReadable(op.batch[..k]);
      TakeAll(op.batch);
      AppendBounded(s, t, op.batch[..k]);
    }
  }

  ghost predicate KeepsLimits(event: Event, config: StoreConfig) {
    && (IsOperation(event) ==> WithinBudget(event.op))
    && (!event.Completes? ==> SameLimits(config, event.config))
  }

  lemma FollowsBounded(event: Event, ok: bool, s: Snapshot, t: Snapshot)
    requires Bounded(s) && Follows(event, ok, s, t) && KeepsLimits(event, s.config)
    ensures Bounded(t) && SameLimits(s.config, t.config)
    ensures event.Completes? && event.op.Compaction? && s.config.exclusive ==> ok
  {
    match event
    case Completes(op) => OutcomeBounded(op, ok, s, t);
    case Crashes(op, _, _, config) =>
      if !Restored(s, t, config) {
        var u :| Succeeds(op, s, u) && Restored(u, t, config);
        OutcomeBounded(op, true, s, u);
      }
    case _ =>
  }

  // ---- nothing acknowledged is lost ----------------------------------------

  /** What is published stays, but for what a compaction was told to drop; more may join it. */
  ghost predicate Survives(event: Event, ok: bool, before: seq<Record>, after: seq<Record>) {
    match event
    case Completes(op) => if ok then Outlives(op, before, after) else after == before
    case Crashes(op, _, _, _) => after == before || Outlives(op, before, after)
    case _ => after == before
  }

  ghost predicate Outlives(op: Operation, before: seq<Record>, after: seq<Record>) {
    match op
    case Append(_, _) => before <= after
    case Compaction(keep, _) => Entries(Filtered(before, keep)) <= Entries(after)
  }

  lemma FilteredPrefix(before: seq<Record>, after: seq<Record>, keep: Record -> bool)
    requires before <= after
    ensures Entries(Filtered(before, keep)) <= Entries(Filtered(after, keep))
  {
    assert after == before + after[|before|..];
    FilteredAppend(before, after[|before|..], keep);
    EntriesAppend(Filtered(before, keep), Filtered(after[|before|..], keep));
  }

  lemma SuccessOutlives(op: Operation, s: Snapshot, t: Snapshot)
    requires s.published <= s.memory && Succeeds(op, s, t)
    ensures Outlives(op, s.published, t.published) && t.published <= t.memory
  {
    if op.Compaction? {
      FilteredPrefix(s.published, s.memory, op.keep);
    }
  }

  lemma FollowsSurvives(event: Event, ok: bool, s: Snapshot, t: Snapshot)
    requires Bounded(s) && s.published <= s.memory && Follows(event, ok, s, t)
    ensures Survives(event, ok, s.published, t.published) && t.published <= t.memory
  {
    match event
    case Completes(op) =>
      if ok {
        SuccessOutlives(op, s, t);
      } else if op.Compaction? {
        CompactionAccepted(s, op.keep, op.at);
      }
    case Crashes(op, _, _, config) =>
      if !Restored(s, t, config) {
        var u :| Succeeds(op, s, u) && Restored(u, t, config);
        SuccessOutlives(op, s, u);
      }
    case _ =>
  }

  /** Under one segment budget, however a store is used on after its failures: compactions never
      fail, and nothing acknowledged is ever lost; only parts of refused batches may join it. */
  lemma {:induction false} NothingLost(events: seq<Event>, oks: seq<bool>, seen: seq<Snapshot>, n: nat)
    requires IsRun(events, oks, seen) && n <= |oks|
    requires Bounded(seen[0]) && seen[0].published <= seen[0].memory
    requires forall i | 0 <= i < |oks| :: KeepsLimits(events[i], seen[0].config)
    ensures Bounded(seen[n]) && seen[n].published <= seen[n].memory && SameLimits(seen[0].config, seen[n].config)
    ensures forall i | 0 <= i < n :: Survives(events[i], oks[i], seen[i].published, seen[i + 1].published)
    ensures forall i | 0 <= i < n ::
              events[i].Completes? && events[i].op.Compaction? && seen[i].config.exclusive ==> oks[i]
  {
    if n > 0 {
      var i := n - 1;
      NothingLost(events, oks, seen, i);
      assert Follows(events[i], oks[i], seen[i], seen[i + 1]);
      FollowsBounded(events[i], oks[i], seen[i], seen[i + 1]);
      FollowsSurvives(events[i], oks[i], seen[i], seen[i + 1]);
    }
  }

  // ---- two records and one segment -----------------------------------------

  predicate IsTiny(e: Entry) {
    |e.payload| == 1
  }

  /** Segments so small that each holds one tiny record. */
  function Cramped(maxSegments: nat): StoreConfig {
    StoreConfig(Conservative, 1000, 64, maxSegments, true)
  }

  lemma TwoTiny(p: Entry, q: Entry)
    requires IsTiny(p) && IsTiny(q)
    ensures SpreadOf([p], 64) == Spread(1, 58) && SpreadOf([p, q], 64) == Spread(2, 58)
    ensures Held(0, [p], 64, 1) == 1 && Held(0, [p, q], 64, 1) == 1 && Held(0, [p, q], 64, 2) == 2
    ensures BatchBytes([p, q]) == 52 && AllReadable([p, q]) && AllWritable([p, q])
  {
    SpreadNext([], p, 64);
    SpreadNext([p], q, 64);
    assert [] + [p] == [p] && [p] + [q] == [p, q] && [p, q][..1] == [p];
    assert BatchBytes([p]) == 26;
  }

  /** A store in a directory with nothing in it. */
  method OpenEmpty(h: Hashes, ghost scan: Reading, config: StoreConfig) returns (store: LedgerStore)
    requires ReadsAs(h, scan) && CanOpen(config, true)
    ensures fresh(store) && fresh(store.disk) && store.clean && store.h == h && store.scan == scan
    ensures store.Steady() && store.nextSegmentId == 1 && StateOf(store) == Snapshot([], [], 0, 0, 0, 0, 0, true, config)
  {
    var disk := new Disk(Image(map[], Absent));
    var r := LedgerStore.Open(h, scan, config, disk, true, []);
    store := r.value;
    RebuiltPresent(scan, map[], store.segments);
    store.SameCount();
  }

  lemma SecondFindsNoRoom(p: Entry, q: Entry, ok: bool, s: Snapshot, t: Snapshot)
    requires IsTiny(p) && IsTiny(q) && Outcome(Append([p, q], 0), ok, s, t)
    requires s == Snapshot([], [], 0, 0, 0, 0, 0, true, Cramped(1))
    ensures !ok && Entries(t.memory) == [p] && t.config == Cramped(1)
  {
    TwoTiny(p, q);
    assert [p, q][..1] == [p] && AllReadable([p]);
  }

  lemma OneKept(p: Entry, ok: bool, s: Snapshot, t: Snapshot)
    requires IsTiny(p) && Entries(s.memory) == [p] && s.config == Cramped(1) && Outcome(KeepAll(0), ok, s, t)
    ensures ok && Entries(t.published) == [p]
  {
    TwoTiny(p, p);
    AllFiltered(s.memory, 0);
  }

  /** A batch of two records that one segment cannot hold is refused, whole by its promise; the
      compaction its error asks for then publishes the first of them. */
  method RefusedRecordPublished(h: Hashes, p: Entry, q: Entry) returns (store: LedgerStore, appended: bool, compacted: bool)
    requires IsTiny(p) && IsTiny(q)
    ensures store.Standing() && !appended && compacted
    ensures Entries(StateOf(store).published) == [p]
  {
    store := OpenEmpty(h, Scanner(h), Cramped(1));
    store.SteadyRecovers();
    TwoTiny(p, q);
    ghost var s := StateOf(store);
    appended := Perform(store, Append([p, q], 0));
    ghost var t := StateOf(store);
    SecondFindsNoRoom(p, q, appended, s, t);
    compacted := Perform(store, KeepAll(0));
    OneKept(p, compacted, t, StateOf(store));
  }

  /** With room for two segments both records are acknowledged. */
  method BothAcknowledged(h: Hashes, p: Entry, q: Entry) returns (store: LedgerStore, appended: bool)
    requires IsTiny(p) && IsTiny(q)
    ensures fresh(store) && fresh(store.disk) && store.Standing() && store.h == h && store.scan == Scanner(h) && store.clean
    ensures store.nextSegmentId <= 4 && appended && Entries(StateOf(store).published) == [p, q]
  {
    TwoTiny(p, q);
    store := OpenEmpty(h, Scanner(h), Cramped(2));
    store.SteadyRecovers();
    appended := Perform(store, Append([p, q], 0));
  }

  /** Two acknowledged records, opened again under a smaller segment budget: a compaction that
      drops nothing is refused, and when it is tried again the second record is gone. */
  method AcknowledgedRecordLost(h: Hashes, p: Entry, q: Entry)
    returns (store: LedgerStore, appended: bool, compacted: bool, again: bool)
    requires IsTiny(p) && IsTiny(q)
    ensures store.Standing() && appended && !compacted && again
    ensures Entries(StateOf(store).published) == [p]
  {
    var first;
    first, appended := BothAcknowledged(h, p, q);
    ghost var s := StateOf(first);
    StandingHolds(first);
    NextAfterAll(first.disk.image.published.manifest.segments, first.nextSegmentId);
    store := Reopen(h, Scanner(h), Cramped(1), first.disk.image, s);
    store.SteadyRecovers();
    compacted, again := CompactTwice(store, p, q);
  }

  lemma SecondLeftOut(p: Entry, q: Entry, ok: bool, s: Snapshot, t: Snapshot)
    requires IsTiny(p) && IsTiny(q) && Entries(s.memory) == [p, q] && s.config == Cramped(1)
    requires Outcome(KeepAll(0), ok, s, t)
    ensures !ok && Entries(t.memory) == [p] && t.config == Cramped(1)
  {
    TwoTiny(p, q);
    AllFiltered(s.memory, 0);
    assert [p, q][..1] == [p];
  }

  method CompactTwice(store: LedgerStore, p: Entry, q: Entry) returns (compacted: bool, again: bool)
    requires IsTiny(p) && IsTiny(q) && store.Standing() && store.nextSegmentId <= 4
    requires store.config == Cramped(1) && Entries(store.Live()) == [p, q]
    modifies store, store.disk
    ensures store.Standing() && !compacted && again
    ensures Entries(StateOf(store).published) == [p]
  {
    ghost var s := StateOf(store);
    compacted := Perform(store, KeepAll(0));
    ghost var t := StateOf(store);
    SecondLeftOut(p, q, compacted, s, t);
    again := Perform(store, KeepAll(0));
    OneKept(p, again, t, StateOf(store));
  }
}
