/** What the size budget of a store does and does not bound. */
module Budgets {

  import opened Common
  import opened Folds
  import opened Segment
  import opened Volume
  import opened Session
  import opened Placement
  import opened Store
  import opened Recovery
  import opened Leftovers

  /** The bytes of the frames of these records. */
  ghost function Framed(rs: seq<Record>): nat {
    BatchBytes(Entries(rs))
  }

  // ---- one append ----------------------------------------------------------

  /** The check counts frames only. What is reported after a success is within the budget exactly
      when the headers and footers of the new segments had room too. */
  lemma AppendWithinExactly(batch: seq<Entry>, at: I64, s: Snapshot, t: Snapshot)
    requires batch != [] && Outcome(Append(batch, at), true, s, t) && s.used == s.bytes
    ensures t.used == s.used + BatchBytes(batch) + SEAL_BYTES * SpreadOver(s.config, batch)
    ensures t.used <= s.config.maxBytes <==>
              BatchBytes(batch) + SEAL_BYTES * SpreadOver(s.config, batch) <= s.config.maxBytes - s.used
    ensures t.used <= s.config.maxBytes + SEAL_BYTES * SpreadOver(s.config, batch)
  {
  }

  /** A budget that one tiny record just meets. */
  function Tight(): StoreConfig {
    StoreConfig(Conservative, 26, 64, 1, true)
  }

  lemma TinyTakes(p: Entry)
    requires IsTiny(p)
    ensures BatchBytes([p]) == 26 && SpreadOf([p], 64) == Spread(1, 58) && Held(0, [p], 64, 1) == 1
    ensures AllWritable([p]) && AllReadable([p])
  {
    TwoTiny(p, p);
    assert [p][..0] == [];
  }

  /** An empty store with a budget of 26 bytes takes a record of 26 and then reports 110. */
  method BudgetOverrun(h: Hashes, p: Entry) returns (store: LedgerStore, appended: bool)
    requires IsTiny(p)
    ensures store.Standing() && appended
    ensures StateOf(store).used == 110 > StateOf(store).config.maxBytes
  {
    TinyTakes(p);
    store := OpenEmpty(h, Scanner(h), Tight());
    store.SteadyRecovers();
    ghost var s := StateOf(store);
    appended := Perform(store, Append([p], 0));
    AppendWithinExactly([p], 0, s, StateOf(store));
  }

  // ---- whole runs ----------------------------------------------------------

  /** Sizes are those of the records and of the segments they are in; no more is reported than
      there is. */
  ghost predicate Sized(s: Snapshot) {
    && s.clean && s.used <= s.bytes
    && s.bytes == SEAL_BYTES * s.slots + Framed(s.memory)
    && s.listedBytes == SEAL_BYTES * s.listed + Framed(s.published)
  }

  /** No more is kept than a ceiling; while another append may come, all of it is reported. */
  ghost predicate Below(s: Snapshot, ceiling: nat) {
    && s.config.maxBytes <= ceiling && Framed(s.memory) <= ceiling && Framed(s.published) <= ceiling
    && (s.slots < s.config.maxSegments ==> Framed(s.memory) <= s.used)
  }

  ghost predicate KeepsCeiling(event: Event, ceiling: nat) {
    && (IsOperation(event) ==> WithinBudget(event.op))
    && (!event.Completes? ==> event.config.maxBytes <= ceiling)
  }

  lemma GainedFramed(before: seq<Record>, after: seq<Record>, part: seq<Entry>)
    requires Gained(before, after, part) && AllReadable(part)
    ensures Framed(after) == Framed(before) + BatchBytes(part)
  {
    BatchBytesAppend(Entries(before), part);
  }

  lemma {:induction false} FilteredFramed(rs: seq<Record>, keep: Record -> bool)
    ensures Framed(Filtered(rs, keep)) <= Framed(rs)
  {
    if rs != [] {
      var n := |rs| - 1;
      var kept := Filtered(rs[..n], keep);
      FilteredFramed(rs[..n], keep);
      SplitLast(rs);
      EntriesLast(rs[..n], rs[n]);
      EntriesLast(kept, rs[n]);
      BatchBytesAppend(Entries(rs[..n]), Entries([rs[n]]));
      BatchBytesAppend(Entries(kept), Entries([rs[n]]));
      assert kept + [] == kept;
    }
  }

  /** When a batch does not find room, every segment that may be used has been. */
  lemma NoneLeft(config: StoreConfig, slots: nat, batch: seq<Entry>)
    requires TakenFrom(config, slots, batch) < |batch|
    ensures slots + SpreadOver(config, batch[..TakenFrom(config, slots, batch)]) >= config.maxSegments
  {
    var k := TakenFrom(config, slots, batch);
    HeldExactly(slots, batch, k + 1, config.maxSegmentBytes, config.maxSegments);
    TakeSucc(batch, k);
    SpreadNext(batch[..k], batch[k], config.maxSegmentBytes);
  }

  lemma AppendBelow(batch: seq<Entry>, at: I64, ok: bool, s: Snapshot, t: Snapshot, ceiling: nat)
    requires Sized(s) && Below(s, ceiling) && AllReadable(batch) && Outcome(Append(batch, at), ok, s, t)
    ensures Sized(t) && Below(t, ceiling)
  {
    if batch != [] && Admissible(s.config, s.slots, s.used, batch) {
      var k := TakenFrom(s.config, s.slots, batch);
      TakeAll(batch);
      assert AllReadable(batch[..k]);
      GainedFramed(s.memory, t.memory, batch[..k]);
      BatchBytesPrefix(batch, k);
      if k < |batch| {
        NoneLeft(s.config, s.slots, batch);
      }
    }
  }

  lemma CompactionBelow(keep: Record -> bool, at: I64, ok: bool, s: Snapshot, t: Snapshot, ceiling: nat)
    requires Sized(s) && Below(s, ceiling) && Outcome(Compaction(keep, at), ok, s, t)
    ensures Sized(t) && Below(t, ceiling)
  {
    var es := ToKeep(s, keep);
    var k := TakenFrom(s.config, 0, es);
    FilteredFramed(s.memory, keep);
    BatchBytesPrefix(es, k);
    if s.config.exclusive && k < |es| {
      NoneLeft(s.config, 0, es);
    }
  }

  lemma OutcomeBelow(op: Operation, ok: bool, s: Snapshot, t: Snapshot, ceiling: nat)
    requires Sized(s) && Below(s, ceiling) && WithinBudget(op) && Outcome(op, ok, s, t)
    ensures Sized(t) && Below(t, ceiling)
  {
    match op
    case Append(batch, at) => AppendBelow(batch, at, ok, s, t, ceiling);
    case Compaction(keep, at) => CompactionBelow(keep, at, ok, s, t, ceiling);
  }

  lemma RestoredBelow(s: Snapshot, t: Snapshot, config: StoreConfig, ceiling: nat)
    requires Sized(s) && Below(s, ceiling) && Restored(s, t, config) && config.maxBytes <= ceiling
    ensures Sized(t) && Below(t, ceiling) && t.used == t.bytes
  {
  }

  lemma FollowsBelow(event: Event, ok: bool, s: Snapshot, t: Snapshot, ceiling: nat)
    requires Sized(s) && Below(s, ceiling) && Follows(event, ok, s, t) && KeepsCeiling(event, ceiling)
    ensures Sized(t) && Below(t, ceiling)
  {
    match event
    case Completes(op) => OutcomeBelow(op, ok, s, t, ceiling);
    case Crashes(op, _, _, config) =>
      if Restored(s, t, config) {
        RestoredBelow(s, t, config, ceiling);
      } else {
        var u :| Succeeds(op, s, u) && Restored(u, t, config);
        OutcomeBelow(op, true, s, u, ceiling);
        RestoredBelow(u, t, config, ceiling);
      }
    case Reopens(config) => RestoredBelow(s, t, config, ceiling);
    case ReopensTwice(_, _, config) => RestoredBelow(s, t, config, ceiling);
  }

  /** Over any run, with whatever failures and crashes, opened with whatever budgets: the frames
      kept never take more than the largest budget, and the files exceed it by no more than a
      header and a footer for each segment. */
  lemma {:induction false} BudgetHolds(events: seq<Event>, oks: seq<bool>, seen: seq<Snapshot>, n: nat, ceiling: nat)
    requires IsRun(events, oks, seen) && n <= |oks| && Sized(seen[0]) && Below(seen[0], ceiling)
    requires forall i | 0 <= i < |oks| :: KeepsCeiling(events[i], ceiling)
    ensures Sized(seen[n]) && Below(seen[n], ceiling)
    ensures seen[n].listedBytes <= ceiling + SEAL_BYTES * seen[n].listed
    ensures seen[n].bytes <= ceiling + SEAL_BYTES * seen[n].slots
  {
    if n > 0 {
      BudgetHolds(events, oks, seen, n - 1, ceiling);
      assert Follows(events[n - 1], oks[n - 1], seen[n - 1], seen[n - 1 + 1]);
      FollowsBelow(events[n - 1], oks[n - 1], seen[n - 1], seen[n], ceiling);
    }
  }
}
