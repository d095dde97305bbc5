/** What a granted request changes in the state of a ledger, part by part; and that it changes
    nothing else. */
module Effects {

  import opened Common
  import opened Fabric
  import opened Evidence
  import opened Folds
  import opened Revision
  import opened Lineage
  import opened Lifecycle
  import opened Fates

  /** Everything that concerns other periods stays. */
  ghost predicate OthersStay(s: Snapshot, s': Snapshot, id: PeriodId) {
    && s'.periods.Keys == s.periods.Keys
    && (forall other | other in s.periods && other != id :: s'.periods[other] == s.periods[other])
    && (forall other | other != id :: HistoryIn(s'.revisions, other) == HistoryIn(s.revisions, other))
    && (forall other | other != id :: CorrectionsIn(s'.corrections, other) == CorrectionsIn(s.corrections, other))
    && (forall other | other != id :: other in s'.correctionRequired <==> other in s.correctionRequired)
    && s'.observations == s.observations
  }

  /** The first revision of a period: no parent, no correction. */
  ghost predicate IsFirst(ledger: Ledger, r: PeriodRevision, id: PeriodId, at: Instant, reason: string) {
    && r.body.period == id && r.body.ordinal == 1 && r.body.parent == None && r.body.correction == None
    && r.body.closedAt == at && r.body.reason == reason && r.digest == ledger.naming.digest(r.body)
  }

  /** Closing gives an open period its first revision and marks it closed and no longer in need
      of correction. */
  lemma ClosedExactly(ledger: Ledger, s: Snapshot, s': Snapshot, id: PeriodId, at: Instant, reason: string)
    returns (r: PeriodRevision)
    requires ClosedAs(ledger, s, s', id, at, reason)
    ensures id in s.periods && OthersStay(s, s', id) && IsFirst(ledger, r, id, at, reason)
    ensures FromRetained(ledger, s, id, at, r.body.figures)
    ensures HistoryIn(s'.revisions, id) == HistoryIn(s.revisions, id) + [r]
    ensures CorrectionsIn(s'.corrections, id) == CorrectionsIn(s.corrections, id)
    ensures s'.periods[id] == Period(s.periods[id].ordinal, s.periods[id].name, Closed, 1, s.periods[id].ingested)
    ensures id !in s'.correctionRequired
  {
    var figures :| FromRetained(ledger, s, id, at, figures) && id in s.periods
      && s' == Promoted(s, id, Closed, FirstRevision(ledger.naming, id, at, reason, figures));
    r := FirstRevision(ledger.naming, id, at, reason, figures);
    KeptKeys(s.periods, id, s'.periods[id]);
  }

  lemma KeptKeys(periods: map<PeriodId, Period>, id: PeriodId, p: Period)
    requires id in periods
    ensures periods[id := p].Keys == periods.Keys
  {
    assert periods[id := p].Keys == periods.Keys + {id};
  }

  /** A revision that comes after another: it names it by digest and by the correction. */
  ghost predicate IsNext(ledger: Ledger, r: PeriodRevision, last: PeriodRevision, id: PeriodId, at: Instant, reason: string) {
    && r.body.period == id && r.body.ordinal == last.body.ordinal + 1 && r.body.parent == Some(last.digest)
    && r.body.correction == Some(ledger.naming.correction(id, r.body.ordinal, last.digest))
    && r.body.closedAt == at && r.body.reason == reason && r.digest == ledger.naming.digest(r.body)
  }

  /** The record of a correction ties the two revisions together and follows the last record. */
  ghost predicate IsRecordOf(c: CorrectionRecord, r: PeriodRevision, last: PeriodRevision, before: seq<CorrectionRecord>) {
    && r.body.correction == Some(c.id) && c.fromOrdinal == last.body.ordinal && c.toOrdinal == r.body.ordinal
    && c.parentDigest == last.digest && c.newDigest == r.digest
    && c.createdAt == r.body.closedAt && c.reason == r.body.reason
    && c.previous == if before == [] then None else Some(before[|before| - 1].newDigest)
  }

  /** Correcting gives a period one more revision and one more record of correction, and marks
      it superseded and no longer in need of correction. */
  lemma CorrectedExactly(ledger: Ledger, s: Snapshot, s': Snapshot, id: PeriodId, at: Instant, reason: string)
    returns (r: PeriodRevision, c: CorrectionRecord)
    requires CorrectedAs(ledger, s, s', id, at, reason)
    ensures id in s.periods && HistoryIn(s.revisions, id) != [] && OthersStay(s, s', id)
    ensures IsNext(ledger, r, Last(HistoryIn(s.revisions, id)), id, at, reason)
    ensures IsRecordOf(c, r, Last(HistoryIn(s.revisions, id)), CorrectionsIn(s.corrections, id))
    ensures FromRetained(ledger, s, id, at, r.body.figures)
    ensures HistoryIn(s'.revisions, id) == HistoryIn(s.revisions, id) + [r]
    ensures CorrectionsIn(s'.corrections, id) == CorrectionsIn(s.corrections, id) + [c]
    ensures s'.periods[id] ==
      Period(s.periods[id].ordinal, s.periods[id].name, Superseded, r.body.ordinal, s.periods[id].ingested)
    ensures id !in s'.correctionRequired
  {
    var history, cs := HistoryIn(s.revisions, id), CorrectionsIn(s.corrections, id);
    var figures :| FromRetained(ledger, s, id, at, figures) && id in s.periods && history != []
      && s' == Amended(ledger.naming, s, id, NextRevision(ledger.naming, id, Last(history), at, reason, figures));
    r := NextRevision(ledger.naming, id, Last(history), at, reason, figures);
    c := CorrectionFor(ledger.naming, id, cs, Last(history), r);
    KeptKeys(s.periods, id, s'.periods[id]);
  }

  // ---- ingesting -----------------------------------------------------------

  /** A record of the batch is late for a closed period, which asks for its correction. */
  ghost predicate IsLateFor(ledger: Ledger, s: Snapshot, batch: seq<Observation>, requested: Option<PeriodId>, id: PeriodId) {
    exists o | o in batch ::
      && Passed(ledger.topology, o) == 6 && BooksTo(s.periods.Keys, o, requested, id)
      && id in s.periods && s.periods[id].state != Open
  }

  lemma MarkExactly(
    policy: Policy, t: Topology, periods: map<PeriodId, Period>, requested: Option<PeriodId>, o: Observation, id: PeriodId)
    requires Disjoint(periods.Keys)
    ensures id in MarkOf(policy, t, periods, requested, o) <==>
      policy.late == RequiresCorrection && Passed(t, o) == 6 && BooksTo(periods.Keys, o, requested, id)
      && id in periods && periods[id].state != Open
  {
    DeclaredExactly(t, o);
    if IsWellFormed(o) {
      TargetExactly(periods, o, requested);
      if id in periods && BooksTo(periods.Keys, o, requested, id) {
        OnlyTarget(periods, o, requested, id);
      }
    }
  }

  lemma OnlyTarget(periods: map<PeriodId, Period>, o: Observation, requested: Option<PeriodId>, id: PeriodId)
    requires Disjoint(periods.Keys) && IsWellFormed(o) && id in periods && BooksTo(periods.Keys, o, requested, id)
    ensures TargetOf(periods.Keys, o, requested) == Some(id)
  {
    TargetExactly(periods, o, requested);
    assert IsPlaced(periods, o, requested);
    var other := TargetOf(periods.Keys, o, requested).value;
    if other != id {
      OnePeriodEach(id, other, o);
    }
  }

  lemma {:induction false} MarkedExactly(batch: seq<Observation>, mark: Observation -> set<PeriodId>, id: PeriodId)
    ensures id in Marked(batch, mark) <==> exists o | o in batch :: id in mark(o)
  {
    if batch != [] {
      var n := |batch| - 1;
      MarkedExactly(batch[..n], mark, id);
      SplitLast(batch);
      assert forall o :: o in batch <==> o in batch[..n] || o == batch[n];
    }
  }

  /** Ingesting adds the accepted records of a batch, in their order, books each to the period
      its window lies in, and asks for the correction of the closed periods that records of the
      batch are late for, when the policy has it so. */
  lemma IngestedExactly(
    ledger: Ledger, s: Snapshot, s': Snapshot, batch: seq<Observation>, requested: Option<PeriodId>, id: PeriodId)
    requires Ingested(ledger, s, s', batch, requested) && Disjoint(s.periods.Keys)
    ensures s'.revisions == s.revisions && s'.corrections == s.corrections && s'.periods.Keys == s.periods.Keys
    ensures s.observations <= s'.observations
    ensures id in s'.correctionRequired <==>
      id in s.correctionRequired
      || (ledger.policy.late == RequiresCorrection && IsLateFor(ledger, s, batch, requested, id))
    ensures id in s.periods ==>
      s'.periods[id] == Period(s.periods[id].ordinal, s.periods[id].name, s.periods[id].state, s.periods[id].currentRevision,
                               s.periods[id].ingested + Counted(s'.observations[|s.observations|..], LyingIn(id)))
  {
    var mark := Marker(ledger.policy, ledger.topology, s.periods, requested);
    var accepted := Accepts(ledger, batch, requested, s);
    MarkedExactly(batch, mark, id);
    forall o | o in batch
      ensures id in mark(o) <==>
        && ledger.policy.late == RequiresCorrection && Passed(ledger.topology, o) == 6
        && BooksTo(s.periods.Keys, o, requested, id) && id in s.periods && s.periods[id].state != Open
    {
      MarkExactly(ledger.policy, ledger.topology, s.periods, requested, o, id);
    }
    assert s'.observations[|s.observations|..] == accepted;
    CountInExactly(accepted, id);
  }

  function LyingIn(id: PeriodId): Observation -> bool {
    (o: Observation) => LiesIn(o, id)
  }

  lemma {:induction false} CountInExactly(accepted: seq<Observation>, id: PeriodId)
    ensures CountIn(accepted, id) == Counted(accepted, LyingIn(id))
  {
    if accepted != [] {
      CountInExactly(accepted[..|accepted| - 1], id);
    }
  }
}
