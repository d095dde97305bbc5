/** The revisions and corrections of one period, and the executable check of their lineage. */
module Lineage {

  import opened Common
  import opened Fabric
  import opened Evidence
  import opened Revision

  /** A period is named after its bounds, so equal bounds mean the same period. */
  type PeriodId = Window

  type Digest = nat
  type CorrectionId = nat

  /** Everything the content digest of a revision covers. */
  datatype RevisionBody = RevisionBody(
    period: PeriodId,
    ordinal: nat,
    parent: Option<Digest>,
    correction: Option<CorrectionId>,
    reason: string,
    closedAt: Instant,
    figures: Figures)

  datatype PeriodRevision = PeriodRevision(body: RevisionBody, digest: Digest)

  datatype CorrectionRecord = CorrectionRecord(
    id: CorrectionId,
    fromOrdinal: nat,
    toOrdinal: nat,
    createdAt: Instant,
    reason: string,
    parentDigest: Digest,
    newDigest: Digest,
    previous: Option<Digest>)

  /** How digests and correction identities are computed, left uninterpreted. */
  datatype Naming = Naming(digest: RevisionBody -> Digest, correction: (PeriodId, nat, Digest) -> CorrectionId)

  // ---- what every history looks like ---------------------------------------

  /** Revisions 1 to n, each naming the one before by its digest; the corrections are exactly
      the steps from each revision to the next, and form one chain of their own. */
  predicate Linear(naming: Naming, id: PeriodId, history: seq<PeriodRevision>, corrections: seq<CorrectionRecord>) {
    && |corrections| == (if history == [] then 0 else |history| - 1)
    && (forall i | 0 <= i < |history| :: RevisionFits(naming, id, history, corrections, i))
    && (forall i | 0 <= i < |corrections| :: CorrectionFits(naming, id, history, corrections, i))
  }

  predicate RevisionFits(
    naming: Naming, id: PeriodId, history: seq<PeriodRevision>, corrections: seq<CorrectionRecord>, i: nat)
    requires i < |history| && |history| <= |corrections| + 1
  {
    var r := history[i];
    && r.body.period == id && r.body.ordinal == i + 1 && r.digest == naming.digest(r.body)
    && r.body.parent == (if i == 0 then None else Some(history[i - 1].digest))
    && r.body.correction == (if i == 0 then None else Some(corrections[i - 1].id))
  }

  predicate CorrectionFits(
    naming: Naming, id: PeriodId, history: seq<PeriodRevision>, corrections: seq<CorrectionRecord>, i: nat)
    requires i < |corrections| && |corrections| < |history|
  {
    var c := corrections[i];
    && c.fromOrdinal == i + 1 && c.toOrdinal == i + 2
    && c.parentDigest == history[i].digest && c.newDigest == history[i + 1].digest
    && c.id == naming.correction(id, i + 2, history[i].digest)
    && c.previous == (if i == 0 then None else Some(corrections[i - 1].newDigest))
  }

  lemma LinearClosed(naming: Naming, id: PeriodId, body: RevisionBody)
    requires body.period == id && body.ordinal == 1 && body.parent == None && body.correction == None
    ensures Linear(naming, id, [PeriodRevision(body, naming.digest(body))], [])
  {
  }

  lemma LinearCorrected(
    naming: Naming, id: PeriodId, history: seq<PeriodRevision>, corrections: seq<CorrectionRecord>,
    r: PeriodRevision, c: CorrectionRecord)
    requires Linear(naming, id, history, corrections) && history != []
    requires RevisionFits(naming, id, history + [r], corrections + [c], |history|)
    requires CorrectionFits(naming, id, history + [r], corrections + [c], |corrections|)
    ensures Linear(naming, id, history + [r], corrections + [c])
  {
    var (h, cs) := (history + [r], corrections + [c]);
    forall i | 0 <= i < |h| ensures RevisionFits(naming, id, h, cs, i) {
      if i < |history| {
        assert RevisionFits(naming, id, history, corrections, i);
      }
    }
    forall i | 0 <= i < |cs| ensures CorrectionFits(naming, id, h, cs, i) {
      if i < |corrections| {
        assert CorrectionFits(naming, id, history, corrections, i);
      }
    }
  }

  // ---- the executable check ------------------------------------------------

  datatype Findings = Findings(revisionsChecked: nat, correctionsChecked: nat, failed: nat, breaks: nat, verified: nat)

  function Plus(f: Findings, g: Findings): Findings {
    Findings(f.revisionsChecked + g.revisionsChecked, f.correctionsChecked + g.correctionsChecked, f.failed + g.failed,
             f.breaks + g.breaks, f.verified + g.verified)
  }

  predicate Clean(f: Findings) {
    f.failed == 0 && f.breaks == 0
  }

  predicate DigestsHold(naming: Naming, history: seq<PeriodRevision>) {
    forall i | 0 <= i < |history| :: history[i].digest == naming.digest(history[i].body)
  }

  predicate Chained(history: seq<PeriodRevision>) {
    forall i | 0 <= i < |history| :: Linked(history, i)
  }

  predicate CorrectionsChained(corrections: seq<CorrectionRecord>) {
    forall i | 0 < i < |corrections| :: corrections[i].previous == Some(corrections[i - 1].newDigest)
  }

  predicate Matched(c: CorrectionRecord, history: seq<PeriodRevision>) {
    exists j | 0 <= j < |history| :: history[j].body.correction == Some(c.id)
  }

  predicate AllMatched(corrections: seq<CorrectionRecord>, history: seq<PeriodRevision>) {
    forall i | 0 <= i < |corrections| :: Matched(corrections[i], history)
  }

  /** The i-th revision names the one before it, or none when it is the first. */
  predicate Linked(history: seq<PeriodRevision>, i: nat)
    requires i < |history|
  {
    if i == 0 then history[i].body.parent.None?
    else history[i].body.parent == Some(history[i - 1].digest) && history[i].body.ordinal == history[i - 1].body.ordinal + 1
  }

  // ---- how much it finds ---------------------------------------------------

  function One(b: bool): nat {
    if b then 1 else 0
  }

  /** How many of the first n revisions do not have the digest of their content. */
  function Failures(naming: Naming, history: seq<PeriodRevision>, n: nat): nat
    requires n <= |history|
  {
    if n == 0 then 0
    else Failures(naming, history, n - 1) + One(history[n - 1].digest != naming.digest(history[n - 1].body))
  }

  /** A first revision with a parent is one break; a later one is one break when it does not
      name the one before it, and one when its number is not the next. */
  function Breaks(history: seq<PeriodRevision>, n: nat): nat
    requires n <= |history|
  {
    if n == 0 then 0
    else if n == 1 then One(history[0].body.parent.Some?)
    else
      var (r, last) := (history[n - 1], history[n - 2]);
      Breaks(history, n - 1) + One(r.body.parent != Some(last.digest)) + One(r.body.ordinal != last.body.ordinal + 1)
  }

  /** How many of the first n revisions name the one before them. */
  function Named(history: seq<PeriodRevision>, n: nat): nat
    requires n <= |history|
  {
    if n <= 1 then 0 else Named(history, n - 1) + One(history[n - 1].body.parent == Some(history[n - 2].digest))
  }

  function HistoryFindings(naming: Naming, history: seq<PeriodRevision>): Findings {
    Findings(|history|, 0, Failures(naming, history, |history|), Breaks(history, |history|), Named(history, |history|))
  }

  /** A record is one break when it does not follow the one before it, and one when no revision
      names it. */
  function Gaps(corrections: seq<CorrectionRecord>, history: seq<PeriodRevision>, n: nat): nat
    requires n <= |corrections|
  {
    if n == 0 then 0
    else
      Gaps(corrections, history, n - 1)
      + One(n > 1 && corrections[n - 1].previous != Some(corrections[n - 2].newDigest)) + One(!Matched(corrections[n - 1], history))
  }

  /** How many of the first n records follow the one before them. */
  function Followed(corrections: seq<CorrectionRecord>, n: nat): nat
    requires n <= |corrections|
  {
    if n <= 1 then 0 else Followed(corrections, n - 1) + One(corrections[n - 1].previous == Some(corrections[n - 2].newDigest))
  }

  function ChainFindings(corrections: seq<CorrectionRecord>, history: seq<PeriodRevision>): Findings {
    Findings(0, |corrections|, 0, Gaps(corrections, history, |corrections|), Followed(corrections, |corrections|))
  }

  lemma {:induction false} NoFailures(naming: Naming, history: seq<PeriodRevision>, n: nat)
    requires n <= |history|
    ensures Failures(naming, history, n) == 0 <==> forall i | 0 <= i < n :: history[i].digest == naming.digest(history[i].body)
  {
    if n > 0 {
      NoFailures(naming, history, n - 1);
    }
  }

  lemma {:induction false} NoBreaks(history: seq<PeriodRevision>, n: nat)
    requires n <= |history|
    ensures Breaks(history, n) == 0 <==> forall i | 0 <= i < n :: Linked(history, i)
  {
    if n > 0 {
      NoBreaks(history, n - 1);
      assert Linked(history, n - 1) <==> Breaks(history, n) == if n == 1 then 0 else Breaks(history, n - 1);
    }
  }

  /** Nothing is found exactly when every digest holds and every revision is linked. */
  lemma HistoryClean(naming: Naming, history: seq<PeriodRevision>)
    ensures Clean(HistoryFindings(naming, history)) <==> DigestsHold(naming, history) && Chained(history)
  {
    NoFailures(naming, history, |history|);
    NoBreaks(history, |history|);
  }

  lemma {:induction false} NoGaps(corrections: seq<CorrectionRecord>, history: seq<PeriodRevision>, n: nat)
    requires n <= |corrections|
    ensures Gaps(corrections, history, n) == 0 <==>
      && (forall i | 0 < i < n :: corrections[i].previous == Some(corrections[i - 1].newDigest))
      && (forall i | 0 <= i < n :: Matched(corrections[i], history))
  {
    if n > 0 {
      NoGaps(corrections, history, n - 1);
    }
  }

  lemma ChainClean(corrections: seq<CorrectionRecord>, history: seq<PeriodRevision>)
    ensures Clean(ChainFindings(corrections, history)) <==> CorrectionsChained(corrections) && AllMatched(corrections, history)
  {
    NoGaps(corrections, history, |corrections|);
  }

  /** The loop finds exactly what there is to find. */
  method CheckHistory(naming: Naming, history: seq<PeriodRevision>, before: Findings) returns (f: Findings)
    ensures f == Plus(before, HistoryFindings(naming, history))
  {
    f := before;
    for i := 0 to |history|
      invariant f.revisionsChecked == before.revisionsChecked + i && f.correctionsChecked == before.correctionsChecked
      invariant f.failed == before.failed + Failures(naming, history, i)
      invariant f.breaks == before.breaks + Breaks(history, i)
      invariant f.verified == before.verified + Named(history, i)
    {
      var r := history[i];
      f := f.(revisionsChecked := f.revisionsChecked + 1);
      if r.digest != naming.digest(r.body) {
        f := f.(failed := f.failed + 1);
      }
      if i == 0 {
        if r.body.parent.Some? {
          f := f.(breaks := f.breaks + 1);
        }
      } else {
        if r.body.parent != Some(history[i - 1].digest) {
          f := f.(breaks := f.breaks + 1);
        } else {
          f := f.(verified := f.verified + 1);
        }
        if r.body.ordinal != history[i - 1].body.ordinal + 1 {
          f := f.(breaks := f.breaks + 1);
        }
      }
    }
  }

  method CheckCorrections(
    corrections: seq<CorrectionRecord>, history: Option<seq<PeriodRevision>>, before: Findings) returns (f: Findings)
    ensures f == Plus(before, ChainFindings(corrections, if history.Some? then history.value else []))
  {
    f := before;
    var revisions := if history.Some? then history.value else [];
    for i := 0 to |corrections|
      invariant f.correctionsChecked == before.correctionsChecked + i
      invariant f.revisionsChecked == before.revisionsChecked && f.failed == before.failed
      invariant f.breaks == before.breaks + Gaps(corrections, revisions, i)
      invariant f.verified == before.verified + Followed(corrections, i)
    {
      var c := corrections[i];
      f := f.(correctionsChecked := f.correctionsChecked + 1);
      if i > 0 {
        if c.previous != Some(corrections[i - 1].newDigest) {
          f := f.(breaks := f.breaks + 1);
        } else {
          f := f.(verified := f.verified + 1);
        }
      }
      var matched := FindCorrection(c, revisions);
      if history.None? || !matched {
        f := f.(breaks := f.breaks + 1);
      }
    }
  }

  method FindCorrection(c: CorrectionRecord, history: seq<PeriodRevision>) returns (matched: bool)
    ensures matched <==> Matched(c, history)
  {
    matched := false;
    for j := 0 to |history|
      invariant matched <==> exists k | 0 <= k < j :: history[k].body.correction == Some(c.id)
    {
      if history[j].body.correction == Some(c.id) {
        matched := true;
      }
    }
  }

  /** A linear history passes every check. */
  lemma LinearPasses(naming: Naming, id: PeriodId, history: seq<PeriodRevision>, corrections: seq<CorrectionRecord>)
    requires Linear(naming, id, history, corrections)
    ensures DigestsHold(naming, history) && Chained(history)
    ensures CorrectionsChained(corrections) && AllMatched(corrections, history)
  {
    forall i | 0 <= i < |history|
      ensures history[i].digest == naming.digest(history[i].body)
      ensures Linked(history, i)
    {
      assert RevisionFits(naming, id, history, corrections, i);
      if i > 0 { assert RevisionFits(naming, id, history, corrections, i - 1); }
    }
    forall i | 0 <= i < |corrections|
      ensures i > 0 ==> corrections[i].previous == Some(corrections[i - 1].newDigest)
      ensures Matched(corrections[i], history)
    {
      assert CorrectionFits(naming, id, history, corrections, i);
      assert RevisionFits(naming, id, history, corrections, i + 1);
      assert history[i + 1].body.correction == Some(corrections[i].id);
    }
  }
}
