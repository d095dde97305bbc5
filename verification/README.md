# Fabric Efficiency Ledger: verified model

A Dafny model of the Fabric Efficiency Ledger with machine-checked proofs of what the ledger
promises: nothing is counted twice, unknown quantities are never treated as zero, history is never
rewritten, and a crash never loses a commit. `dafny verify dfyconfig.toml` checks the whole project.

## Layout

| files | what they model |
|---|---|
| `Common`, `Arith`, `Folds`, `Ordering`, `Bytes`, `Decimals` | 64-bit words, checked arithmetic, order-free sums, an unstable sort, little-endian words, decimal text |
| `Fabric`, `Evidence`, `Dispute`, `Derivation`, `DerivationTheorems`, `Conflicts` | evidence records and policies, and the derivation as a function of the multiset of considered records; what that function guarantees; what its conflict records say |
| `Acceptance`, `Attribution`, `Settlement`, `Refusals`, `Redelivery`, `ListOrder` | the same derivation in terms of the records and the topology alone: who is admitted, where a record counts, which amount a disputed cell gets, who is rejected for what, what one more copy adds, and the order of its lists |
| `Grouping`, `Admission`, `Cells`, `DerivationRun` | the derivation as the source runs it: loops over sorted vectors, maps and sets, proved to compute that function |
| `Claims`, `Conservation`, `Efficiency`, `Balances`, `Revision`, `Agreement`, `Undisputed`, `WrappedRatio` | the three folds and what they add up to, the end-to-end results about a whole revision, when two revisions agree, and a ledger that reports a wrapped ratio |
| `Segment`, `SegmentLayout`, `SegmentTheorems`, `Volume`, `Session`, `Placement`, `Store`, `SavedTimes`, `Recovery`, `Leftovers`, `Budgets` | segment bytes, the directory and what a crash may leave of it, how many segments a batch takes, the `LedgerStore` class, runs with failures and crashes at any step, what a failure leaves in memory, and what the size budget bounds |
| `Forest`, `Sweep`, `Validation`, `ValidTopology`, `Topologies`, `Rollup` | the topology document as a class, its validation and what it amounts to, its searches, and the hierarchical rollup |
| `Lineage`, `Lifecycle`, `Fates`, `Effects`, `Creation` | the `Ledger` class: creation, periods, ingest, closing, correcting, the integrity check, and any run of them; what becomes of each record of a batch, and what each request changes |
| `Calendar`, `Timestamp`, `Rfc3339`, `Sha256`, `Pool`, `Draining` | calendar arithmetic, instants as text and their grammar, streaming SHA-256, the bounded-queue thread pool as interleaved steps, and when its shutdown ends |
| `JsonText`, `JsonPrinting`, `JsonTokens`, `JsonStrings`, `JsonNumbers`, `JsonLayout`, `JsonParser`, `JsonRoundTrip` | writing JSON and the layout of what is written, its tokens and their grammar, texts of a value with any white space and any order of members, the strict parser, the round trip |

## How the model is built

- Identities are natural numbers ordered as the source orders them, with 0 for the nil identity. A
  content digest is the content itself; record digests, revision digests and period identities are
  taken to be free of collisions (a period's identity is its bounds). Amounts and counts are 64-bit:
  checked additions, wrapping additions and saturating ones are written out where the source has them.
- `std::sort` is a method whose caller learns only that the result is some sorted permutation.
- What the source updates in place is a class with the source's fields (`LedgerStore`,
  `FabricTopology`, `Ledger`, `Hasher`, `ThreadPool`, `JsonParser`); its loops are loops, proved
  against specification functions.
- The disk records the directory after every single step. A crash keeps the published manifest and
  every synced file, and may lose, cut, garble or bring back any other file.
- CRC-32C, SHA-256's compression function, and which number literals are finite doubles are parameters.

Where the code and its comments disagree the model follows the code:

- `intervals_overlap` is described as half-open, but an interval that ends at the instant the next one
  starts overlaps it (`src/topology.cpp:40-50`).
- The integrity check matches a correction to a revision by identity only; the digest comparison it
  also makes is overwritten (`src/ledger.cpp:3031-3038`).

Behaviour found that a caller may not expect, each stated exactly and with an example:

- A payload in the last 17 bytes below the record budget is accepted by the writer and refused by the
  scanner (`SegmentTheorems.RoundTrip`, `SegmentTheorems.OversizeRecordIsLost`).
- Redelivering a record under a larger identity than some copy of it never changes a count, but makes
  the efficiency of its measure indeterminate (`Revision.RedeliveryBlocksEfficiency`); under a smaller
  identity than every copy it takes their place, and may not be admissible itself
  (`DerivationTheorems.SmallerIdentityDisplaces`).
- That one redelivered copy adds two rejections, one for its origin and one for its source sequence, and
  is counted as two suppressed duplicates (`Redelivery.CopyRejectedTwice`, `Redelivery.CopyCountsTwice`).
- A record repeated in a later batch is suppressed, but repeated within one batch it is stored twice, and
  from then on no derivation counts either copy (`Fates.TwiceInBatches`, `Fates.TwiceInOneBatch`).
- The per-usefulness sums wrap while the denominator saturates, so an overflowing measure can be
  reported as determinate with a wrong ratio (`Efficiency.DenominatorExactly`,
  `WrappedRatio.WrappedSumStaysDeterminate`, and `WrappedRatio.LedgerMisreports`, in which a ledger is created,
  accepts three observations and closes their period); the rounding term of the per-mille figure wraps too
  (`Efficiency.PermilleExactly`, `Efficiency.AllUsefulReportedAsNothing`).
- A conservation difference beyond 63 bits is stored saturated (`Conservation.DeltaExact`,
  `Conservation.ResidualSaturates`).
- Under the reject tie break two weak sources that tie first leave a dispute open that the strongest
  source would settle (`Dispute.AuthorityAloneDecides`, `Dispute.WeakTieBlocksTheStrongestSource`).
- Evidence order is meant not to influence a derivation, but records may share an evidence identity, and
  the conflict record of a divergent group of them is filed under the one that happens to stand first;
  exactly when those agree the order does not show (`Conflicts.OrderShowsExactly`,
  `Conflicts.StorageOrderShows`).
- The earliest instants are written to the millisecond as texts that are refused when read
  (`Timestamp.ParseFormatted`, `Timestamp.EarliestIsRefused`).
- The manifest keeps its watermark to the millisecond, so opening a store again moves it back by up to
  that (`SavedTimes.SavedAsText`, `SavedTimes.SavedExactly`).
- An append or compaction that runs out of segments publishes nothing but changes the list in memory,
  and the store goes on with it. Whether a failure is harmless can be told beforehand from sizes and
  the reported state (`Leftovers.FailureExactly`). Used on, the store publishes part of the refused
  batch at its next compaction (`Leftovers.RefusedRecordPublished`); reopened under a smaller segment
  budget, a compaction tried twice loses acknowledged records (`Leftovers.AcknowledgedRecordLost`).
  Opening the store again after a harmful failure is enough to keep every promise
  (`Leftovers.CarefulRunKeeps`) and needed (`Leftovers.OpeningNeeded`); while the segment limits stay
  the same, compactions never fail and nothing acknowledged is lost even without it
  (`Leftovers.NothingLost`).
- The size budget is checked against frames only, while segment headers and footers are reported too:
  an append may leave more than the budget, and does exactly when the new segments' headers and footers
  had no room (`Budgets.AppendWithinExactly`, `Budgets.BudgetOverrun`; docs/PROOF.md:256 promises a
  refusal). What is kept exceeds the budget by no more than those, over any run (`Budgets.BudgetHolds`).

## Model

| member | source | states |
|---|---|---|
| `Common.AddChecked` | include/fel/checked.hpp:26-32 | the guarded sum exists exactly when it fits 64 bits, and is then exact |
| `Common.MulChecked` | include/fel/checked.hpp:42-51 | the division guard refuses exactly the products that do not fit 64 bits |
| `Evidence.AssessAdmissibility` | src/freshness.cpp:79-153 | a record is accepted exactly when its origin has no fault and its age is within the policy; otherwise the reason is the first fault of origin, or what its times say |
| `Evidence.OriginFault` | src/freshness.cpp:85-136 | each reason is given exactly when the source, incarnation, epoch or generation is at fault, in that order |
| `Evidence.OnlyAges` | src/freshness.cpp:24-77 | seen later a record is never in a younger class, and an expired one is never usable again |
| `Dispute.ResolveAmountDispute` | src/ledger.cpp:121-192 | the walk over amounts and sources computes the specified resolution, strict failure included |
| `Dispute.WalkSources` | src/ledger.cpp:144-166 | the nested loops find the preference the walk order determines |
| `Dispute.ExtremeSourceDecides` | src/ledger.cpp:139-187 | under a deterministic tie break the extreme-identity source of maximal authority decides, whatever the amounts, and exactly when it reports one amount |
| `Dispute.AuthorityAloneDecides` | src/ledger.cpp:139-187 | preferring authority and rejecting ties resolves exactly when no running tie is met and the unique strongest source reports one amount, which is the result |
| `Dispute.WeakTieBlocksTheStrongestSource` | src/ledger.cpp:152-163 | a tie of weaker sources met first leaves the dispute open although one strongest source gives one amount |
| `Grouping.GroupBy` | src/ledger.cpp:325-332 | grouping a vector by a key keeps exactly the records with that key, in order |
| `Grouping.ExcludeCollision` | src/ledger.cpp:305-322 | records that share an evidence identity are all excluded and all rejected |
| `Grouping.ExcludeGroup` | src/ledger.cpp:334-377 | an identical group keeps one record with the lowest identity, a divergent one keeps none; the rejections are the specified multiset, and a divergent group leaves one conflict record filed under its front |
| `Grouping.FrontIsFirst` | src/ledger.cpp:346-356 | whichever of several equal records an unstable sort leaves in front, the rejections are the same |
| `Grouping.DropsWhenOutranked` | src/ledger.cpp:334-384 | a group drops a record exactly when a copy of another content or a smaller identity shares its key |
| `Admission.SelectCandidates` | src/ledger.cpp:273-285 | the candidates are exactly the records whose window lies in the period, ordered by identity |
| `Admission.Exclude` | src/ledger.cpp:305-384 | the excluded identities are those of colliding and outranked records, with the specified rejections and conflict records |
| `Admission.PeakEpochs` | src/ledger.cpp:386-393 | the peak of an incarnation is taken over all candidates, excluded ones included |
| `Admission.Judge` | src/ledger.cpp:406-431 | source, provenance, epoch fence and admissibility are checked in the source's order; the stale mark of the revision is never set |
| `Admission.Admit` | src/ledger.cpp:400-433 | exactly the admitted records are listed and the others rejected for their reason |
| `Cells.Correlate` | src/ledger.cpp:435-475 | admitted records are split into attributed contributions, totals and unattributable records |
| `Cells.SettleCell` | src/ledger.cpp:484-572 | one cell and window yields its specified contribution, rejections and conflict, or the strict failure |
| `DerivationRun.SettleCells` | src/ledger.cpp:477-572 | over all cells: the contributions, rejections and conflicts of the derivation |
| `DerivationRun.SettleTotals` | src/ledger.cpp:574-618 | the totals kept, the disagreements reported and the conflict records written are those of the derivation |
| `DerivationRun.UnknownBucket` | src/ledger.cpp:107-111 | each unknown entry is in the bucket once |
| `DerivationRun.RunDerivation` | src/ledger.cpp:267-631 | the pass fails exactly on a disputed cell under the strict policy and otherwise computes the derivation of the considered records: contributions, totals, rejections, unknowns, conflict records and counts |
| `DerivationTheorems.AdmittedAreDistinct` | src/ledger.cpp:305-433 | among admitted records evidence identities, delivery origins and source sequences are pairwise distinct |
| `DerivationTheorems.CountedAtMostOnce` | src/ledger.cpp:478-572 | a cell and window, and an evidence identity, is counted at most once |
| `DerivationTheorems.CountedRecord` | src/ledger.cpp:386-433 | what is counted is one admitted record of that cell, at the peak epoch of its declared incarnation |
| `DerivationTheorems.RedeliveryInvariance` | src/ledger.cpp:346-356 | copies under new identities, each larger than that of some record it repeats, change no admission, contribution, kept total or resolved conflict |
| `DerivationTheorems.SmallerIdentityDisplaces` | src/ledger.cpp:346-356 | a copy under a smaller identity takes the place of the admitted record it repeats, and is admitted exactly when it is admissible itself |
| `DerivationTheorems.OrderIndependence` | src/ledger.cpp:259-266 | any two derivations of permuted evidence agree on contributions, totals, rejections, unknowns and counts |
| `Acceptance.AdmittedExactly` | src/ledger.cpp:305-433 | a considered record is admitted exactly when no other has its identity, no record of its origin or sequence has another content or a lower identity, its source may be counted and has reported no later epoch, the rules about its origin hold in the topology, and its times are within the policy |
| `Acceptance.ConsideredExactly` | src/ledger.cpp:273-279 | the candidates are the records whose window starts and ends within the period |
| `Acceptance.PlacedExactly` | src/freshness.cpp:97-136 | what the rules about incarnation, boot epoch and generation binding amount to |
| `Attribution.CountedWhereItBelongs` | src/ledger.cpp:194-250 | whatever is counted is one admitted record, under its own generation, measure, category and window, and under the scope, basis and identity of the first of resource, path, flow and reservation it names, or under none when it names none, with the provenance and authority of its source |
| `Attribution.KeptExactly` | src/ledger.cpp:574-618 | a kept total is the one of lowest identity among the admitted totals of its domain and window, which all report its amount; the domain has the scope of the entity named first |
| `Attribution.LostAreRejected` | src/ledger.cpp:435-475 | an admitted contribution is rejected as not attributable exactly when the entity it names first, or the scope of that resource, is not defined |
| `Settlement.CountedAmount` | src/ledger.cpp:112-192 | under any policy the amount counted for a cell is the only one some source of the cell reports, taken from the record of lowest identity that reports it |
| `Settlement.DefaultLeavesOpen` | src/ledger.cpp:121-192 | with more than one amount, recording conflicts and rejecting ties leaves a dispute unresolved |
| `Settlement.DisputesStayOpen` | src/ledger.cpp:484-572 | under that policy no cell with two amounts is counted, and each of its records is rejected as disputed |
| `Settlement.LeaderDecides` | src/ledger.cpp:139-187 | where ties are broken by identity a disputed cell is counted exactly when its leading source reports one amount, which is the one counted |
| `Settlement.AuthorityDecides` | src/ledger.cpp:139-187 | preferring authority and rejecting ties, only the one amount of the only source of highest authority is ever counted for a disputed cell, and exactly when it reports one if all authorities differ |
| `Settlement.AgreementIsCounted` | src/ledger.cpp:484-528 | a cell whose records agree is counted under every policy |
| `Settlement.StrictExactly` | src/ledger.cpp:112-137 | the strict policy refuses exactly when the records of some cell disagree |
| `Settlement.DisputedExactly` | src/ledger.cpp:529-570 | records are rejected as disputed exactly when nothing is counted for their cell |
| `Settlement.OnlyEquivalent` | src/ledger.cpp:505-528 | only records of an agreeing cell that has a lower identity are rejected as equivalent |
| `Settlement.EquivalentRejected` | src/ledger.cpp:505-528 | and all of those are |
| `Settlement.StaleExactly` | src/ledger.cpp:484-528 | a contribution is marked stale exactly when its cell agrees and the record counted is older than fresh |
| `Refusals.RefusedForAReason` | src/ledger.cpp:400-433 | a record that stands alone is refused exactly when it is not admitted, and the reason given is true of it |
| `Refusals.CollidedExactly` | src/ledger.cpp:305-322 | records are rejected for their evidence identity exactly when they share it |
| `Refusals.OriginDivergedExactly` | src/ledger.cpp:334-384 | they are rejected as divergent exactly when their origin comes with another content |
| `Refusals.SequenceDivergedExactly` | src/ledger.cpp:334-384 | and exactly when their source sequence does |
| `Refusals.DuplicatedExactly` | src/ledger.cpp:334-384 | they are rejected as duplicates exactly when all of their origin or sequence are alike and another has no higher identity |
| `Refusals.BucketExactly` | src/ledger.cpp:287-303 | the unknown bucket holds exactly one entry for each rejection and each disagreement of totals |
| `Redelivery.CopyRejectedTwice` | src/ledger.cpp:334-384 | a redelivered copy adds exactly two rejections of itself |
| `Redelivery.CopyCountsTwice` | src/ledger.cpp:334-384 | and counts as two suppressed duplicates, and as one record considered |
| `ListOrder.ContributionsInOrder` | src/ledger.cpp:620-625 | contributions are listed by the fields of their cell, then by window, then by evidence: the first difference decides, and enumerations are ordered as declared |
| `ListOrder.RejectionsInOrder` | include/fel/claim.hpp:102-107 | rejections are listed by reason, then by source, then by evidence |
| `ListOrder.UnknownsInOrder` | include/fel/measure.hpp:183-189 | unknown entries are listed by scope, then by generation, measure and reason |
| `Conflicts.ContradictionsOnRecord` | src/ledger.cpp:357-570 | a record is rejected for divergent deliveries or an open dispute exactly when an unresolved conflict record of that matter names it |
| `Conflicts.DisagreementsOnRecord` | src/ledger.cpp:585-613 | conflict records about totals name exactly the admitted totals that disagree within their domain and window |
| `Conflicts.ResolvedOnRecord` | src/ledger.cpp:529-564 | the resolved conflict records of cells are exactly the disputes the policy settled |
| `Conflicts.OrderShowsExactly` | src/ledger.cpp:275-384 | the conflict records about deliveries are the same in every sorted order of the candidates exactly when the records that can stand in front of a divergent group agree on generation, measure and category |
| `Conflicts.StorageOrderShows` | src/ledger.cpp:275-362 | two records of one identity and origin that differ in category are filed differently in the two orders |
| `Conflicts.SameConflicts` | src/ledger.cpp:259-266 | when fronts agree, two derivations of the same records write the same conflict records |
| `DerivationTheorems.NothingDisappears` | src/ledger.cpp:287-303 | every considered record is counted, part of a resolved dispute, a settled total, or rejected under its own identity |
| `DerivationTheorems.RejectionsAreOfRecords` | src/ledger.cpp:287-303 | every rejection is of a considered record |
| `Claims.FoldClaims` | src/ledger.cpp:639-690 | folding fails exactly when a cell's sum or count overflows; otherwise one claim per cell, with the exact sum and count |
| `Claims.AddToCells` | src/measure.cpp:150-164 | adding a known amount keeps the exact sum or reports that the cell overflows |
| `Conservation.FoldConservation` | src/ledger.cpp:692-817 | one domain per key with evidence, each with its exact sums and verdict; it fails exactly when a sum does not fit or a strict policy refuses a domain, with the error of the first refused one |
| `Conservation.Accumulate` | src/ledger.cpp:695-731 | the three accumulation loops overflow exactly when some domain's sums do not fit |
| `Conservation.ConcludeConserves` | src/ledger.cpp:736-812 | attributed plus residual is the observed total; each status means what it says |
| `Conservation.DeltaExact` | src/ledger.cpp:769-793 | the stored difference is the true one exactly when that fits 64 signed bits |
| `Conservation.ResidualSaturates` | src/ledger.cpp:766-771 | a residual of the whole 64-bit range is stored as half of it |
| `Efficiency.FoldEfficiency` | src/ledger.cpp:819-934 | one summary per measure, as specified from its claims and domains |
| `Efficiency.DeterminateExactly` | src/ledger.cpp:853-912 | determinate exactly when all claims are classified, no domain holds unknowns, residual or excess, and the denominator is positive |
| `Efficiency.DenominatorExactly` | src/ledger.cpp:834-897 | the denominator is the sum of all claims of the measure exactly when that sum fits 64 bits |
| `Efficiency.SummarySums` | src/ledger.cpp:834-897 | the sums of a summary wrap one by one, and its denominator saturates |
| `Efficiency.RatioIsReduced` | src/ledger.cpp:919-922 | the ratio equals useful over denominator and is in lowest terms |
| `Efficiency.PermilleExactly` | src/ledger.cpp:923-926 | the per-mille figure rounds half up exactly when the scaled sum fits 64 bits |
| `Efficiency.AllUsefulReportedAsNothing` | src/ledger.cpp:923-926 | an amount for which all-useful work is reported as 0 per mille |
| `Balances.SumsByCategory` | src/measure.cpp:97-116 | modulo 2^64, useful is the sum of the claims of delivered work, overhead that of control traffic, avoidable that of work sent again, doubled, rerouted, reserved idle or stranded, and failed that of failed transfers |
| `Balances.CoverageExactly` | src/ledger.cpp:899-917 | a measure is covered wholly when some of its work is claimed, nothing of it is unknown and all its domains are consistent, partly when one of the last two fails, and not at all when nothing is claimed |
| `Balances.UnknownExactly` | src/ledger.cpp:834-896 | a summary leaves unknown the claims that cannot be classified and what the domains of the measure hold unknown, saturated |
| `Balances.FiguresReported` | src/ledger.cpp:913-931 | a measure that is not determinate has no figures; for one that is, the per-mille figure is its useful share rounded half up exactly when the scaled sum fits 64 bits |
| `Balances.AttributedConserved` | src/ledger.cpp:695-710 | over any choice of scope, generation and measure the domains attribute what the chosen contributions add up to, and count them |
| `Balances.UnknownsConserved` | src/ledger.cpp:711-719 | they count as unknown what the chosen entries of the bucket count |
| `Balances.TotalsConserved` | src/ledger.cpp:720-731 | and observe what the chosen totals report |
| `Balances.FindingsExactly` | src/ledger.cpp:736-812 | the findings are exactly the residuals, the excesses and the demanded totals that are missing |
| `Balances.ClaimsCount` | src/ledger.cpp:639-690 | every contribution is counted in one claim |
| `Balances.StaleClaims` | src/ledger.cpp:639-690 | a claim carries the stale mark exactly when a contribution to its cell does |
| `Revision.Derive` | src/ledger.cpp:2118-2178 | a revision is derived exactly when no strict policy refuses the records and every sum fits, with the content of the considered records; each error is the one of the first step that fails |
| `Revision.NoEfficiencyFromMissingEvidence` | src/ledger.cpp:861-907 | a determinate measure means none of its considered records was rejected, no totals disagreed, each record has its place, and the denominator is the sum of its claims exactly when that fits |
| `Revision.RedeliveryBlocksEfficiency` | src/ledger.cpp:346-355 | two considered records of one content make their measure indeterminate |
| `Revision.ClaimsConserve` | src/ledger.cpp:643-661 | over any selection of accounting cells the claims add up to the contributions |
| `Revision.MeasureConserved` | src/ledger.cpp:643-661 | so the claims of a measure add up to its contributions |
| `Undisputed.CountedInFull` | src/ledger.cpp:267-631 | evidence that is admissible and undisputed is counted in full, with nothing unknown |
| `Agreement.RevisionsAgree` | src/ledger.cpp:259-266 | whatever order evidence is stored in, the revisions derived from it agree in contributions, claims, domains, findings and summaries |
| `Agreement.RedeliveryKeepsAmounts` | src/ledger.cpp:346-356 | copies delivered again change no claim and no sum of a measure, and of a domain only how much is unknown |
| `Agreement.SummaryPermuted` | src/ledger.cpp:820-931 | a summary does not depend on the order of claims and domains, although its sums wrap and saturate |
| `WrappedRatio.WrappedSumStaysDeterminate` | src/ledger.cpp:839-848 | a revision of three observations: useful work of 2^64 bytes wraps to nothing, and the ratio is still determinate |
| `WrappedRatio.LedgerMisreports` | src/ledger.cpp:1798-2241 | the ledger refuses none of it: created under that policy it opens the period, accepts the observations, and closes it with that revision |
| `Bytes.GetPut` | src/persistence.cpp:44-68 | reading back a written little-endian word gives the number |
| `Bytes.PutGet` | src/persistence.cpp:44-68 | writing what was read gives back the bytes |
| `Bytes.PutAt` | src/persistence.cpp:44-68 | byte i of a written word is the one worth 256^i |
| `Segment.ReadRecords` | src/persistence.cpp:454-545 | the read loop recovers what the recursive scan recovers |
| `Segment.ScanSegment` | src/persistence.cpp:414-568 | the scan's report of any file: id, records, valid bytes, tail, digest, damage, or why it is refused |
| `SegmentLayout.HeaderAt` | src/persistence.cpp:256-268 | byte by byte: the magic, the version, the id, the time of creation, zeros |
| `SegmentLayout.BodyAt` | src/persistence.cpp:294-301 | a record is its kind's code, its number, its time and its payload |
| `SegmentLayout.FrameAt` | src/persistence.cpp:303-312 | a frame is the record's length, its checksum and the record |
| `SegmentLayout.FooterAt` | src/persistence.cpp:322-332 | a footer is the magic, the number of records, the digest of the frames, and the checksum of those |
| `SegmentLayout.ReadExactly` | src/persistence.cpp:499-545 | a record is read exactly where its frame sits, when it is within the scanner's budget |
| `SegmentLayout.SealedExactly` | src/persistence.cpp:467-494 | a segment counts as sealed exactly where the footer sits that the writer would put after what was read |
| `SegmentTheorems.HeaderIsNotMagic` | src/persistence.cpp:286-320 | no frame header a writer produces can be mistaken for the footer magic |
| `SegmentTheorems.LookAtFrame` | src/persistence.cpp:495-530 | a whole frame is read back exactly when it is within the scanner's budget |
| `SegmentTheorems.LookAtTornFrame` | src/persistence.cpp:454-510 | a frame cut anywhere is damage |
| `SegmentTheorems.ScanCut` | src/persistence.cpp:454-559 | wherever a sealed stream is cut, exactly the readable whole frames before the cut are recovered, and it is sealed exactly when nothing is missing |
| `SegmentTheorems.RoundTrip` | src/persistence.cpp:286-348 | scanning a sealed segment visits its records up to the first the budget refuses, undamaged exactly when there is none, with its size and digest |
| `SegmentTheorems.OversizeRecordIsLost` | src/persistence.cpp:292 | a payload of 16 bytes below the budget is written and never read |
| `SegmentTheorems.TornTail` | src/persistence.cpp:414-568 | cutting a sealed segment past its header leaves exactly the whole frames before the cut, damaged exactly when something was cut |
| `SegmentTheorems.ReadReencodes` | src/persistence.cpp:495-545 | a record read from arbitrary bytes encodes to the bytes it was read from |
| `SegmentTheorems.Reencoding` | src/persistence.cpp:414-568 | for any file, the recovered records encode to exactly the bytes counted as valid; valid bytes and tail make up a damaged file |
| `Volume.ContentsAgree` | src/persistence.cpp:941-954 | reading depends on the listed files only |
| `Volume.CrashRecovers` | src/persistence.cpp:727-782 | whatever a crash does to unsynced files, what was recoverable stays recoverable |
| `Volume.RemovalQuiet` | src/persistence.cpp:371-412 | removing a file the manifest does not list disturbs nothing |
| `Session.ContentsSealed` | src/persistence.cpp:322-348 | reading the segments a session sealed gives what a scan gets to in each |
| `Session.SeenExactly` | src/persistence.cpp:292-299 | nothing is lost exactly when every record is within the scanner's budget |
| `Session.SessionContents` | src/persistence.cpp:908-927 | after a session the list reads as before, followed by the new records |
| `Placement.HeldExactly` | src/persistence.cpp:350-369 | the prefixes of a batch that find room are those of at most the projected number of records |
| `Placement.SpreadJoin` | src/persistence.cpp:1014-1023 | two batches written as one take no more segments than each by itself |
| `Placement.SpreadFiltered` | src/persistence.cpp:1014-1023 | leaving records out takes no more segments |
| `Store.LedgerStore.OpenSegment` | src/persistence.cpp:256-284 | a new segment takes the next id and holds its header |
| `Store.LedgerStore.WriteFrame` | src/persistence.cpp:286-320 | one framed record is appended to the open segment, or the payload is refused and nothing changes |
| `Store.LedgerStore.SealSegment` | src/persistence.cpp:322-348 | the open segment gets its footer, is synced, and joins the sealed ones |
| `Store.LedgerStore.RotateIfNeeded` | src/persistence.cpp:350-369 | rotation keeps every record and leaves room for the next one; it fails exactly when that does not fit the open segment and no further one may be begun |
| `Store.LedgerStore.WriteBatch` | src/persistence.cpp:916-920 | the loop writes exactly as many records as find room in the segments left, spread over as many segments as projected |
| `Store.LedgerStore.WriteNew` | src/persistence.cpp:908-928 | every step of writing leaves what is published untouched |
| `Store.SessionGrows` | src/persistence.cpp:286-348 | new segments add to the listed sizes the frames of their records and a header and a footer each |
| `Store.LedgerStore.Commit` | src/persistence.cpp:928-939 | publishing is one step, after which the manifest reads as the in-memory list |
| `Store.LedgerStore.Advance` | src/persistence.cpp:921-926 | the watermark becomes the latest write, the first write stays; zero stands for none |
| `Store.LedgerStore.AppendMany` | src/persistence.cpp:874-932 | succeeds exactly when the batch passes the checks and the segments left hold it, publishing the records in memory and the batch in the last step, with totals, revision and times brought up to date; a failure publishes nothing, and changes nothing unless segments ran out, when the records that found room join those in memory |
| `Store.LedgerStore.Replay` | src/persistence.cpp:941-954 | replay visits every listed record in order, or stops at an unreadable segment under strict recovery |
| `Store.LedgerStore.Survivors` | src/persistence.cpp:997-1012 | exactly the records to keep are collected and the others counted |
| `Store.LedgerStore.Rewrite` | src/persistence.cpp:1014-1033 | the survivors that find room, all of them exactly on success, are rewritten into new segments without touching what is published |
| `Store.LedgerStore.Compact` | src/persistence.cpp:987-1048 | succeeds exactly when it may write, can scan every segment and the budget holds what is kept, publishing exactly that; at every step the old or the new list is readable; a failure publishes nothing, but one that ran out of segments has replaced the list in memory by what found room |
| `Store.LedgerStore.VerifyListed` | src/persistence.cpp:817-838 | each entry is replaced by what its file holds; strict recovery accepts only full agreement |
| `Store.LedgerStore.SweepOrphans` | src/persistence.cpp:371-412 | exactly the unlisted segment files are removed |
| `Store.LedgerStore.Rebuild` | src/persistence.cpp:682-725 | the rebuilt list has each scannable segment file once, by the id in its header |
| `Store.RebuiltExactly` | src/persistence.cpp:682-725 | a lost manifest whose files are all there is is rebuilt exactly |
| `Store.LedgerStore.OpenListed` | src/persistence.cpp:816-857 | opening with a manifest reads what it lists and disturbs nothing; strict recovery refuses exactly on disagreement |
| `Store.LedgerStore.OpenRebuilt` | src/persistence.cpp:808-815 | opening without one publishes the rebuilt list in one step |
| `Store.LedgerStore.Open` | src/persistence.cpp:784-858 | opening succeeds exactly when the recovery policy allows, loses nothing published, and leaves no unlisted segment file |
| `SavedTimes.SavedAsText` | src/persistence.cpp:641-653 | a saved instant is what is read back from its text to the millisecond, or zero when that is refused |
| `SavedTimes.SavedExactly` | src/persistence.cpp:734-738 | it is the instant itself exactly when that has no fraction of a millisecond, and otherwise earlier by less than one |
| `Recovery.Perform` | src/persistence.cpp:874-1048 | an operation is accepted exactly when the state before it says so and leaves the state it should; at every step what was or what is now published can be found |
| `Recovery.Remains` | src/persistence.cpp:784-858 | the directory a crash leaves holds what was published or what the operation publishes |
| `Recovery.Reopen` | src/persistence.cpp:784-858 | opening what a crash left recovers exactly that, and so does every step of opening |
| `Recovery.Happen` | src/persistence.cpp:784-1048 | a failed operation leaves the records published as they are, one cut short wholly has happened or has not, and opening restores what was published, even when opening is itself cut short |
| `Recovery.Run` | src/persistence.cpp:784-1048 | any run of operations, failures, crashes and openings, on the same store after a failure, goes from state to state as specified |
| `Leftovers.FailureExactly` | src/persistence.cpp:874-1048 | a failed operation leaves the records in memory alone exactly when the checks turned it away or its first record found no room |
| `Leftovers.RefusedRecordPublished` | src/persistence.cpp:359-365 | a refused batch of two records, one segment: the next compaction publishes the first |
| `Leftovers.AcknowledgedRecordLost` | src/persistence.cpp:1004-1023 | two acknowledged records, reopened with one segment: the second compaction loses the second |
| `Leftovers.NextAppendExactly` | src/persistence.cpp:908-931 | the next append does to what was published what it should exactly when memory held nothing else |
| `Leftovers.NextCompactionExactly` | src/persistence.cpp:1004-1035 | a compaction that drops nothing publishes what is in memory |
| `Leftovers.CarefulRunKeeps` | src/persistence.cpp:784-1048 | when the store is opened again after every harmful failure, nothing acknowledged is lost and nothing else appears |
| `Leftovers.OpeningNeeded` | src/persistence.cpp:987-1048 | used on after a harmful failure, a compaction that drops nothing changes what is published |
| `Leftovers.CompactionAccepted` | src/persistence.cpp:1014-1033 | under the limits the segments were written under, no compaction runs out of segments |
| `Leftovers.NothingLost` | src/persistence.cpp:784-1048 | over any run under one set of limits nothing acknowledged is lost, whatever failures the store is used on after |
| `Budgets.AppendWithinExactly` | src/persistence.cpp:899-930 | the size reported after an append is within the budget exactly when the frames and 84 bytes for each new segment had room in what was left of it |
| `Budgets.BudgetOverrun` | src/persistence.cpp:899-906 | an empty store with a budget of 26 bytes takes a record of 26 and then reports 110 |
| `Budgets.BudgetHolds` | src/persistence.cpp:784-1048 | over any run of operations, failures, crashes and openings the frames kept are never more than the largest budget, and the files exceed it by 84 bytes a segment at most |
| `Forest.GroundedAcyclic` | src/topology.cpp:320-338 | a scope from which walking up ends is on no cycle |
| `Forest.MetAgain` | src/topology.cpp:326-329 | meeting a scope twice on the way up proves a cycle |
| `Sweep.SweepNeighbours` | src/topology.cpp:384-397 | checking sorted neighbours accepts exactly the pairwise disjoint intervals |
| `Sweep.EndsBefore` | src/topology.cpp:389-396 | intervals disjoint from their neighbours end before every later one of the same owner starts |
| `Validation.WalkUp` | src/topology.cpp:323-337 | the walk from one scope ends exactly when it meets no scope again |
| `Validation.CheckHierarchy` | src/topology.cpp:320-338 | the hierarchy check accepts exactly the forests, and a reported cycle is real |
| `Validation.CheckOwners` | src/topology.cpp:340-368 | accepted exactly when every resource is a member of exactly the scope it declares |
| `Validation.FileMembers` | src/topology.cpp:344-354 | a member is refused only when it is undefined or has two owners |
| `Validation.CheckIncarnations` | src/topology.cpp:376-398 | accepted exactly when incarnations of one source are pairwise disjoint |
| `Validation.CheckBindings` | src/topology.cpp:410-432 | accepted exactly when bindings of one resource and generation are pairwise disjoint |
| `Validation.CheckAll` | src/topology.cpp:304-489 | the checks together accept exactly the valid topologies |
| `ValidTopology.ValidExactly` | src/topology.cpp:304-488 | a topology is valid exactly when it is within the budgets, names only what it defines, its scopes form a forest, each resource is a member of exactly the scope it declares, and at no instant has a source two incarnations or a resource two bindings to one generation |
| `ValidTopology.OverlapExactly` | src/topology.cpp:40-50 | intervals overlap exactly when they share an instant, ends included |
| `Topologies.FabricTopology.AddScope` | src/topology.cpp:180-205 | accepted exactly under the stated conditions, members sorted and distinct, nothing else changed |
| `Topologies.FabricTopology.AddIncarnation` | src/topology.cpp:154-178 | accepted exactly under the stated conditions; intervals are never reversed |
| `Topologies.FabricTopology.AddBinding` | src/topology.cpp:225-237 | accepted exactly under the stated conditions, appended last |
| `Topologies.FabricTopology.AddResource` | src/topology.cpp:207-223 | accepted exactly under the stated conditions, nothing else changed |
| `Topologies.FabricTopology.Validate` | src/topology.cpp:304-489 | accepts exactly the valid topologies; a reported cycle is real |
| `Topologies.FabricTopology.ChildrenOf` | src/topology.cpp:568-576 | exactly the scopes whose parent it is |
| `Topologies.FabricTopology.AncestorsOf` | src/topology.cpp:601-618 | exactly the scopes above, whether or not the size guard fires |
| `Topologies.FabricTopology.DescendantsOf` | src/topology.cpp:578-599 | exactly the scopes below, so the frontier search is complete and its guard harmless |
| `Rollup.RollRows` | src/ledger.cpp:2397-2421 | each rolled cell is the sum over its subtree; the fold fails exactly when one of those sums does not fit |
| `Rollup.RollupRows` | src/ledger.cpp:2397-2432 | sorted distinct rows with subtree sums, complete below the row cap |
| `Rollup.SubtreeSplits` | src/ledger.cpp:2400-2421 | a rolled cell is the scope's own rows plus its children's rolled cells |
| `Lineage.CheckHistory` | src/ledger.cpp:2978-3011 | the loop counts exactly the revisions whose digest does not hold, the breaks in their order and the links that hold |
| `Lineage.HistoryClean` | src/ledger.cpp:2978-3011 | nothing is found exactly when digests hold and revisions chain with consecutive ordinals |
| `Lineage.CheckCorrections` | src/ledger.cpp:3012-3045 | the loop counts exactly the corrections that do not follow the one before or that no revision names, and those that follow |
| `Lineage.ChainClean` | src/ledger.cpp:3012-3045 | nothing is found exactly when corrections chain and each has its revision |
| `Lineage.LinearPasses` | src/ledger.cpp:2978-3045 | a linear history passes every check |
| `Lifecycle.OnePeriodEach` | src/ledger.cpp:1837-1843 | disjoint periods never contain the same record |
| `Lifecycle.ConsideredOnce` | src/ledger.cpp:275-281 | no record is considered in two periods |
| `Lifecycle.ReingestAddsNothing` | src/ledger.cpp:2008-2021 | ingesting a committed batch again adds nothing |
| `Creation.Create` | src/ledger.cpp:1798-1809 | a ledger is created exactly for an allowed policy and a valid topology, and starts empty |
| `Creation.CheckPolicy` | src/policy.cpp:114-183 | a policy is allowed exactly within its limits |
| `Lifecycle.Ledger.OpenPeriod` | src/ledger.cpp:1814-1859 | a period opens exactly when its span is allowed and it overlaps no other, numbered next |
| `Lifecycle.Ledger.FindPeriodFor` | src/ledger.cpp:1866-1878 | the period found is the one that contains the record's window, if there is one |
| `Lifecycle.Ledger.Judge` | src/ledger.cpp:1924-2033 | each record meets the fate its shape, source, incarnation, epoch, generation, period and duplicates determine, in that order |
| `Lifecycle.Ledger.Sift` | src/ledger.cpp:1923-2033 | exactly the accepted records are listed, and the report is that of their fates |
| `Fates.OverlapExactly` | src/ledger.cpp:1835-1848 | periods overlap exactly when some instant is in both, ends excluded |
| `Fates.FateExactly` | src/ledger.cpp:1923-2033 | each fate in terms of the record, the topology, the periods and what is retained: the first failing check, no period, a settled period under the refusing policy, a record already retained, or acceptance, colliding exactly when its identity is taken |
| `Fates.LateExactly` | src/ledger.cpp:1998-2006 | a record is late exactly when it passes every check and the period it belongs to has been closed |
| `Fates.ReportExactly` | src/ledger.cpp:1890-2048 | each count of the report is the number of records of one fate |
| `Fates.ReportAddsUp` | src/ledger.cpp:1890-2048 | no record of the batch is lost or counted twice |
| `Fates.TwiceInBatches` | src/ledger.cpp:2008-2021 | a record delivered again in a later batch is retained once |
| `Fates.TwiceInOneBatch` | src/ledger.cpp:2008-2047 | delivered twice in one batch it is retained twice, and no later derivation counts it |
| `Lifecycle.Ledger.Ingest` | src/ledger.cpp:1882-2058 | refused whole exactly when over budget; otherwise exactly the deserving records are added and booked to their periods, and exactly the closed periods with late records are marked for correction |
| `Lifecycle.Ledger.ClosePeriod` | src/ledger.cpp:2200-2241 | a period closes exactly when it is open and its evidence can be derived, with a first revision derived from the retained evidence; the new state is stated whole, so nothing else changes, and a dry run changes nothing |
| `Lifecycle.Ledger.CorrectPeriod` | src/ledger.cpp:2243-2320 | a period is corrected exactly when it is closed, within budget and derivable; one revision naming its predecessor and one linked record are appended, and the new state is stated whole: old ones and all other periods stay |
| `Lifecycle.Corrected` | src/ledger.cpp:2264-2287 | the step from the last revision to the next keeps the history linear |
| `Lifecycle.Ledger.VerifyIntegrity` | src/ledger.cpp:2966-3060 | every figure of the report is the sum of what is found in each history and each chain of corrections; it is clean exactly when all are intact, which is always so |
| `Effects.IngestedExactly` | src/ledger.cpp:1998-2048 | ingesting adds the accepted records, counts each in the period its window lies in, and asks for the correction of exactly the closed periods that records of the batch are late for, when the policy has it so; nothing else changes |
| `Effects.ClosedExactly` | src/ledger.cpp:2200-2241 | closing gives one period its first revision and the closed state; nothing else changes |
| `Effects.CorrectedExactly` | src/ledger.cpp:2243-2320 | correcting gives one period one more revision that names the last, and one record that ties the two together and follows the last record; nothing else changes |
| `Lifecycle.Run` | src/ledger.cpp:1814-2320 | over any run of requests each is granted exactly when it can be and has exactly its effect on the whole recorded state, every revision is derived from what was then retained, histories only grow, and the integrity check finds nothing |
| `Calendar.DaysCount` | src/time.cpp:69-78 | day 0 is 1970-01-01 and each next date is one day later |
| `Calendar.CivilInverse` | src/time.cpp:80-95 | every day number has a valid date whose number it is |
| `Calendar.DaysInverse` | src/time.cpp:69-95 | every valid date is the date of its number |
| `Calendar.DaysMonotone` | src/time.cpp:69-78 | day numbers are ordered exactly as dates |
| `Calendar.QuotFloors` | src/time.cpp:69-95 | truncating division of a shifted negative era is flooring |
| `Timestamp.ParseRfc3339` | src/time.cpp:261-409 | a text is accepted exactly when it is a timestamp whose instant fits signed 64-bit nanoseconds, and gives that instant |
| `Timestamp.StampValid` | src/time.cpp:270-328 | whatever a text says is a possible local time |
| `Timestamp.NoOverflow` | src/time.cpp:388-392 | no intermediate of the conversion overflows |
| `Timestamp.ScaleExactly` | src/time.cpp:393-408 | the range guards refuse exactly the instants that do not fit, and no product overflows |
| `Timestamp.AppendFixed` | src/time.cpp:113-129 | the digit buffer written backwards is the zero-padded decimal |
| `Timestamp.FloorSplit` | src/time.cpp:148-159 | truncating division with its correction floors |
| `Timestamp.FormatUtc` | src/time.cpp:144-194 | the text is the date, time and cut fraction of the instant |
| `Timestamp.ParseFormatted` | src/time.cpp:144-409 | reading back what was written gives the instant floored to the digits written, or a refusal exactly when that floor does not fit |
| `Timestamp.EarliestIsRefused` | src/time.cpp:399-401 | the earliest instant, written to the millisecond, is refused |
| `Rfc3339.ParsedExactly` | src/time.cpp:261-409 | a text is read as an instant exactly when the grammar of dates, times, fractions and zones has it mean that instant and the instant fits; anything else is malformed |
| `Rfc3339.OffsetShifts` | src/time.cpp:349-392 | with +hh:mm for its final Z a text is read as that many minutes earlier, with -hh:mm as that many later, with z as the same instant, whenever that fits |
| `Rfc3339.FormattedExactly` | src/time.cpp:144-194 | an instant is written in UTC and in capitals as the last one the given fraction digits can show that is not after it |
| `Sha256.Hasher.Update` | src/crypto.cpp:150-183 | absorbing pieces is absorbing their concatenation |
| `Sha256.Hasher.UpdateField` | src/crypto.cpp:185-201 | a field is absorbed after its length |
| `Sha256.Hasher.Finish` | src/crypto.cpp:221-255 | the digest is that of everything absorbed, padded as in section 5.1.1 of FIPS 180-4 |
| `Sha256.Hasher.Reset` | src/crypto.cpp:87-92 | a hasher that was reset has absorbed nothing |
| `Sha256.HashPieces` | src/crypto.cpp:150-265 | however a message is cut into pieces, the digest is that of the whole |
| `Sha256.FramingInjective` | src/crypto.cpp:185-201 | different lists of fields are never absorbed as the same message |
| `Sha256.PaddingInjective` | src/crypto.cpp:221-255 | different messages are padded differently, even where the length field wraps |
| `Sha256.DigestAt` | src/crypto.cpp:246-253 | byte 4i+j of a digest is word i divided by 256^(3-j), modulo 256 |
| `Sha256.PaddingAt` | src/crypto.cpp:221-244 | byte by byte: the marker, zeros, and the length in bits, most significant byte first, in the fewest whole blocks |
| `Sha256.FramedAt` | src/crypto.cpp:185-201 | a field comes after its length in eight bytes, most significant first |
| `Pool.ThreadPool.CountSubmitted` | src/concurrency.cpp:250-281 | a submission is counted before a worker can see it |
| `Pool.ThreadPool.TryPush` | include/fel/concurrency.hpp:86-97 | a job enters the queue only when it is open and below capacity |
| `Pool.ThreadPool.Pop` | include/fel/concurrency.hpp:99-118 | the oldest job is taken, or the worker ends when the queue is closed and drained |
| `Pool.ThreadPool.Finish` | src/concurrency.cpp:314-347 | the job that runs had not run before |
| `Pool.ThreadPool.Join` | src/concurrency.cpp:283-312 | shutdown returns only once every worker has ended |
| `Pool.ThreadPool.Drained` | src/concurrency.cpp:283-347 | once shutdown has returned the queue is empty, every accepted job has run exactly once, and the counters agree |
| `Pool.AllRan` | src/concurrency.cpp:314-347 | when no worker holds a job exactly the jobs taken have run |
| `Pool.Advance` | src/concurrency.cpp:250-347 | each step takes the pool to exactly the state the thread's next step leads to |
| `Pool.Run` | src/concurrency.cpp:250-347 | any interleaving leads where its steps lead, keeps the queue within capacity and, once stopped, has lost and duplicated nothing |
| `Draining.StopsExactly` | src/concurrency.cpp:283-347 | once the queue is closed, a schedule ends the shutdown exactly when as many of its steps get on as remained at the start, and none takes more |
| `Draining.StepsCounted` | src/concurrency.cpp:283-347 | each step that gets on takes one off what remains, whatever submitters do meanwhile |
| `Draining.NeverStuck` | src/concurrency.cpp:283-347 | until shutdown has returned some thread can get on |
| `Draining.CanStop` | src/concurrency.cpp:283-347 | from any valid state some schedule of workers and shutdown ends it |
| `JsonText.EscapeString` | src/serialize.cpp:52-90 | the quoted text is each char escaped, between quotes |
| `JsonText.DumpInto` | src/serialize.cpp:660-737 | the text is appended as specified, at any indent |
| `JsonPrinting.ArrayShown` | src/serialize.cpp:660-737 | an array is written as its elements between brackets, each on a line of its own, indented as deep as it is nested, when there is an indent |
| `JsonPrinting.ObjectShown` | src/serialize.cpp:660-737 | an object is its keys and values between braces, in the same way |
| `JsonPrinting.IntegerShown` | src/serialize.cpp:660-737 | an integer is the number of the grammar that has its value |
| `JsonTokens.EscapeRead` | src/serialize.cpp:165-233 | an escaped char is read back |
| `JsonTokens.QuotedRead` | src/serialize.cpp:146-240 | a quoted string is a token for its chars, within budget exactly when no escaped char lies past it |
| `JsonStrings.Utf8Decoded` | src/serialize.cpp:34-50 | every scalar value is decoded from the bytes written for it |
| `JsonStrings.DecodedIsUtf8` | src/serialize.cpp:34-50 | and from no others, so lead and continuation bytes are in their ranges and the form is the shortest |
| `JsonStrings.UnicodeIs` | src/serialize.cpp:193-231 | the escape of a code point, or its surrogate pair, is read as the bytes that decode to it |
| `JsonStrings.UnicodeSays` | src/serialize.cpp:193-231 | and nothing else is read as one |
| `JsonStrings.StringExactly` | src/serialize.cpp:146-240 | a string token is read exactly where a quoted string stands, as what its plain chars, short escapes and escaped code points mean |
| `JsonStrings.EscIsPiece` | src/serialize.cpp:52-90 | a char is written as a piece that stands for it, escaped exactly when it is a quote, a backslash or a control char, in the shortest way and with lower-case digits |
| `JsonStrings.KeyLessExactly` | src/serialize.cpp:326-356 | keys are ordered by their first different byte, and a key comes before what continues it |
| `JsonNumbers.SpanExactly` | src/serialize.cpp:242-282 | a number token is read exactly where a number of the grammar stands that takes in all that belongs to it |
| `JsonNumbers.NumberExactly` | src/serialize.cpp:242-312 | and means that number when it is whole and within 64 bits, signed or unsigned, and a double otherwise, when it is finite |
| `JsonTokens.IntegerSpan` | src/serialize.cpp:242-282 | a written integer that nothing runs on past is one number token |
| `JsonLayout.LeadChar` | src/serialize.cpp:326-403 | the first char of a value's text tells its kind |
| `JsonLayout.SortedMembers` | src/serialize.cpp:326-356 | in whatever order a text has them, an object's members are those of the text by ascending keys |
| `JsonParser.JsonParser.ParseString` | src/serialize.cpp:146-240 | reads exactly the string tokens whose escapes come within the size budget; any other token is too large |
| `JsonParser.JsonParser.ParseNumber` | src/serialize.cpp:242-312 | reads exactly the number tokens that are 64-bit integers or finite |
| `JsonParser.JsonParser.ParseArray` | src/serialize.cpp:358-382 | an array's text, with any white space, is read as its elements in order, and nothing else is |
| `JsonParser.JsonParser.ParseObject` | src/serialize.cpp:326-357 | an object's text, with any white space and members in any order, is read as its members, whose keys must differ, and nothing else is |
| `JsonParser.JsonParser.ParseValue` | src/serialize.cpp:314-404 | a value's text within the depth and token budgets is read as the value and its tokens are counted; what is read as a value is a text of it |
| `JsonRoundTrip.DumpLaidOut` | src/serialize.cpp:660-737 | what is dumped, at any indent, is a text of the value |
| `JsonRoundTrip.Parse` | src/serialize.cpp:739-745 | accepts exactly the texts of values within the budgets, and gives the value |
| `JsonRoundTrip.RoundTrip` | src/serialize.cpp:654-745 | what is dumped is parsed back, and dumps to the same bytes again |

## Left out

- Detail texts, notes, diagnostics and problem strings: a rejection carries its cause and generation instead, and a conflict record its matter. Rejections are sorted up to their texts; the sort of conflict records by the digest of their keys is left out, and their sorted lists of participants and sources are a multiset and a set.
- Evidence, source and provenance lists of claims, a domain's list and number of totals, added evidence of corrections, declared integrity, proof surfaces, revision counters and stamps.
- `Revision.NoEfficiencyFromMissingEvidence`: times are unbounded integers, so the skew and age arithmetic of freshness at the ends of the 64-bit range is not modelled.
- `Evidence.AssessAdmissibility`: the class reported when assessment stops before freshness is one constant, and the search for a covering binding is an existential, not a loop.
- `Store.LedgerStore.AppendMany`: segment ids are assumed to have room below 2^64, and maximal segment sizes to leave room for two frames.
- `Store.LedgerStore.Open`: the manifest's JSON text and digests, the store identity, locks, open modes and the recovery report are not modelled; a manifest is missing, garbled or what was published.
- `Recovery.Run`: input and output errors, directory durability and the remove-then-rename fallback are not modelled; renaming the manifest is atomic and durable.
- The header of a segment is outside every checksum, so a crash that altered a synced header is outside the crash model.
- The strict bound on store bytes: `append_many` budgets frames only, not headers and footers (`src/persistence.cpp:882-907`).
- The revision codec: a negative difference and a closing time are not written so that they read back as they were (`src/ledger_json.cpp:546-547`), so no round trip is claimed.
- `Topologies.FabricTopology.Validate`: entities other than scopes, resources, incarnations and bindings are checked but their `add_*` operations are not modelled, nor are `resources_of` and the canonical form.
- `Rollup.RollRows`: needs a forest, which validation guarantees; rows carry no evidence list.
- `Lifecycle.Ledger.CorrectPeriod`: the branch for a closed period without a revision cannot be reached and is not modelled; the store-backed branches are covered by the store alone.
- Evidence compaction followed by correction: the derivation then sees less evidence, so nothing is claimed to be preserved.
- `Lifecycle.Ledger.VerifyIntegrity`: the store's report and the lock audit counters are not part of it.
- `Calendar.CivilInverse`: over unbounded integers; the source's 64-bit limits are covered for parsed instants only.
- Duration text, clocks and the command line.
- `Sha256.Hasher.Finish`: the compression function is a parameter; a finished hasher has to be reset before it is used again.
- `Creation.CheckPolicy`: the format version and the limits of workers, queues, result rows, look-back and the store are not among the modelled policy fields; a ledger opened from a store is covered by the store alone.
- `Pool.Run`: hard shutdown, cancellation, roll-back of a failed start, peak counters, the blocking `push`, and liveness of the condition variables.
- `JsonParser.JsonParser.ParseNumber`: doubles are kept as the literal read, and which literals are finite is a parameter; writing doubles with 17 digits is not modelled.
- `JsonParser.JsonParser.ParseValue`: which error a refused text gets is stated for the size budgets only; a char stands for one byte.
- Aggregation, explanation, export, CSV and the field-by-field codecs: wide but shallow.
