/** The order in which a derivation lists what it found. */
module ListOrder {

  import opened Common
  import opened Fabric
  import opened Evidence
  import opened Ordering
  import opened Derivation

  /** The first difference decides. */
  ghost predicate FirstLess(a: seq<int>, b: seq<int>, k: nat) {
    k < |a| && k < |b| && a[..k] == b[..k] && a[k] < b[k]
  }

  lemma {:induction false} LexExactly(a: seq<int>, b: seq<int>)
    requires |a| == |b|
    ensures LexLeq(a, b) <==> a == b || exists k :: FirstLess(a, b, k)
  {
    if a != [] {
      LexExactly(a[1..], b[1..]);
      assert a == [a[0]] + a[1..] && b == [b[0]] + b[1..];
      if k: nat :| FirstLess(a[1..], b[1..], k) && a[0] == b[0] {
        assert a[..k + 1] == [a[0]] + a[1..][..k] && b[..k + 1] == [b[0]] + b[1..][..k];
        assert FirstLess(a, b, k + 1);
      }
      if a[0] < b[0] {
        assert FirstLess(a, b, 0);
      }
      if k: nat :| FirstLess(a, b, k) {
        if k > 0 {
          assert a[0] == a[..k][0] == b[..k][0] == b[0];
          assert a[1..][..k - 1] == a[..k][1..] && b[1..][..k - 1] == b[..k][1..];
          assert FirstLess(a[1..], b[1..], k - 1);
        }
      }
    }
  }

  /** Enumerations are ordered as they are declared. */
  const KINDS: seq<MeasureKind> := [WireBytes, PayloadBytes, PortOccupancyNanos, CapacityNanos, ControlMessages, FrameCount]

  const CATEGORIES: seq<Category> := [
    UsefulDeliveredWork, Retransmission, Duplication, RerouteOverhead, IdleReservation, FailedTransfer, StrandedCapacity,
    ControlOverhead, UnknownUnattributed]

  const BASES: seq<Basis> := [ResourceDirect, FlowDirect, PathDirect, ReservationDirect, ScopeDeclared, Unattributed]

  /** By their codes; a derivation never gives the reasons of codes 5, 11 and 12. */
  const REASONS: seq<Option<UnknownReason>> := [
    Some(NoReason), Some(NoEvidence), Some(StaleEvidence), Some(ExpiredEvidence), Some(FencedEpoch), None,
    Some(RetiredIncarnation), Some(StaleGeneration), Some(ConflictingReports), Some(DuplicateSuppressed),
    Some(UnsupportedProvenance), None, None, Some(ResidualUnclassified), Some(AttributionFailure), Some(ClockAnomaly),
    Some(OverAttributed)]

  ghost predicate IsAt<T>(list: seq<T>, i: int, x: T) {
    0 <= i < |list| && list[i] == x
  }

  /** What contributions are ordered by, most significant first. */
  ghost predicate Ranks(x: Contribution, r: seq<int>) {
    && |r| == 12
    && r[0] == x.key.generation && r[1] == x.key.scope
    && IsAt(KINDS, r[2] - 1, x.key.kind) && IsAt(CATEGORIES, r[3] - 1, x.key.category) && IsAt(BASES, r[4] - 1, x.key.basis)
    && r[5..9] == [x.key.resource, x.key.flow, x.key.path, x.key.reservation]
    && r[9..] == [x.window.start, x.window.end, x.evidence]
  }

  lemma ContributionRanks(x: Contribution)
    ensures Ranks(x, ContributionRank(x))
  {
  }

  /** Contributions are listed by the cell they count in, field by field, then by window, then
      by evidence. */
  lemma ContributionsInOrder(ctx: Context, c: Records, d: Derived, i: nat, j: nat) returns (r: seq<int>, s: seq<int>)
    requires IsDerivation(ctx, c, d) && i < j < |d.contributions|
    ensures Ranks(d.contributions[i], r) && Ranks(d.contributions[j], s)
    ensures r == s || exists k :: FirstLess(r, s, k)
  {
    r, s := ContributionRank(d.contributions[i]), ContributionRank(d.contributions[j]);
    ContributionRanks(d.contributions[i]);
    ContributionRanks(d.contributions[j]);
    LexExactly(r, s);
  }

  ghost predicate RanksRejected(x: Rejection, r: seq<int>) {
    |r| == 3 && IsAt(REASONS, r[0], Some(ReasonOf(x.cause))) && r[1..] == [x.source, x.evidence]
  }

  lemma ReasonIsAt(reason: UnknownReason)
    ensures IsAt(REASONS, ReasonRank(reason), Some(reason))
  {
  }

  lemma RejectionRanks(x: Rejection)
    ensures RanksRejected(x, RejectionRank(x))
  {
    ReasonIsAt(ReasonOf(x.cause));
  }

  /** Rejections are listed by reason, then by source, then by evidence. */
  lemma RejectionsInOrder(ctx: Context, c: Records, d: Derived, i: nat, j: nat) returns (r: seq<int>, s: seq<int>)
    requires IsDerivation(ctx, c, d) && i < j < |d.rejected|
    ensures RanksRejected(d.rejected[i], r) && RanksRejected(d.rejected[j], s)
    ensures r == s || exists k :: FirstLess(r, s, k)
  {
    r, s := RejectionRank(d.rejected[i]), RejectionRank(d.rejected[j]);
    RejectionRanks(d.rejected[i]);
    RejectionRanks(d.rejected[j]);
    LexExactly(r, s);
  }

  ghost predicate RanksUnknown(x: UnknownEntry, r: seq<int>) {
    |r| == 4 && r[..2] == [x.scope, x.generation] && IsAt(KINDS, r[2] - 1, x.kind) && IsAt(REASONS, r[3], Some(x.reason))
  }

  lemma UnknownRanks(x: UnknownEntry)
    ensures RanksUnknown(x, UnknownRank(x))
  {
    ReasonIsAt(x.reason);
  }

  /** Unknown entries are listed by scope, then by generation, measure and reason. */
  lemma UnknownsInOrder(ctx: Context, c: Records, d: Derived, i: nat, j: nat) returns (r: seq<int>, s: seq<int>)
    requires IsDerivation(ctx, c, d) && i < j < |d.unknowns|
    ensures RanksUnknown(d.unknowns[i], r) && RanksUnknown(d.unknowns[j], s)
    ensures r == s || exists k :: FirstLess(r, s, k)
  {
    r, s := UnknownRank(d.unknowns[i]), UnknownRank(d.unknowns[j]);
    UnknownRanks(d.unknowns[i]);
    UnknownRanks(d.unknowns[j]);
    LexExactly(r, s);
  }
}
