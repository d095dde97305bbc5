/** How many segments a batch is spread over, and how much of it a segment budget holds. */
module Placement {

  import opened Folds
  import opened Segment
  import opened Volume
  import opened Session

  function FrameBytes(e: Entry): nat {
    |e.payload| + (RECORD_HEADER_BYTES + FRAME_HEADER_BYTES)
  }

  /** The segments begun for a batch so far, and the bytes in the last of them. */
  datatype Spread = Spread(segments: nat, bytes: nat)

  /** A frame goes to the open segment when it fits there, and otherwise to a new one. */
  function Place(s: Spread, frame: nat, limit: nat): Spread {
    if s.bytes + frame <= limit then s.(bytes := s.bytes + frame)
    else Spread(s.segments + 1, HEADER_BYTES + frame)
  }

  function SpreadOf(es: seq<Entry>, limit: nat): (s: Spread)
    ensures s.segments >= 1 && s.bytes >= HEADER_BYTES
  {
    if es == [] then Spread(1, HEADER_BYTES)
    else Place(SpreadOf(es[..|es| - 1], limit), FrameBytes(es[|es| - 1]), limit)
  }

  lemma SpreadNext(es: seq<Entry>, e: Entry, limit: nat)
    ensures SpreadOf(es + [e], limit) == Place(SpreadOf(es, limit), FrameBytes(e), limit)
  {
    assert (es + [e])[..|es|] == es;
  }

  /** The budget is looked at only when a further segment is begun. */
  predicate FitsIn(slots: nat, es: seq<Entry>, limit: nat, maxSegments: nat) {
    SpreadOf(es, limit).segments == 1 || slots + SpreadOf(es, limit).segments <= maxSegments
  }

  /** How many records of a batch are written before the segments run out. */
  function Held(slots: nat, es: seq<Entry>, limit: nat, maxSegments: nat): (k: nat)
    ensures k <= |es|
  {
    if es == [] || FitsIn(slots, es, limit, maxSegments) then |es|
    else Held(slots, es[..|es| - 1], limit, maxSegments)
  }

  lemma {:induction false} SpreadPrefix(es: seq<Entry>, j: nat, limit: nat)
    requires j <= |es|
    ensures SpreadOf(es[..j], limit).segments <= SpreadOf(es, limit).segments
    decreases |es| - j
  {
    if j == |es| {
      TakeAll(es);
    } else {
      SpreadPrefix(es, j + 1, limit);
      TakeSucc(es, j);
      SpreadNext(es[..j], es[j], limit);
    }
  }

  lemma FitsPrefix(slots: nat, es: seq<Entry>, j: nat, limit: nat, maxSegments: nat)
    requires j <= |es| && FitsIn(slots, es, limit, maxSegments)
    ensures FitsIn(slots, es[..j], limit, maxSegments)
  {
    SpreadPrefix(es, j, limit);
  }

  /** The prefixes that fit are those of at most so many records. */
  lemma {:induction false} HeldExactly(slots: nat, es: seq<Entry>, j: nat, limit: nat, maxSegments: nat)
    requires j <= |es|
    ensures FitsIn(slots, es[..j], limit, maxSegments) <==> j <= Held(slots, es, limit, maxSegments)
  {
    if es == [] {
    } else if FitsIn(slots, es, limit, maxSegments) {
      FitsPrefix(slots, es, j, limit, maxSegments);
    } else if j == |es| {
      TakeAll(es);
    } else {
      HeldExactly(slots, es[..|es| - 1], j, limit, maxSegments);
      assert es[..|es| - 1][..j] == es[..j];
    }
  }

  lemma HeldIs(slots: nat, es: seq<Entry>, k: nat, limit: nat, maxSegments: nat)
    requires k <= |es| && FitsIn(slots, es[..k], limit, maxSegments)
    requires k < |es| ==> !FitsIn(slots, es[..k + 1], limit, maxSegments)
    ensures Held(slots, es, limit, maxSegments) == k
  {
    HeldExactly(slots, es, k, limit, maxSegments);
    if k < |es| {
      HeldExactly(slots, es, k + 1, limit, maxSegments);
    }
  }

  // ---- packing again needs no more room ------------------------------------

  predicate NoMore(s: Spread, t: Spread) {
    s.segments < t.segments || (s.segments == t.segments && s.bytes <= t.bytes)
  }

  lemma PlaceNoMore(s: Spread, t: Spread, frame: nat, limit: nat)
    requires NoMore(s, t) && t.bytes >= HEADER_BYTES
    ensures NoMore(Place(s, frame, limit), Place(t, frame, limit)) && NoMore(s, Place(t, frame, limit))
  {
  }

  /** Two batches written as one take no more segments than each by itself. */
  lemma {:induction false} SpreadJoin(a: seq<Entry>, b: seq<Entry>, limit: nat)
    ensures NoMore(SpreadOf(a + b, limit),
                   Spread(SpreadOf(a, limit).segments + SpreadOf(b, limit).segments, SpreadOf(b, limit).bytes))
  {
    if b == [] {
      assert a + b == a;
    } else {
      var n := |b| - 1;
      var s := SpreadOf(b[..n], limit);
      SpreadJoin(a, b[..n], limit);
      assert a + b == (a + b[..n]) + [b[n]];
      SpreadNext(a + b[..n], b[n], limit);
      PlaceNoMore(SpreadOf(a + b[..n], limit), Spread(SpreadOf(a, limit).segments + s.segments, s.bytes),
                  FrameBytes(b[n]), limit);
    }
  }

  function Filtered(rs: seq<Record>, keep: Record -> bool): (kept: seq<Record>)
    ensures |kept| <= |rs|
  {
    if rs == [] then []
    else Filtered(rs[..|rs| - 1], keep) + if keep(rs[|rs| - 1]) then [rs[|rs| - 1]] else []
  }

  lemma EntriesLast(rs: seq<Record>, r: Record)
    ensures Entries(rs + [r]) == Entries(rs) + Entries([r])
  {
    EntriesAppend(rs, [r]);
  }

  /** Leaving records out takes no more segments. */
  lemma {:induction false} SpreadFiltered(rs: seq<Record>, keep: Record -> bool, limit: nat)
    ensures NoMore(SpreadOf(Entries(Filtered(rs, keep)), limit), SpreadOf(Entries(rs), limit))
  {
    if rs != [] {
      var n := |rs| - 1;
      var kept := Filtered(rs[..n], keep);
      SpreadFiltered(rs[..n], keep, limit);
      SplitLast(rs);
      EntriesLast(rs[..n], rs[n]);
      EntriesLast(kept, rs[n]);
      var e := Entries([rs[n]])[0];
      assert Entries([rs[n]]) == [e];
      SpreadNext(Entries(rs[..n]), e, limit);
      SpreadNext(Entries(kept), e, limit);
      PlaceNoMore(SpreadOf(Entries(kept), limit), SpreadOf(Entries(rs[..n]), limit), FrameBytes(e), limit);
      assert kept + [] == kept;
    }
  }

  /** The segments it takes to hold these records: none for none. */
  function SegmentsFor(es: seq<Entry>, limit: nat): nat {
    if es == [] then 0 else SpreadOf(es, limit).segments
  }

  lemma JoinFits(a: seq<Entry>, b: seq<Entry>, limit: nat)
    ensures SegmentsFor(a + b, limit) <= SegmentsFor(a, limit) + SegmentsFor(b, limit)
  {
    SpreadJoin(a, b, limit);
    assert a == [] ==> a + b == b;
    assert b == [] ==> a + b == a;
  }

  lemma FilterFits(rs: seq<Record>, keep: Record -> bool, limit: nat)
    ensures SegmentsFor(Entries(Filtered(rs, keep)), limit) <= SegmentsFor(Entries(rs), limit)
  {
    SpreadFiltered(rs, keep, limit);
  }
}
