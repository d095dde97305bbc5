/** What every derivation guarantees, over all evidence. */
module DerivationTheorems {

  import opened Common
  import opened Fabric
  import opened Evidence
  import opened Folds
  import opened Ordering
  import opened Dispute
  import opened Derivation

  // ---- nothing is counted twice --------------------------------------------

  /** Among admitted records evidence identities, delivery origins and source sequences
      are pairwise distinct, and no record is present in two copies. */
  lemma AdmittedAreDistinct(ctx: Context, c: Records, o: Observation, p: Observation)
    requires o in Admitted(ctx, c) && p in Admitted(ctx, c)
    requires o.id == p.id || OriginOf(o) == OriginOf(p) || SequenceOf(o) == SequenceOf(p)
    ensures o == p && c[o] == 1
  {
  }

  /** A cell and window are counted at most once, by one admitted record of that cell;
      a record of a declared incarnation carries the peak epoch of all candidates. */
  lemma CountedAtMostOnce(ctx: Context, c: Records, x: Contribution, y: Contribution)
    requires x in Contributions(ctx, c) && y in Contributions(ctx, c)
    requires (x.key == y.key && x.window == y.window) || x.evidence == y.evidence
    ensures x == y
  {
    var o := CountedRecord(ctx, c, x);
    var p := CountedRecord(ctx, c, y);
    if x.evidence == y.evidence {
      AdmittedAreDistinct(ctx, c, o, p);
    }
    var ck :| ck in CellKeys(ctx, c) && ContributionOf(ctx, c, ck) == Some(x);
    var dk :| dk in CellKeys(ctx, c) && ContributionOf(ctx, c, dk) == Some(y);
    assert ck == CellKey(x.key, x.window) && dk == CellKey(y.key, y.window);
  }

  lemma ChosenInCell(ctx: Context, cell: set<Observation>)
    ensures Chosen(ctx, cell).Some? ==> Chosen(ctx, cell).value in cell
  {
  }

  lemma CountedRecord(ctx: Context, c: Records, x: Contribution) returns (o: Observation)
    requires x in Contributions(ctx, c)
    ensures o in Entries(ctx, c) && CellOf(ctx.topology)(o) == CellKey(x.key, x.window)
    ensures x.evidence == o.id && x.amount == o.content.amount && x.source == o.content.source
    ensures o.content.incarnation in ctx.topology.incarnations ==> AtPeak(c, o)
  {
    var ck :| ck in CellKeys(ctx, c) && ContributionOf(ctx, c, ck) == Some(x);
    var cell := Cell(ctx, c, ck);
    ChosenInCell(ctx, cell);
    o := Chosen(ctx, cell).value;
    assert o in Admitted(ctx, c);
  }

  // ---- redelivery ----------------------------------------------------------

  /** Every record of extra repeats the content of a record of c under a larger identity,
      which no record of c has. */
  ghost predicate Redelivers(c: Records, extra: Records) {
    && (forall e | e in extra :: exists p | p in c :: p.content == e.content && p.id < e.id)
    && (forall e, p | e in extra && p in c :: p.id != e.id)
  }

  lemma RedeliveredGroup<K>(c: Records, extra: Records, key: Observation -> K, o: Observation)
    requires Redelivers(c, extra) && o in c
    requires forall p: Observation, q: Observation | p.content == q.content :: key(p) == key(q)
    ensures Outranked(c + extra, key, o) <==> Outranked(c, key, o)
  {
    if Outranked(c, key, o) {
      var p :| p in c && key(p) == key(o) && (p.content != o.content || p.id < o.id);
      assert p in c + extra;
    }
    if Outranked(c + extra, key, o) {
      var p :| p in c + extra && key(p) == key(o) && (p.content != o.content || p.id < o.id);
      if p !in c {
        var q :| q in c && q.content == p.content && q.id < p.id;
        assert key(q) == key(o) && (q.content != o.content || q.id < o.id);
      }
    }
  }

  lemma RedeliveredExclusion(c: Records, extra: Records, o: Observation)
    requires Redelivers(c, extra) && o in c + extra
    ensures o in c ==> (Excluded(c + extra, o) <==> Excluded(c, o))
    ensures o !in c ==> Excluded(c + extra, o)
  {
    if o in c {
      assert extra[o] == 0;
      RedeliveredGroup<Id>(c, extra, OriginOf, o);
      RedeliveredGroup(c, extra, SequenceOf, o);
      if Collides(c, o) && c[o] <= 1 {
        var p :| p in c && p != o && p.id == o.id;
        assert p in c + extra;
      }
    } else {
      var q :| q in c && q.content == o.content && q.id < o.id;
      assert q in c + extra && OriginOf(q) == OriginOf(o) && q.id < o.id;
      assert Outranked<Id>(c + extra, OriginOf, o);
    }
  }

  lemma RedeliveredPeak(c: Records, extra: Records, o: Observation)
    requires Redelivers(c, extra) && o in c
    ensures AtPeak(c + extra, o) <==> AtPeak(c, o)
  {
    if AtPeak(c, o) {
      forall p | p in c + extra && p.content.incarnation == o.content.incarnation
        ensures p.content.epoch <= o.content.epoch
      {
        if p !in c {
          var q :| q in c && q.content == p.content;
        }
      }
    }
    if AtPeak(c + extra, o) {
      forall p | p in c && p.content.incarnation == o.content.incarnation
        ensures p.content.epoch <= o.content.epoch
      {
        assert p in c + extra;
      }
    }
  }

  /** Redelivered copies change neither what is admitted, nor any contribution, nor any
      kept total. */
  lemma RedeliveryInvariance(ctx: Context, c: Records, extra: Records)
    requires Redelivers(c, extra)
    ensures Admitted(ctx, c + extra) == Admitted(ctx, c)
    ensures Contributions(ctx, c + extra) == Contributions(ctx, c)
    ensures KeptTotals(ctx, c + extra) == KeptTotals(ctx, c)
    ensures ResolvedConflicts(ctx, c + extra) == ResolvedConflicts(ctx, c)
    ensures StrictlyConflicting(ctx, c + extra) <==> StrictlyConflicting(ctx, c)
  {
    forall o ensures o in Admitted(ctx, c + extra) <==> o in Admitted(ctx, c) {
      if o in c + extra {
        RedeliveredExclusion(c, extra, o);
        if o in c {
          RedeliveredPeak(c, extra, o);
        }
      }
    }
    SameAdmitted(ctx, c, c + extra);
  }

  /** A copy under a smaller identity takes the place of the record it repeats, and is
      counted in its stead exactly when it is admissible itself: it may have been received
      too late to be. */
  lemma SmallerIdentityDisplaces(ctx: Context, c: Records, o: Observation, e: Observation)
    requires o in Admitted(ctx, c) && e.content == o.content && e.id < o.id
    requires forall p | p in c :: p.id != e.id
    ensures o !in Admitted(ctx, c + multiset{e})
    ensures e in Admitted(ctx, c + multiset{e}) <==> Refusal(ctx, AtPeak(c, o), e) == NoReason
  {
    var d := c + multiset{e};
    assert forall p :: p in d <==> p in c || p == e;
    assert e in d && Outranked<Id>(d, OriginOf, o);
    assert AtPeak(d, e) <==> AtPeak(c, o);
    NotOutrankedBySmaller<Id>(c, o, e, OriginOf);
    NotOutrankedBySmaller(c, o, e, SequenceOf);
  }

  lemma NotOutrankedBySmaller<K>(c: Records, o: Observation, e: Observation, key: Observation -> K)
    requires o in c && !Outranked(c, key, o) && e.content == o.content && e.id < o.id && key(e) == key(o)
    ensures !Outranked(c + multiset{e}, key, e)
  {
    assert forall p :: p in c + multiset{e} <==> p in c || p == e;
  }

  /** Cells and totals depend on the evidence only through what is admitted. */
  lemma SameAdmitted(ctx: Context, c: Records, d: Records)
    requires Admitted(ctx, c) == Admitted(ctx, d)
    ensures Contributions(ctx, c) == Contributions(ctx, d)
    ensures KeptTotals(ctx, c) == KeptTotals(ctx, d)
    ensures ResolvedConflicts(ctx, c) == ResolvedConflicts(ctx, d)
    ensures StrictlyConflicting(ctx, c) <==> StrictlyConflicting(ctx, d)
  {
    assert Entries(ctx, c) == Entries(ctx, d);
    assert CellKeys(ctx, c) == CellKeys(ctx, d);
    assert Totals(ctx, c) == Totals(ctx, d);
    assert TotalKeys(ctx, c) == TotalKeys(ctx, d);
    assert forall ck :: Cell(ctx, c, ck) == Cell(ctx, d, ck);
    assert forall tk :: TotalGroup(ctx, c, tk) == TotalGroup(ctx, d, tk);
    assert forall ck :: ContributionOf(ctx, c, ck) == ContributionOf(ctx, d, ck);
  }

  // ---- order independence --------------------------------------------------

  lemma RanksSeparate(ctx: Context, c: Records, x: Contribution, y: Contribution)
    requires x in Contributions(ctx, c) && y in Contributions(ctx, c)
    requires ContributionRank(x) == ContributionRank(y)
    ensures x == y
  {
    var r, q := ContributionRank(x), ContributionRank(y);
    assert r[11] == x.evidence && q[11] == y.evidence;
    CountedAtMostOnce(ctx, c, x, y);
  }

  function SuppressionWeight(r: Rejection): nat {
    if IsSuppression(r) then 1 else 0
  }

  lemma {:induction false} SuppressionsOf(s: seq<Rejection>)
    ensures Suppressions(s) == SumOf(multiset(s), SuppressionWeight)
  {
    if s != [] {
      var n := |s| - 1;
      SuppressionsOf(s[..n]);
      SplitLast(s);
      SumOfAdd(multiset(s[..n]), s[n], SuppressionWeight);
    }
  }

  /** Any two derivations of the same considered records agree: whatever order the
      evidence was stored in, and whatever an unstable sort made of equal identities. */
  lemma OrderIndependence(ctx: Context, evidence: seq<Observation>, shuffled: seq<Observation>, period: Window,
                          d: Derived, e: Derived)
    requires multiset(evidence) == multiset(shuffled)
    requires IsDerivation(ctx, Considered(multiset(evidence), period), d)
    requires IsDerivation(ctx, Considered(multiset(shuffled), period), e)
    ensures d.contributions == e.contributions
    ensures multiset(d.totals) == multiset(e.totals)
    ensures multiset(d.rejected) == multiset(e.rejected)
    ensures multiset(d.unknowns) == multiset(e.unknowns)
    ensures d.duplicateSuppressed == e.duplicateSuppressed
    ensures d.considered == e.considered && d.admitted == e.admitted
  {
    var c := Considered(multiset(evidence), period);
    SameContributions(ctx, c, d.contributions, e.contributions);
    SuppressionsAgree(d.rejected, e.rejected);
  }

  lemma SameContributions(ctx: Context, c: Records, s: seq<Contribution>, t: seq<Contribution>)
    requires multiset(s) == multiset(Contributions(ctx, c)) && SortedBy(s, ContributionRank)
    requires multiset(t) == multiset(Contributions(ctx, c)) && SortedBy(t, ContributionRank)
    ensures s == t
  {
    forall x, y | x in s && y in s && ContributionRank(x) == ContributionRank(y) ensures x == y {
      assert x in multiset(s) && y in multiset(s);
      RanksSeparate(ctx, c, x, y);
    }
    SortedUnique(s, t, ContributionRank);
  }

  lemma SuppressionsAgree(s: seq<Rejection>, t: seq<Rejection>)
    requires multiset(s) == multiset(t)
    ensures Suppressions(s) == Suppressions(t)
  {
    SuppressionsOf(s);
    SuppressionsOf(t);
    SumOfAgree(multiset(s), SuppressionWeight, SuppressionWeight);
  }

  // ---- nothing disappears --------------------------------------------------

  lemma GroupSize<K>(c: Records, key: Observation -> K, o: Observation, p: Observation)
    requires o in c && p in c && key(o) == key(p) && (o != p || c[o] > 1)
    ensures |Members(c, key, key(o))| > 1
  {
    var g := Members(c, key, key(o));
    var rest := g - multiset{o};
    assert p in rest;
    assert g == rest + multiset{o};
    assert |rest| > 0;
  }

  lemma CollisionIsRejected(c: Records, o: Observation)
    requires o in c && Collides(c, o)
    ensures Reject(o, IdentityCollision) in CollisionRejections(Members<Id>(c, IdOf, o.id))
  {
    var p := o;
    if c[o] <= 1 {
      p :| p in c && p != o && p.id == o.id;
    }
    GroupSize<Id>(c, IdOf, o, p);
    GatherHas(Members<Id>(c, IdOf, o.id), o, RejectAs(IdentityCollision), Reject(o, IdentityCollision));
  }

  lemma GroupIsGathered<K>(c: Records, key: Observation -> K, f: K -> multiset<Rejection>, o: Observation, r: Rejection)
    requires o in c && r in f(key(o))
    ensures r in Gather(multiset(KeysOf(c, key)), f)
  {
    assert key(o) in KeysOf(c, key);
    GatherHas(multiset(KeysOf(c, key)), key(o), f, r);
  }

  lemma OutrankedIsRejected<K>(c: Records, key: Observation -> K, divergent: Cause, o: Observation) returns (cause: Cause)
    requires o in c && Outranked(c, key, o)
    ensures cause == DuplicateDelivery || cause == divergent
    ensures Reject(o, cause) in GroupRejections(Members(c, key, key(o)), divergent)
  {
    var g := Members(c, key, key(o));
    var p :| p in c && key(p) == key(o) && (p.content != o.content || p.id < o.id);
    GroupSize(c, key, o, p);
    assert o in g && p in g;
    cause := if Identical(g) then DuplicateDelivery else divergent;
    GatherHas(g, o, RejectAs(cause), Reject(o, cause));
    if Identical(g) {
      assert Front(g).id <= p.id;
      assert Reject(Front(g), DuplicateDelivery) != Reject(o, DuplicateDelivery);
    }
  }

  lemma CollisionIsGathered(c: Records, o: Observation)
    requires o in c && Collides(c, o)
    ensures Reject(o, IdentityCollision) in CollisionsIn(c)
  {
    CollisionIsRejected(c, o);
    GroupIsGathered<Id>(c, IdOf, CollisionsAt(c), o, Reject(o, IdentityCollision));
  }

  lemma OriginIsGathered(c: Records, o: Observation) returns (cause: Cause)
    requires o in c && Outranked<Id>(c, OriginOf, o)
    ensures Reject(o, cause) in OriginGroupsIn(c)
  {
    cause := OutrankedIsRejected<Id>(c, OriginOf, DivergentOrigin, o);
    GroupIsGathered<Id>(c, OriginOf, OriginGroupAt(c), o, Reject(o, cause));
  }

  lemma SequenceIsGathered(c: Records, o: Observation) returns (cause: Cause)
    requires o in c && Outranked(c, SequenceOf, o)
    ensures Reject(o, cause) in SequenceGroupsIn(c)
  {
    cause := OutrankedIsRejected(c, SequenceOf, DivergentSequence, o);
    GroupIsGathered(c, SequenceOf, SequenceGroupAt(c), o, Reject(o, cause));
  }

  lemma ExcludedIsRejected(c: Records, o: Observation) returns (cause: Cause)
    requires o in c && Excluded(c, o)
    ensures Reject(o, cause) in ExclusionRejections(c)
  {
    if Collides(c, o) {
      cause := IdentityCollision;
      CollisionIsGathered(c, o);
    } else if Outranked<Id>(c, OriginOf, o) {
      cause := OriginIsGathered(c, o);
    } else {
      cause := SequenceIsGathered(c, o);
    }
  }

  /** What became of an admitted contribution inside its cell. */
  ghost predicate SettledInCell(ctx: Context, c: Records, o: Observation) {
    || (exists x | x in Contributions(ctx, c) :: x.evidence == o.id)
    || (exists f | f in ResolvedConflicts(ctx, c) :: o.id in f.participants)
    || (exists cause :: Reject(o, cause) in DisputeRejections(ctx, c))
  }

  lemma CellMemberIsSettled(ctx: Context, cell: set<Observation>, o: Observation) returns (cause: Cause)
    requires o in cell
    requires Chosen(ctx, cell).None? || (|Amounts(cell)| == 1 && o != Chosen(ctx, cell).value)
    ensures Reject(o, cause) in CellRejections(ctx, cell)
  {
    var chosen := Chosen(ctx, cell);
    if chosen.None? {
      cause := OpenDispute;
      GatherHas(multiset(cell), o, RejectAs(cause), Reject(o, cause));
    } else {
      cause := EquivalentAmount;
      GatherHas(multiset(cell - {chosen.value}), o, RejectAs(cause), Reject(o, cause));
    }
  }

  lemma EntryIsSettled(ctx: Context, c: Records, o: Observation)
    requires o in Entries(ctx, c)
    ensures SettledInCell(ctx, c, o)
  {
    var ck := CellOf(ctx.topology)(o);
    var cell := Cell(ctx, c, ck);
    assert o in cell && ck in CellKeys(ctx, c);
    var chosen := Chosen(ctx, cell);
    if chosen.None? || (|Amounts(cell)| == 1 && o != chosen.value) {
      var cause := CellMemberIsSettled(ctx, cell, o);
      DisputeIsGathered(ctx, c, ck, Reject(o, cause));
    } else if o == chosen.value {
      assert ContributionOf(ctx, c, ck).value in Contributions(ctx, c);
    } else {
      var f := CellConflict(ck.key, cell, true);
      GatherHas<Observation, Id>(multiset(cell), o, NamedBy, o.id);
      assert f in ResolvedConflicts(ctx, c) && o.id in f.participants;
    }
  }

  lemma DisputeIsGathered(ctx: Context, c: Records, ck: CellKey, r: Rejection)
    requires ck in CellKeys(ctx, c) && r in CellRejections(ctx, Cell(ctx, c, ck))
    ensures r in DisputeRejections(ctx, c)
  {
    GatherHas(multiset(CellKeys(ctx, c)), ck, CellRejectionsAt(ctx, c), r);
  }

  ghost predicate IsRejected(ctx: Context, c: Records, o: Observation) {
    exists cause :: Reject(o, cause) in Rejections(ctx, c)
  }

  /** Every considered record is counted, or takes part in a dispute the policy
      resolved, or is a total that is kept, agrees with the kept one or is reported as
      a disagreement; otherwise it is rejected under its own identity and measure. */
  ghost predicate AccountedFor(ctx: Context, c: Records, o: Observation) {
    || IsRejected(ctx, c, o)
    || (o in Entries(ctx, c) && exists x | x in Contributions(ctx, c) :: x.evidence == o.id)
    || (o in Entries(ctx, c) && exists f | f in ResolvedConflicts(ctx, c) :: o.id in f.participants)
    || (o in Totals(ctx, c) && var g := TotalGroup(ctx, c, TotalKeyOf(ctx.topology)(o));
        Agreed(g) || exists u | u in Disagreements(ctx, c) :: u.kind == o.content.kind)
  }

  lemma NothingDisappears(ctx: Context, c: Records, o: Observation)
    requires o in c
    ensures AccountedFor(ctx, c, o)
  {
    if Excluded(c, o) {
      var cause := ExcludedIsRejected(c, o);
      assert Reject(o, cause) in Rejections(ctx, c);
    } else if Refusal(ctx, AtPeak(c, o), o) != NoReason {
      RefusedIsRejected(ctx, c, o);
    } else if o.content.role == TotalRole {
      TotalIsSettled(ctx, c, o);
    } else if Attribute(o, ctx.topology).Err? {
      UnattributableIsRejected(ctx, c, o);
    } else {
      EntryIsAccountedFor(ctx, c, o);
    }
  }

  lemma RefusedIsRejected(ctx: Context, c: Records, o: Observation)
    requires o in Refused(ctx, c)
    ensures IsRejected(ctx, c, o)
  {
    var r := Reject(o, NotAdmissible(Refusal(ctx, AtPeak(c, o), o)));
    GatherHas(multiset(Refused(ctx, c)), o, RefusalOf(ctx, c), r);
    assert r in Rejections(ctx, c);
  }

  lemma UnattributableIsRejected(ctx: Context, c: Records, o: Observation)
    requires o in Unattributable(ctx, c)
    ensures IsRejected(ctx, c, o)
  {
    GatherHas(multiset(Unattributable(ctx, c)), o, RejectAs(NotAttributable), Reject(o, NotAttributable));
    assert Reject(o, NotAttributable) in Rejections(ctx, c);
  }

  lemma EntryIsAccountedFor(ctx: Context, c: Records, o: Observation)
    requires o in Entries(ctx, c)
    ensures AccountedFor(ctx, c, o)
  {
    EntryIsSettled(ctx, c, o);
    if cause :| Reject(o, cause) in DisputeRejections(ctx, c) {
      assert Reject(o, cause) in Rejections(ctx, c);
    }
  }

  lemma TotalIsSettled(ctx: Context, c: Records, o: Observation)
    requires o in Totals(ctx, c)
    ensures var g := TotalGroup(ctx, c, TotalKeyOf(ctx.topology)(o));
      Agreed(g) || exists u | u in Disagreements(ctx, c) :: u.kind == o.content.kind
  {
    var tk := TotalKeyOf(ctx.topology)(o);
    var g := TotalGroup(ctx, c, tk);
    assert tk in TotalKeys(ctx, c);
    if !Agreed(g) {
      assert DisagreementOf(tk, |g|) in Disagreements(ctx, c);
    }
  }

  /** A rejection is always of some considered record. */
  lemma RejectionsAreOfRecords(ctx: Context, c: Records, r: Rejection) returns (o: Observation)
    requires r in Rejections(ctx, c)
    ensures o in c && r == Reject(o, r.cause)
    ensures r.evidence == o.id && r.source == o.content.source
    ensures r.generation == o.content.generation && r.kind == o.content.kind
  {
    if r in ExclusionRejections(c) {
      o := ExclusionsAreOfRecords(c, r);
    } else if r in AdmissionRejections(ctx, c) {
      o := RefusalsAreOfRecords(ctx, c, r);
    } else if r in CorrelationRejections(ctx, c) {
      o := UnattributedAreOfRecords(ctx, c, r);
    } else {
      o := DisputesAreOfRecords(ctx, c, r);
    }
  }

  lemma RefusalsAreOfRecords(ctx: Context, c: Records, r: Rejection) returns (o: Observation)
    requires r in AdmissionRejections(ctx, c)
    ensures o in c && r == Reject(o, r.cause)
    ensures r.cause == NotAdmissible(Refusal(ctx, AtPeak(c, o), o))
  {
    o := GatherFrom(multiset(Refused(ctx, c)), RefusalOf(ctx, c), r);
  }

  lemma UnattributedAreOfRecords(ctx: Context, c: Records, r: Rejection) returns (o: Observation)
    requires r in CorrelationRejections(ctx, c)
    ensures o in c && r == Reject(o, r.cause)
    ensures r.cause == NotAttributable
  {
    o := GatherFrom(multiset(Unattributable(ctx, c)), RejectAs(NotAttributable), r);
  }

  lemma DisputesAreOfRecords(ctx: Context, c: Records, r: Rejection) returns (o: Observation)
    requires r in DisputeRejections(ctx, c)
    ensures o in c && r == Reject(o, r.cause)
    ensures r.cause == EquivalentAmount || r.cause == OpenDispute
  {
    var ck := GatherFrom(multiset(CellKeys(ctx, c)), CellRejectionsAt(ctx, c), r);
    o := CellRejectionOf(ctx, Cell(ctx, c, ck), r);
  }

  lemma CellRejectionOf(ctx: Context, cell: set<Observation>, r: Rejection) returns (o: Observation)
    requires r in CellRejections(ctx, cell)
    ensures o in cell && r == Reject(o, r.cause)
    ensures r.cause == EquivalentAmount || r.cause == OpenDispute
  {
    if |Amounts(cell)| == 1 && Chosen(ctx, cell).Some? {
      o := GatherFrom(multiset(cell - {Chosen(ctx, cell).value}), RejectAs(EquivalentAmount), r);
    } else {
      o := GatherFrom(multiset(cell), RejectAs(OpenDispute), r);
    }
  }

  lemma ExclusionsAreOfRecords(c: Records, r: Rejection) returns (o: Observation)
    requires r in ExclusionRejections(c)
    ensures o in c && r == Reject(o, r.cause)
    ensures r.cause == IdentityCollision || r.cause == DuplicateDelivery || r.cause == DivergentOrigin || r.cause == DivergentSequence
  {
    if r in CollisionsIn(c) {
      o := CollisionsAreOfRecords(c, r);
    } else if r in OriginGroupsIn(c) {
      o := OriginGroupsAreOfRecords(c, r);
    } else {
      o := SequenceGroupsAreOfRecords(c, r);
    }
  }

  lemma CollisionsAreOfRecords(c: Records, r: Rejection) returns (o: Observation)
    requires r in CollisionsIn(c)
    ensures o in c && r == Reject(o, r.cause)
    ensures r.cause == IdentityCollision
  {
    var k := GatherFrom<Id, Rejection>(multiset(KeysOf<Id>(c, IdOf)), CollisionsAt(c), r);
    o := CollisionOf(c, k, r);
  }

  lemma CollisionOf(c: Records, k: Id, r: Rejection) returns (o: Observation)
    requires r in CollisionsAt(c)(k)
    ensures o in c && r == Reject(o, r.cause)
    ensures r.cause == IdentityCollision
  {
    o := CollisionRejectionOf(Members<Id>(c, IdOf, k), r);
  }

  lemma CollisionRejectionOf(g: Records, r: Rejection) returns (o: Observation)
    requires r in CollisionRejections(g)
    ensures o in g && r == Reject(o, r.cause)
    ensures r.cause == IdentityCollision
  {
    o := GatherFrom(g, RejectAs(IdentityCollision), r);
  }

  lemma OriginGroupOf(c: Records, k: Id, r: Rejection) returns (o: Observation)
    requires r in OriginGroupAt(c)(k)
    ensures o in c && r == Reject(o, r.cause)
    ensures r.cause == DuplicateDelivery || r.cause == DivergentOrigin
  {
    o := GroupRejectionOf(Members<Id>(c, OriginOf, k), DivergentOrigin, r);
  }

  lemma OriginGroupsAreOfRecords(c: Records, r: Rejection) returns (o: Observation)
    requires r in OriginGroupsIn(c)
    ensures o in c && r == Reject(o, r.cause)
    ensures r.cause == DuplicateDelivery || r.cause == DivergentOrigin
  {
    var k := GatherFrom<Id, Rejection>(multiset(KeysOf<Id>(c, OriginOf)), OriginGroupAt(c), r);
    o := OriginGroupOf(c, k, r);
  }

  lemma SequenceGroupOf(c: Records, k: SequenceKey, r: Rejection) returns (o: Observation)
    requires r in SequenceGroupAt(c)(k)
    ensures o in c && r == Reject(o, r.cause)
    ensures r.cause == DuplicateDelivery || r.cause == DivergentSequence
  {
    o := GroupRejectionOf(Members<SequenceKey>(c, SequenceOf, k), DivergentSequence, r);
  }

  lemma SequenceGroupsAreOfRecords(c: Records, r: Rejection) returns (o: Observation)
    requires r in SequenceGroupsIn(c)
    ensures o in c && r == Reject(o, r.cause)
    ensures r.cause == DuplicateDelivery || r.cause == DivergentSequence
  {
    var k := GatherFrom<SequenceKey, Rejection>(multiset(KeysOf<SequenceKey>(c, SequenceOf)), SequenceGroupAt(c), r);
    o := SequenceGroupOf(c, k, r);
  }

  lemma GroupRejectionOf(g: Records, divergent: Cause, r: Rejection) returns (o: Observation)
    requires r in GroupRejections(g, divergent)
    ensures o in g && r == Reject(o, r.cause)
    ensures r.cause == DuplicateDelivery || r.cause == divergent
  {
    o := GatherFrom(g, RejectAs(if Identical(g) then DuplicateDelivery else divergent), r);
  }
}
