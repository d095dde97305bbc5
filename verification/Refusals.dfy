/** Why records are rejected and what is reported of them, in terms of the records themselves. */
module Refusals {

  import opened Common
  import opened Fabric
  import opened Evidence
  import opened Folds
  import opened Derivation
  import opened DerivationTheorems
  import opened Attribution
  import opened Acceptance

  // ---- what each reason means ----------------------------------------------

  ghost predicate LaterEpochSeen(c: Records, o: Observation) {
    exists p | p in c :: p.content.incarnation == o.content.incarnation && p.content.epoch > o.content.epoch
  }

  /** What a reason given for not admitting a record says about it. */
  ghost predicate Means(ctx: Context, c: Records, o: Observation, why: UnknownReason) {
    var (t, f, inc) := (ctx.topology, ctx.policy.freshness, o.content.incarnation);
    match why
    case AttributionFailure =>
      || o.content.source !in t.sources
      || (f.requireIncarnationCoverage && inc in t.incarnations && t.incarnations[inc].source != o.content.source)
    case UnsupportedProvenance =>
      && o.content.source in t.sources
      && (t.sources[o.content.source].provenance == Unsupported || !t.sources[o.content.source].enabled)
    case FencedEpoch =>
      inc in t.incarnations && (LaterEpochSeen(c, o) || o.content.epoch < t.incarnations[inc].bootEpoch)
    case RetiredIncarnation =>
      && f.requireIncarnationCoverage
      && (inc !in t.incarnations || t.incarnations[inc].retiredAt.Some?)
      && (inc in t.incarnations ==> o.receivedAt > t.incarnations[inc].retiredAt.value)
    case StaleGeneration =>
      f.requireGenerationBinding && o.content.resource.Some? && forall k :: !BoundBy(t, o, k)
    case ClockAnomaly =>
      || (f.requireIncarnationCoverage && inc in t.incarnations && o.receivedAt < t.incarnations[inc].startedAt)
      || o.content.observedAt > o.receivedAt
      || (o.receivedAt > ctx.asOf + f.skewAllowance && f.rejectFuture)
    case StaleEvidence =>
      f.freshTtl < ctx.asOf - o.content.observedAt <= f.staleTtl && ctx.policy.stale != IncludeMarked
    case ExpiredEvidence => ctx.asOf - o.content.observedAt > f.staleTtl
    case _ => false
  }

  /** A record that stands alone is refused exactly when it is not admitted, and the reason
      given is true of it. */
  lemma RefusedForAReason(ctx: Context, c: Records, o: Observation, why: UnknownReason)
    requires o in c && StandsAlone(c, o)
    requires 0 <= ctx.policy.freshness.freshTtl <= ctx.policy.freshness.staleTtl
    requires why == Refusal(ctx, AtPeak(c, o), o)
    ensures o in Refused(ctx, c) <==> o !in Admitted(ctx, c)
    ensures o in Refused(ctx, c) ==> Means(ctx, c, o, why) && Reject(o, NotAdmissible(why)) in Rejections(ctx, c)
  {
    ExcludedExactly(c, o);
    if o in Refused(ctx, c) {
      RefusalMeans(ctx, c, o, why);
      GatherHas(multiset(Refused(ctx, c)), o, RefusalOf(ctx, c), Reject(o, NotAdmissible(why)));
    }
  }

  lemma RefusalMeans(ctx: Context, c: Records, o: Observation, why: UnknownReason)
    requires o in c && why != NoReason && why == Refusal(ctx, AtPeak(c, o), o)
    requires 0 <= ctx.policy.freshness.freshTtl <= ctx.policy.freshness.staleTtl
    ensures Means(ctx, c, o, why)
  {
    BoundExactly(ctx, o);
  }

  /** Whoever is rejected as not admissible stands alone and is considered. */
  lemma OnlyRefused(ctx: Context, c: Records, r: Rejection) returns (o: Observation)
    requires r in Rejections(ctx, c) && r.cause.NotAdmissible?
    ensures o in c && StandsAlone(c, o) && o !in Admitted(ctx, c)
    ensures r == Reject(o, NotAdmissible(Refusal(ctx, AtPeak(c, o), o)))
  {
    if r in ExclusionRejections(c) {
      o := ExclusionsAreOfRecords(c, r);
    } else if r in AdmissionRejections(ctx, c) {
      o := GatherFrom(multiset(Refused(ctx, c)), RefusalOf(ctx, c), r);
      ExcludedExactly(c, o);
    } else if r in CorrelationRejections(ctx, c) {
      o := UnattributedAreOfRecords(ctx, c, r);
    } else {
      o := DisputesAreOfRecords(ctx, c, r);
    }
  }

  // ---- what is reported ----------------------------------------------------

  /** The reason a rejection is reported under. */
  ghost predicate ReportedAs(cause: Cause, why: UnknownReason) {
    || cause == NotAdmissible(why)
    || (why == ConflictingReports && (cause == IdentityCollision || cause == OpenDispute))
    || (why == DuplicateSuppressed
        && cause in {DuplicateDelivery, EquivalentAmount, DivergentOrigin, DivergentSequence})
    || (why == AttributionFailure && cause == NotAttributable)
  }

  /** One unknown contribution of the rejected record's generation and measure, under no scope. */
  ghost predicate Reports(u: UnknownEntry, r: Rejection) {
    && u.scope == NIL && u.generation == r.generation && u.kind == r.kind && u.count == 1
    && ReportedAs(r.cause, u.reason)
  }

  /** As many unknown contributions as there are totals that disagree in a domain and window. */
  ghost predicate ReportsTotals(ctx: Context, c: Records, u: UnknownEntry, w: Window) {
    var g := TotalsFor(ctx, c, DomainKey(u.scope, u.generation, u.kind), w);
    && u.reason == ConflictingReports && u.count == |g|
    && exists o, p | o in g && p in g :: o.content.amount != p.content.amount
  }

  /** The unknown bucket holds exactly the rejections and the disagreements of totals. */
  lemma BucketExactly(ctx: Context, c: Records, u: UnknownEntry)
    ensures u in Unknowns(ctx, c) <==>
      (exists r | r in Rejections(ctx, c) :: Reports(u, r)) || (exists w :: ReportsTotals(ctx, c, u, w))
  {
    DisagreementsExactly(ctx, c, u);
    RejectionsReported(ctx, c, u, Rejections(ctx, c));
  }

  lemma RejectionsReported(ctx: Context, c: Records, u: UnknownEntry, rejections: multiset<Rejection>)
    ensures u in (set r | r in rejections :: UnknownOf(r)) <==> exists r | r in rejections :: Reports(u, r)
  {
    forall r ensures Reports(u, r) <==> u == UnknownOf(r) {
    }
  }

  lemma DisagreementsExactly(ctx: Context, c: Records, u: UnknownEntry)
    ensures u in Disagreements(ctx, c) <==> exists w :: ReportsTotals(ctx, c, u, w)
  {
    if u in Disagreements(ctx, c) {
      var tk :| tk in TotalKeys(ctx, c) && !Agreed(TotalGroup(ctx, c, tk))
        && u == DisagreementOf(tk, |TotalGroup(ctx, c, tk)|);
      TotalsForIsGroup(ctx, c, tk);
      SomeDisagree(ctx, c, tk);
      assert ReportsTotals(ctx, c, u, tk.window);
    }
    if w :| ReportsTotals(ctx, c, u, w) {
      DisagreeingReported(ctx, c, u, w);
    }
  }

  lemma SomeDisagree(ctx: Context, c: Records, tk: TotalKey)
    requires tk in TotalKeys(ctx, c) && !Agreed(TotalGroup(ctx, c, tk))
    ensures exists o, p | o in TotalGroup(ctx, c, tk) && p in TotalGroup(ctx, c, tk) :: o.content.amount != p.content.amount
  {
    var o :| o in Totals(ctx, c) && TotalKeyOf(ctx.topology)(o) == tk;
    assert o in TotalGroup(ctx, c, tk);
    OneAmount(TotalGroup(ctx, c, tk), o);
  }

  lemma DisagreeingReported(ctx: Context, c: Records, u: UnknownEntry, w: Window)
    requires ReportsTotals(ctx, c, u, w)
    ensures u in Disagreements(ctx, c)
  {
    var tk := TotalKey(DomainKey(u.scope, u.generation, u.kind), w);
    TotalsForIsGroup(ctx, c, tk);
    DisagreeingGroup(ctx, c, tk);
  }

  lemma DisagreeingGroup(ctx: Context, c: Records, tk: TotalKey)
    requires exists o, p | o in TotalGroup(ctx, c, tk) && p in TotalGroup(ctx, c, tk) :: o.content.amount != p.content.amount
    ensures tk in TotalKeys(ctx, c) && !Agreed(TotalGroup(ctx, c, tk))
  {
    var g := TotalGroup(ctx, c, tk);
    var o, p :| o in g && p in g && o.content.amount != p.content.amount;
    OneAmount(g, o);
    assert TotalKeyOf(ctx.topology)(o) == tk;
  }

  // ---- why records are kept apart ------------------------------------------

  /** Another record of the same key, or another copy of this one, under an identity that is not higher. */
  ghost predicate Preceded<K>(c: Records, key: Observation -> K, o: Observation) {
    c[o] > 1 || exists p | p in c :: p != o && key(p) == key(o) && p.id <= o.id
  }

  ghost predicate AllAlike<K>(c: Records, key: Observation -> K, o: Observation) {
    forall p | p in c && key(p) == key(o) :: p.content == o.content
  }

  /** Records are rejected for their identity exactly when they share it. */
  lemma CollisionExactly(c: Records, r: Rejection)
    ensures r in CollisionsIn(c) <==> exists o | o in c :: r == Reject(o, IdentityCollision) && Collides(c, o)
  {
    if r in CollisionsIn(c) {
      var k := GatherFrom<Id, Rejection>(multiset(KeysOf<Id>(c, IdOf)), CollisionsAt(c), r);
      CollidingMember(c, k, r);
    }
    if o :| o in c && r == Reject(o, IdentityCollision) && Collides(c, o) {
      CollisionIsGathered(c, o);
    }
  }

  lemma CollidingMember(c: Records, k: Id, r: Rejection)
    requires r in CollisionsAt(c)(k)
    ensures exists o | o in c :: r == Reject(o, IdentityCollision) && Collides(c, o)
  {
    var g := Members<Id>(c, IdOf, k);
    var o := CollisionRejectionOf(g, r);
    TwoIn(g, o);
    assert o in c && Collides(c, o);
  }

  lemma TwoIn(g: Records, o: Observation)
    requires o in g && |g| > 1
    ensures g[o] > 1 || exists p | p in g :: p != o
  {
    var rest := g - multiset{o};
    assert g == rest + multiset{o};
    var p :| p in rest;
  }

  /** Records are rejected for a divergent key exactly when they share it with another content. */
  lemma DivergenceExactly<K>(c: Records, key: Observation -> K, divergent: Cause, f: K -> multiset<Rejection>, r: Rejection)
    requires divergent != DuplicateDelivery && r.cause == divergent
    requires forall k | k in KeysOf(c, key) :: f(k) == GroupRejections(Members(c, key, k), divergent)
    ensures r in Gather(multiset(KeysOf(c, key)), f) <==>
      exists o | o in c :: r == Reject(o, divergent) && !AllAlike(c, key, o)
  {
    if r in Gather(multiset(KeysOf(c, key)), f) {
      var k := GatherFrom(multiset(KeysOf(c, key)), f, r);
      DivergentMember(c, key, k, divergent, r);
    }
    if o :| o in c && r == Reject(o, divergent) && !AllAlike(c, key, o) {
      var p :| p in c && key(p) == key(o) && p.content != o.content;
      assert o in Members(c, key, key(o)) && p in Members(c, key, key(o)) && key(o) in KeysOf(c, key);
      DivergingRejected(Members(c, key, key(o)), divergent, o, p);
      GatherHas(multiset(KeysOf(c, key)), key(o), f, r);
    }
  }

  lemma DivergentMember<K>(c: Records, key: Observation -> K, k: K, divergent: Cause, r: Rejection)
    requires divergent != DuplicateDelivery && r.cause == divergent && r in GroupRejections(Members(c, key, k), divergent)
    ensures exists o | o in c :: r == Reject(o, divergent) && !AllAlike(c, key, o)
  {
    var o, p := DivergentPair(Members(c, key, k), divergent, r);
    assert o in c && p in c && key(o) == k && key(p) == k;
  }

  lemma DivergentPair(g: Records, divergent: Cause, r: Rejection) returns (o: Observation, p: Observation)
    requires divergent != DuplicateDelivery && r.cause == divergent && r in GroupRejections(g, divergent)
    ensures o in g && p in g && r == Reject(o, divergent) && p.content != o.content
  {
    o := GatherFrom(g, RejectAs(if Identical(g) then DuplicateDelivery else divergent), r);
    var q, s :| q in g && s in g && q.content != s.content;
    p := if q.content != o.content then q else s;
  }

  lemma DivergingRejected(g: Records, divergent: Cause, o: Observation, p: Observation)
    requires o in g && p in g && p.content != o.content
    ensures Reject(o, divergent) in GroupRejections(g, divergent)
  {
    assert p in g - multiset{o};
    assert g == (g - multiset{o}) + multiset{o};
    GatherHas(g, o, RejectAs(divergent), Reject(o, divergent));
  }

  /** Records are rejected as duplicates exactly when all of their key are alike and one precedes them. */
  lemma DuplicateExactly<K>(c: Records, key: Observation -> K, divergent: Cause, f: K -> multiset<Rejection>, r: Rejection)
    requires divergent != DuplicateDelivery && r.cause == DuplicateDelivery
    requires forall k | k in KeysOf(c, key) :: f(k) == GroupRejections(Members(c, key, k), divergent)
    ensures r in Gather(multiset(KeysOf(c, key)), f) <==>
      exists o | o in c :: r == Reject(o, DuplicateDelivery) && AllAlike(c, key, o) && Preceded(c, key, o)
  {
    if r in Gather(multiset(KeysOf(c, key)), f) {
      var k := GatherFrom(multiset(KeysOf(c, key)), f, r);
      var o := DuplicateMember(Members(c, key, k), divergent, r);
      DuplicateHere(c, key, k, o);
    }
    if o :| o in c && r == Reject(o, DuplicateDelivery) && AllAlike(c, key, o) && Preceded(c, key, o) {
      PrecededIsRejected(c, key, divergent, o);
      assert key(o) in KeysOf(c, key);
      GatherHas(multiset(KeysOf(c, key)), key(o), f, r);
    }
  }

  /** Some other record, or copy of this one, in a group under an identity that is not higher. */
  ghost predicate Followed(g: Records, o: Observation) {
    g[o] > 1 || exists p | p in g :: p != o && p.id <= o.id
  }

  lemma DuplicateMember(g: Records, divergent: Cause, r: Rejection) returns (o: Observation)
    requires divergent != DuplicateDelivery && r.cause == DuplicateDelivery && r in GroupRejections(g, divergent)
    ensures o in g && r == Reject(o, DuplicateDelivery) && Identical(g) && Followed(g, o)
  {
    o := GatherFrom(g, RejectAs(if Identical(g) then DuplicateDelivery else divergent), r);
    assert Identical(g);
    if o.id == Front(g).id {
      assert Front(g).content == o.content;
      GatherRemove(g, o, RejectAs(DuplicateDelivery));
      var p := GatherFrom(g - multiset{o}, RejectAs(DuplicateDelivery), r);
      assert p.id == o.id;
    }
  }

  lemma DuplicateHere<K>(c: Records, key: Observation -> K, k: K, o: Observation)
    requires o in Members(c, key, k) && Identical(Members(c, key, k)) && Followed(Members(c, key, k), o)
    ensures o in c && AllAlike(c, key, o) && Preceded(c, key, o)
  {
    forall p | p in c && key(p) == key(o) ensures p.content == o.content {
      assert p in Members(c, key, k);
    }
  }

  lemma PrecededIsRejected<K>(c: Records, key: Observation -> K, divergent: Cause, o: Observation)
    requires o in c && AllAlike(c, key, o) && Preceded(c, key, o)
    ensures Reject(o, DuplicateDelivery) in GroupRejections(Members(c, key, key(o)), divergent)
  {
    var g := Members(c, key, key(o));
    assert o in g;
    var p := o;
    if c[o] <= 1 {
      p :| p in c && p != o && key(p) == key(o) && p.id <= o.id;
    }
    FollowedIsRejected(g, divergent, o, p);
  }

  lemma FollowedIsRejected(g: Records, divergent: Cause, o: Observation, p: Observation)
    requires o in g && Identical(g) && p in g - multiset{o} && p.id <= o.id
    ensures Reject(o, DuplicateDelivery) in GroupRejections(g, divergent)
  {
    assert |g| > 1 by {
      assert g == (g - multiset{o}) + multiset{o};
    }
    GatherHas(g, o, RejectAs(DuplicateDelivery), Reject(o, DuplicateDelivery));
    var front := Front(g);
    assert front.id <= p.id;
    if front.id == o.id {
      RejectedTwice(g, o, p);
    }
    StillThere(Gather(g, RejectAs(DuplicateDelivery)), Reject(front, DuplicateDelivery), Reject(o, DuplicateDelivery));
  }

  lemma StillThere(m: multiset<Rejection>, x: Rejection, r: Rejection)
    requires r in m && (r == x ==> m[r] > 1)
    ensures r in m - multiset{x}
  {
  }

  lemma RejectedTwice(g: Records, o: Observation, p: Observation)
    requires o in g && p in g - multiset{o} && p.id == o.id && p.content == o.content
    ensures Gather(g, RejectAs(DuplicateDelivery))[Reject(o, DuplicateDelivery)] > 1
  {
    GatherRemove(g, o, RejectAs(DuplicateDelivery));
    GatherHas(g - multiset{o}, p, RejectAs(DuplicateDelivery), Reject(o, DuplicateDelivery));
  }

  // ---- all of them together ------------------------------------------------

  lemma CauseParts(ctx: Context, c: Records, r: Rejection)
    ensures r.cause == IdentityCollision ==> (r in Rejections(ctx, c) <==> r in CollisionsIn(c))
    ensures r.cause == DivergentOrigin ==> (r in Rejections(ctx, c) <==> r in OriginGroupsIn(c))
    ensures r.cause == DivergentSequence ==> (r in Rejections(ctx, c) <==> r in SequenceGroupsIn(c))
    ensures r.cause == DuplicateDelivery ==>
      (r in Rejections(ctx, c) <==> r in OriginGroupsIn(c) || r in SequenceGroupsIn(c))
    ensures r.cause == EquivalentAmount || r.cause == OpenDispute ==>
      (r in Rejections(ctx, c) <==> r in DisputeRejections(ctx, c))
  {
    ExclusionParts(c, r);
    LaterParts(ctx, c, r);
  }

  lemma ExclusionParts(c: Records, r: Rejection)
    ensures r in CollisionsIn(c) ==> r.cause == IdentityCollision
    ensures r in OriginGroupsIn(c) ==> r.cause == DuplicateDelivery || r.cause == DivergentOrigin
    ensures r in SequenceGroupsIn(c) ==> r.cause == DuplicateDelivery || r.cause == DivergentSequence
  {
    if r in CollisionsIn(c) {
      var o := CollisionsAreOfRecords(c, r);
    }
    if r in OriginGroupsIn(c) {
      var o := OriginGroupsAreOfRecords(c, r);
    }
    if r in SequenceGroupsIn(c) {
      var o := SequenceGroupsAreOfRecords(c, r);
    }
  }

  lemma LaterParts(ctx: Context, c: Records, r: Rejection)
    ensures r in AdmissionRejections(ctx, c) ==> r.cause.NotAdmissible?
    ensures r in CorrelationRejections(ctx, c) ==> r.cause == NotAttributable
    ensures r in DisputeRejections(ctx, c) ==> r.cause == EquivalentAmount || r.cause == OpenDispute
  {
    if r in AdmissionRejections(ctx, c) {
      var o := RefusalsAreOfRecords(ctx, c, r);
    }
    if r in CorrelationRejections(ctx, c) {
      var o := UnattributedAreOfRecords(ctx, c, r);
    }
    if r in DisputeRejections(ctx, c) {
      var o := DisputesAreOfRecords(ctx, c, r);
    }
  }

  /** Records are rejected for their evidence identity exactly when they share it. */
  lemma CollidedExactly(ctx: Context, c: Records, r: Rejection)
    requires r.cause == IdentityCollision
    ensures r in Rejections(ctx, c) <==> exists o | o in c ::
      r == Reject(o, IdentityCollision) && (c[o] > 1 || exists p | p in c :: p != o && p.id == o.id)
  {
    CauseParts(ctx, c, r);
    CollisionExactly(c, r);
  }

  type Relation = (Observation, Observation) -> bool

  function OfOneOrigin(): Relation {
    (o: Observation, p: Observation) => o.content.origin == p.content.origin
  }

  function OfOneSequence(): Relation {
    (o: Observation, p: Observation) =>
      (o.content.source, o.content.incarnation, o.content.sequence) == (p.content.source, p.content.incarnation, p.content.sequence)
  }

  /** Some related record has another content. */
  ghost predicate IsContradicted(c: Records, o: Observation, related: Relation) {
    exists p | p in c :: related(o, p) && p.content != o.content
  }

  lemma ContradictedExactly<K>(
    c: Records, key: Observation -> K, divergent: Cause, f: K -> multiset<Rejection>, related: Relation, rejected: multiset<Rejection>,
    r: Rejection)
    requires divergent != DuplicateDelivery && r.cause == divergent
    requires forall k | k in KeysOf(c, key) :: f(k) == GroupRejections(Members(c, key, k), divergent)
    requires forall o, p {:trigger related(o, p)} :: related(o, p) <==> key(p) == key(o)
    requires r in rejected <==> r in Gather(multiset(KeysOf(c, key)), f)
    ensures r in rejected <==> exists o | o in c :: r == Reject(o, divergent) && IsContradicted(c, o, related)
  {
    DivergenceExactly(c, key, divergent, f, r);
    forall o | o in c ensures !AllAlike(c, key, o) <==> IsContradicted(c, o, related) {
      assert forall p :: related(o, p) <==> key(p) == key(o);
    }
  }

  /** They are rejected as divergent exactly when their origin comes with another content. */
  lemma OriginDivergedExactly(ctx: Context, c: Records, r: Rejection)
    requires r.cause == DivergentOrigin
    ensures r in Rejections(ctx, c) <==>
      exists o | o in c :: r == Reject(o, DivergentOrigin) && IsContradicted(c, o, OfOneOrigin())
  {
    CauseParts(ctx, c, r);
    ContradictedExactly<Id>(c, OriginOf, DivergentOrigin, OriginGroupAt(c), OfOneOrigin(), Rejections(ctx, c), r);
  }

  /** And so are those whose source sequence does. */
  lemma SequenceDivergedExactly(ctx: Context, c: Records, r: Rejection)
    requires r.cause == DivergentSequence
    ensures r in Rejections(ctx, c) <==>
      exists o | o in c :: r == Reject(o, DivergentSequence) && IsContradicted(c, o, OfOneSequence())
  {
    CauseParts(ctx, c, r);
    ContradictedExactly(c, SequenceOf, DivergentSequence, SequenceGroupAt(c), OfOneSequence(), Rejections(ctx, c), r);
  }

  /** All related records have the content of this one, and another of them, or another copy of
      this one, has an identity that is not higher. */
  ghost predicate IsCopy(c: Records, o: Observation, related: Relation) {
    && (forall p | p in c && related(o, p) :: p.content == o.content)
    && (c[o] > 1 || exists p | p in c :: p != o && related(o, p) && p.id <= o.id)
  }

  /** They are rejected as duplicates exactly when they are copies, by origin or by sequence. */
  lemma DuplicatedExactly(ctx: Context, c: Records, r: Rejection)
    requires r.cause == DuplicateDelivery
    ensures r in Rejections(ctx, c) <==> exists o | o in c ::
      r == Reject(o, DuplicateDelivery) && (IsCopy(c, o, OfOneOrigin()) || IsCopy(c, o, OfOneSequence()))
  {
    CauseParts(ctx, c, r);
    DuplicateExactly<Id>(c, OriginOf, DivergentOrigin, OriginGroupAt(c), r);
    DuplicateExactly(c, SequenceOf, DivergentSequence, SequenceGroupAt(c), r);
    forall o | o in c
      ensures AllAlike<Id>(c, OriginOf, o) && Preceded<Id>(c, OriginOf, o) <==> IsCopy(c, o, OfOneOrigin())
      ensures AllAlike(c, SequenceOf, o) && Preceded(c, SequenceOf, o) <==> IsCopy(c, o, OfOneSequence())
    {
      CopyMeans(c, o);
    }
  }

  lemma CopyMeans(c: Records, o: Observation)
    ensures AllAlike<Id>(c, OriginOf, o) && Preceded<Id>(c, OriginOf, o) <==> IsCopy(c, o, OfOneOrigin())
    ensures AllAlike(c, SequenceOf, o) && Preceded(c, SequenceOf, o) <==> IsCopy(c, o, OfOneSequence())
  {
    forall p
      ensures OriginOf(p) == OriginOf(o) <==> OfOneOrigin()(o, p)
      ensures SequenceOf(p) == SequenceOf(o) <==> OfOneSequence()(o, p)
    {
    }
  }
}
