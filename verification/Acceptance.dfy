/** Which records are admitted and why others are not, in terms of the records, the topology
    and the policy. */
module Acceptance {

  import opened Common
  import opened Fabric
  import opened Evidence
  import opened Folds
  import opened Derivation
  import opened DerivationTheorems

  // ---- considered ----------------------------------------------------------

  /** The candidates are the records whose reporting window starts and ends within the period. */
  lemma ConsideredExactly(evidence: Records, period: Window, o: Observation)
    ensures Considered(evidence, period)[o] ==
      if period.start <= o.content.windowStart && o.content.windowEnd <= period.end then evidence[o] else 0
  {
  }

  // ---- kept apart ----------------------------------------------------------

  ghost predicate SameOrigin(o: Observation, p: Observation) {
    o.content.origin == p.content.origin
  }

  ghost predicate SameSequence(o: Observation, p: Observation) {
    && o.content.source == p.content.source && o.content.incarnation == p.content.incarnation
    && o.content.sequence == p.content.sequence
  }

  ghost predicate SameDelivery(o: Observation, p: Observation) {
    SameOrigin(o, p) || SameSequence(o, p)
  }

  /** The only record of its identity, and of its origin and its source sequence the one of
      lowest identity, all others having the same content. */
  ghost predicate StandsAlone(c: Records, o: Observation) {
    && c[o] == 1
    && (forall p | p in c && p != o :: p.id != o.id)
    && (forall p | p in c && SameDelivery(o, p) :: p.content == o.content && o.id <= p.id)
  }

  lemma ExcludedExactly(c: Records, o: Observation)
    requires o in c
    ensures Excluded(c, o) <==> !StandsAlone(c, o)
  {
    forall p | p in c ensures SameDelivery(o, p) <==> OriginOf(p) == OriginOf(o) || SequenceOf(p) == SequenceOf(o) {
    }
    if Outranked<Id>(c, OriginOf, o) || Outranked(c, SequenceOf, o) {
      var p :| p in c && SameDelivery(o, p) && (p.content != o.content || p.id < o.id);
    }
    if !Outranked<Id>(c, OriginOf, o) && !Outranked(c, SequenceOf, o) {
      forall p | p in c && SameDelivery(o, p) ensures p.content == o.content && o.id <= p.id {
      }
    }
  }

  // ---- admitted ------------------------------------------------------------

  /** Its source may be counted and has not been seen at a later epoch of the same, declared run. */
  ghost predicate Countworthy(ctx: Context, c: Records, o: Observation) {
    && o.content.source in ctx.topology.sources
    && ctx.topology.sources[o.content.source].provenance != Unsupported
    && ctx.topology.sources[o.content.source].enabled
    && (o.content.incarnation in ctx.topology.incarnations ==>
          && ctx.topology.incarnations[o.content.incarnation].bootEpoch <= o.content.epoch
          && forall p | p in c && p.content.incarnation == o.content.incarnation :: p.content.epoch <= o.content.epoch)
  }

  /** The k-th binding ties the resource a record names to its generation when it was observed. */
  ghost predicate BoundBy(t: Topology, o: Observation, k: int) {
    && 0 <= k < |t.bindings| && o.content.resource == Some(t.bindings[k].resource)
    && t.bindings[k].generation == o.content.generation
    && t.bindings[k].validFrom <= o.content.observedAt
    && (t.bindings[k].validTo.Some? ==> o.content.observedAt <= t.bindings[k].validTo.value)
  }

  /** Where the policy demands it, the declared run is one of the source's and was on when the
      record came in, and a resource was bound to the generation when it was observed. */
  ghost predicate Grounded(ctx: Context, o: Observation) {
    && (ctx.policy.freshness.requireIncarnationCoverage ==>
          && o.content.incarnation in ctx.topology.incarnations
          && var i := ctx.topology.incarnations[o.content.incarnation];
             i.source == o.content.source && i.startedAt <= o.receivedAt
             && (i.retiredAt.Some? ==> o.receivedAt <= i.retiredAt.value))
    && (ctx.policy.freshness.requireGenerationBinding && o.content.resource.Some? ==>
          exists k :: BoundBy(ctx.topology, o, k))
  }

  /** Its times make sense, and it is as young as the policy asks; from further ahead than the
      clock skew allows it is usable unless the policy refuses that. */
  ghost predicate Timely(ctx: Context, o: Observation) {
    var (f, seen, came) := (ctx.policy.freshness, o.content.observedAt, o.receivedAt);
    && seen <= came
    && if came <= ctx.asOf + f.skewAllowance then
         ctx.asOf - seen <= f.freshTtl || (ctx.policy.stale == IncludeMarked && ctx.asOf - seen <= f.staleTtl)
       else !f.rejectFuture
  }

  lemma BoundExactly(ctx: Context, o: Observation)
    ensures Bound(o, ctx.topology) <==> o.content.resource.None? || exists k :: BoundBy(ctx.topology, o, k)
  {
    if o.content.resource.Some? {
      forall k | 0 <= k < |ctx.topology.bindings|
        ensures BoundBy(ctx.topology, o, k) <==> BindingCovers(
                  ctx.topology.bindings[k], o.content.resource.value, o.content.generation, o.content.observedAt)
      {
      }
    }
  }

  /** What the rules about a record's origin amount to. */
  lemma PlacedExactly(ctx: Context, o: Observation)
    requires o.content.source in ctx.topology.sources
    ensures var (t, source) := (ctx.topology, ctx.topology.sources[o.content.source]);
      WellPlaced(o, ctx.policy.freshness, t, source, Find(t.incarnations, o.content.incarnation)) <==>
        && source.provenance != Unsupported && source.enabled && Grounded(ctx, o)
        && (o.content.incarnation in t.incarnations ==> t.incarnations[o.content.incarnation].bootEpoch <= o.content.epoch)
  {
    BoundExactly(ctx, o);
  }

  lemma TimelyExactly(ctx: Context, o: Observation)
    requires 0 <= ctx.policy.freshness.freshTtl <= ctx.policy.freshness.staleTtl
    ensures Timely(ctx, o) <==>
      if InTime(o, ctx.asOf, ctx.policy.freshness)
      then Age(o, ctx.asOf) <= ctx.policy.freshness.freshTtl
           || (Age(o, ctx.asOf) <= ctx.policy.freshness.staleTtl && ctx.policy.stale == IncludeMarked)
      else o.content.observedAt <= o.receivedAt && !ctx.policy.freshness.rejectFuture
  {
  }

  lemma RefusalExactly(ctx: Context, c: Records, o: Observation)
    requires o in c && o.content.source in ctx.topology.sources
    requires 0 <= ctx.policy.freshness.freshTtl <= ctx.policy.freshness.staleTtl
    ensures Refusal(ctx, AtPeak(c, o), o) == NoReason <==> Countworthy(ctx, c, o) && Grounded(ctx, o) && Timely(ctx, o)
  {
    PlacedExactly(ctx, o);
    TimelyExactly(ctx, o);
  }

  /** A considered record is admitted exactly when it stands alone, its source may be counted,
      it is grounded in the topology and it is timely. */
  lemma AdmittedExactly(ctx: Context, c: Records, o: Observation)
    requires 0 <= ctx.policy.freshness.freshTtl <= ctx.policy.freshness.staleTtl
    ensures o in Admitted(ctx, c) <==>
      o in c && StandsAlone(c, o) && Countworthy(ctx, c, o) && Grounded(ctx, o) && Timely(ctx, o)
  {
    if o in c {
      ExcludedExactly(c, o);
      if o.content.source in ctx.topology.sources {
        PlacedExactly(ctx, o);
        TimelyExactly(ctx, o);
        RefusalExactly(ctx, c, o);
      }
    }
  }
}
