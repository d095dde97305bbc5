/** What a valid topology is, in terms of its entities and of what holds at each instant. */
module ValidTopology {

  import opened Common
  import opened Fabric
  import opened Folds
  import opened Forest
  import opened Sweep
  import opened Validation

  /** At most as many entities of each sort as the budgets allow. */
  predicate IsSmall(t: Topology) {
    && |t.scopes| <= 1_000_000 && |t.resources| <= 4_000_000 && |t.flows| <= 4_000_000 && |t.paths| <= 1_000_000
    && |t.reservations| <= 1_000_000 && |t.sources| <= 4096 && |t.generations| <= 4096
  }

  predicate AreDefined(t: Topology, scope: Id, generation: Id, resources: seq<Id>) {
    scope in t.scopes && generation in t.generations && forall r | r in resources :: r in t.resources
  }

  /** Whatever an entity names is defined. */
  predicate IsClosed(t: Topology) {
    && (forall id | id in t.scopes && t.scopes[id].parent.Some? :: t.scopes[id].parent.value in t.scopes)
    && (forall id | id in t.incarnations :: t.incarnations[id].source in t.sources)
    && (forall b | b in t.bindings :: b.resource in t.resources && b.generation in t.generations)
    && (forall id | id in t.flows :: AreDefined(t, t.flows[id].scope, t.flows[id].generation, t.flows[id].pathHint))
    && (forall id | id in t.paths :: AreDefined(t, t.paths[id].scope, t.paths[id].generation, t.paths[id].hops))
    && (forall id | id in t.reservations :: AreDefined(t, t.reservations[id].scope, t.reservations[id].generation, [])
          && (t.reservations[id].resource.Some? ==> t.reservations[id].resource.value in t.resources))
  }

  predicate IsLiveAt(i: Incarnation, at: Instant) {
    i.startedAt <= at && (i.retiredAt.Some? ==> at <= i.retiredAt.value)
  }

  predicate HoldsAt(b: Binding, at: Instant) {
    b.validFrom <= at && (b.validTo.Some? ==> at <= b.validTo.value)
  }

  /** At no instant are two incarnations of one source live. */
  ghost predicate OneLife(t: Topology) {
    forall a, b, at | a in t.incarnations && b in t.incarnations && a != b ::
      !(t.incarnations[a].source == t.incarnations[b].source && IsLiveAt(t.incarnations[a], at) && IsLiveAt(t.incarnations[b], at))
  }

  /** At no instant do two bindings of one resource to one generation hold. */
  ghost predicate OneBinding(t: Topology) {
    forall i, j, at | 0 <= i < j < |t.bindings| ::
      !(t.bindings[i].resource == t.bindings[j].resource && t.bindings[i].generation == t.bindings[j].generation
        && HoldsAt(t.bindings[i], at) && HoldsAt(t.bindings[j], at))
  }

  predicate Covers(s: Span, at: Instant) {
    s.from <= at && (s.to.Some? ==> at <= s.to.value)
  }

  /** Proper intervals overlap exactly when they share an instant, ends included. */
  lemma OverlapExactly(a: Span, b: Span)
    requires Proper(a) && Proper(b)
    ensures Overlap(a, b) <==> exists at :: Covers(a, at) && Covers(b, at)
  {
    if Overlap(a, b) {
      var at := if a.from < b.from then b.from else a.from;
      assert Covers(a, at) && Covers(b, at);
    }
  }

  lemma LivesApart(t: Topology, a: Id, b: Id)
    requires a in t.incarnations && b in t.incarnations && IntervalsProper(t)
    ensures Clash(IncarnationSpan(t)(a), IncarnationSpan(t)(b)) <==>
      t.incarnations[a].source == t.incarnations[b].source
      && exists at :: IsLiveAt(t.incarnations[a], at) && IsLiveAt(t.incarnations[b], at)
  {
    var x, y := IncarnationSpan(t)(a), IncarnationSpan(t)(b);
    OverlapExactly(x, y);
    forall at
      ensures Covers(x, at) <==> IsLiveAt(t.incarnations[a], at)
      ensures Covers(y, at) <==> IsLiveAt(t.incarnations[b], at)
    {
    }
  }

  lemma OneLifeExactly(t: Topology)
    requires IntervalsProper(t)
    ensures IncarnationsDisjoint(t) <==> OneLife(t)
  {
    forall a, b | a in t.incarnations && b in t.incarnations
      ensures Clash(IncarnationSpan(t)(a), IncarnationSpan(t)(b)) <==>
        t.incarnations[a].source == t.incarnations[b].source
        && exists at :: IsLiveAt(t.incarnations[a], at) && IsLiveAt(t.incarnations[b], at)
    {
      LivesApart(t, a, b);
    }
  }

  lemma BindingsApart(a: Binding, b: Binding)
    requires Proper(BindingSpan(a)) && Proper(BindingSpan(b))
    ensures Clash(BindingSpan(a), BindingSpan(b)) <==>
      a.resource == b.resource && a.generation == b.generation && exists at :: HoldsAt(a, at) && HoldsAt(b, at)
  {
    OverlapExactly(BindingSpan(a), BindingSpan(b));
    forall at
      ensures Covers(BindingSpan(a), at) <==> HoldsAt(a, at)
      ensures Covers(BindingSpan(b), at) <==> HoldsAt(b, at)
    {
    }
  }

  lemma OneBindingExactly(t: Topology)
    requires IntervalsProper(t)
    ensures BindingsDisjoint(t) <==> OneBinding(t)
  {
    var spans := Mapped(t.bindings, BindingSpan);
    forall i, j | 0 <= i < j < |t.bindings|
      ensures Clash(spans[i], spans[j]) <==>
        && t.bindings[i].resource == t.bindings[j].resource && t.bindings[i].generation == t.bindings[j].generation
        && exists at :: HoldsAt(t.bindings[i], at) && HoldsAt(t.bindings[j], at)
    {
      BindingsApart(t.bindings[i], t.bindings[j]);
    }
  }

  lemma PlaceExactly(t: Topology, scope: Id, generation: Id, resources: seq<Id>)
    ensures PlaceFault(t, scope, generation, resources).None? <==> AreDefined(t, scope, generation, resources)
  {
  }

  lemma UsesExactly(t: Topology)
    ensures UsesValid(t) <==>
      && (forall id | id in t.flows :: AreDefined(t, t.flows[id].scope, t.flows[id].generation, t.flows[id].pathHint))
      && (forall id | id in t.paths :: AreDefined(t, t.paths[id].scope, t.paths[id].generation, t.paths[id].hops))
      && (forall id | id in t.reservations :: AreDefined(t, t.reservations[id].scope, t.reservations[id].generation, [])
            && (t.reservations[id].resource.Some? ==> t.reservations[id].resource.value in t.resources))
  {
    forall id | id in t.reservations
      ensures ReservationFault(t)(t.reservations[id]).None? <==>
        AreDefined(t, t.reservations[id].scope, t.reservations[id].generation, [])
        && (t.reservations[id].resource.Some? ==> t.reservations[id].resource.value in t.resources)
    {
      var r := t.reservations[id];
      PlaceExactly(t, r.scope, r.generation, match r.resource case None => [] case Some(x) => [x]);
    }
    forall scope, generation, resources
      ensures PlaceFault(t, scope, generation, resources).None? <==> AreDefined(t, scope, generation, resources)
    {
      PlaceExactly(t, scope, generation, resources);
    }
  }

  lemma ClosedTimes(t: Topology)
    ensures Faultless(t.incarnations, IncarnationFault(t)) <==> forall id | id in t.incarnations :: t.incarnations[id].source in t.sources
    ensures BindingsKnown(t) <==> forall b | b in t.bindings :: b.resource in t.resources && b.generation in t.generations
  {
    if BindingsKnown(t) {
      forall b | b in t.bindings ensures b.resource in t.resources && b.generation in t.generations {
        var k :| 0 <= k < |t.bindings| && t.bindings[k] == b;
        assert BindingFault(t)(t.bindings[k]).None?;
      }
    }
  }

  /** A topology is valid exactly when it is within the budgets, names only what it defines, its
      scopes form a forest, each resource is a member of exactly the scope it declares, and at
      no instant does a source have two incarnations or a resource two bindings to one
      generation. */
  lemma ValidExactly(t: Topology)
    requires IntervalsProper(t)
    ensures IsValid(t) <==> IsSmall(t) && IsClosed(t) && IsForest(t.scopes) && Owned(t) && OneLife(t) && OneBinding(t)
  {
    DefinedParents(t);
    ClosedTimes(t);
    UsesExactly(t);
    OneLifeExactly(t);
    OneBindingExactly(t);
  }
}
