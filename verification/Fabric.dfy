/** The entities of a fabric topology document. An identity is a natural number,
    ordered as the source orders identities; 0 is the nil identity. */
module Fabric {

  import opened Common

  type Id = nat
  type Instant = int // nanoseconds

  const NIL: Id := 0

  datatype Provenance = Real | Synthetic | Replay | Unsupported

  predicate Countable(p: Provenance) {
    p == Real || p == Synthetic || p == Replay
  }

  datatype Source = Source(name: string, authority: nat, provenance: Provenance, enabled: bool)

  datatype Incarnation = Incarnation(source: Id, bootEpoch: nat, startedAt: Instant, retiredAt: Option<Instant>)

  datatype Generation = Generation(name: string)

  datatype Binding = Binding(id: Id, resource: Id, generation: Id, validFrom: Instant, validTo: Option<Instant>)

  datatype Scope = Scope(name: string, parent: Option<Id>, members: seq<Id>)

  datatype Resource = Resource(name: string, locality: string, scope: Id)

  datatype Flow = Flow(name: string, scope: Id, generation: Id, pathHint: seq<Id>)

  datatype Path = Path(name: string, scope: Id, generation: Id, hops: seq<Id>)

  datatype Reservation = Reservation(
    name: string, scope: Id, generation: Id, resource: Option<Id>, validFrom: Instant, validTo: Option<Instant>)

  /** An immutable topology document; each entity is filed under its identity. */
  datatype Topology = Topology(
    generations: map<Id, Generation>,
    sources: map<Id, Source>,
    incarnations: map<Id, Incarnation>,
    scopes: map<Id, Scope>,
    resources: map<Id, Resource>,
    bindings: seq<Binding>,
    flows: map<Id, Flow>,
    paths: map<Id, Path>,
    reservations: map<Id, Reservation>)

  function Find<T>(m: map<Id, T>, id: Id): Option<T> {
    if id in m then Some(m[id]) else None
  }

  predicate BindingCovers(b: Binding, resource: Id, generation: Id, at: Instant) {
    && b.resource == resource
    && b.generation == generation
    && b.validFrom <= at
    && (b.validTo.Some? ==> at <= b.validTo.value)
  }

  predicate GenerationBinds(t: Topology, resource: Id, generation: Id, at: Instant) {
    exists i | 0 <= i < |t.bindings| :: BindingCovers(t.bindings[i], resource, generation, at)
  }
}
