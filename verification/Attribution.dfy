/** Where evidence is counted, in terms of the entities a record names and the topology. */
module Attribution {

  import opened Common
  import opened Fabric
  import opened Evidence
  import opened Folds
  import opened Derivation
  import opened DerivationTheorems

  // ---- what a record names -------------------------------------------------

  /** The first entity a record names. */
  datatype Subject = OfResource(id: Id) | OfPath(id: Id) | OfFlow(id: Id) | OfReservation(id: Id) | OfNothing

  /** A resource goes before a path, a path before a flow, a flow before a reservation. */
  ghost predicate Concerns(o: Observation, s: Subject) {
    match s
    case OfResource(id) => o.content.resource == Some(id)
    case OfPath(id) => o.content.resource == None && o.content.path == Some(id)
    case OfFlow(id) => o.content.resource == o.content.path == None && o.content.flow == Some(id)
    case OfReservation(id) =>
      o.content.resource == o.content.path == o.content.flow == None && o.content.reservation == Some(id)
    case OfNothing => o.content.resource == o.content.path == o.content.flow == o.content.reservation == None
  }

  /** Whether the topology says in which scope the entity is. */
  ghost predicate Located(t: Topology, s: Subject) {
    match s
    case OfResource(id) => id in t.resources && t.resources[id].scope in t.scopes
    case OfPath(id) => id in t.paths
    case OfFlow(id) => id in t.flows
    case OfReservation(id) => id in t.reservations
    case OfNothing => true
  }

  ghost function ScopeOf(t: Topology, s: Subject): Id
    requires Located(t, s)
  {
    match s
    case OfResource(id) => t.resources[id].scope
    case OfPath(id) => t.paths[id].scope
    case OfFlow(id) => t.flows[id].scope
    case OfReservation(id) => t.reservations[id].scope
    case OfNothing => NIL
  }

  /** A claim key names exactly this entity. */
  ghost predicate About(key: ClaimKey, s: Subject) {
    && (key.basis, key.resource, key.path, key.flow, key.reservation)
       == match s
          case OfResource(id) => (ResourceDirect, id, NIL, NIL, NIL)
          case OfPath(id) => (PathDirect, NIL, id, NIL, NIL)
          case OfFlow(id) => (FlowDirect, NIL, NIL, id, NIL)
          case OfReservation(id) => (ReservationDirect, NIL, NIL, NIL, id)
          case OfNothing => (Unattributed, NIL, NIL, NIL, NIL)
  }

  lemma OneSubject(o: Observation) returns (s: Subject)
    ensures Concerns(o, s) && forall x :: Concerns(o, x) ==> x == s
  {
    s := if o.content.resource.Some? then OfResource(o.content.resource.value)
         else if o.content.path.Some? then OfPath(o.content.path.value)
         else if o.content.flow.Some? then OfFlow(o.content.flow.value)
         else if o.content.reservation.Some? then OfReservation(o.content.reservation.value)
         else OfNothing;
  }

  /** The cell a record belongs to: its own generation, measure and category, and the entity
      it names first, in the scope the topology has for that entity. */
  ghost predicate BelongsTo(t: Topology, o: Observation, key: ClaimKey) {
    && key.generation == o.content.generation && key.kind == o.content.kind && key.category == o.content.category
    && exists s :: Concerns(o, s) && Located(t, s) && About(key, s) && key.scope == ScopeOf(t, s)
  }

  ghost predicate Lost(t: Topology, o: Observation) {
    exists s :: Concerns(o, s) && !Located(t, s)
  }

  lemma AttributedExactly(t: Topology, o: Observation, key: ClaimKey)
    ensures Attribute(o, t) == Ok(key) <==> BelongsTo(t, o, key)
    ensures Attribute(o, t).Err? <==> Lost(t, o)
  {
    var s := OneSubject(o);
    if Located(t, s) && About(key, s) {
      assert BelongsTo(t, o, key) <==>
        key.generation == o.content.generation && key.kind == o.content.kind && key.category == o.content.category
        && key.scope == ScopeOf(t, s);
    }
  }

  lemma LostOrNot(t: Topology, o: Observation)
    ensures Lost(t, o) <==> forall key :: !BelongsTo(t, o, key)
  {
    forall key ensures Attribute(o, t) == Ok(key) <==> BelongsTo(t, o, key) {
      AttributedExactly(t, o, key);
    }
    AttributedExactly(t, o, DeliveryKey(o));
    if !Lost(t, o) {
      assert BelongsTo(t, o, Attribute(o, t).value);
    }
  }

  // ---- contributions -------------------------------------------------------

  /** The admitted contributions to one cell and window. */
  ghost function Reporting(ctx: Context, c: Records, key: ClaimKey, w: Window): set<Observation> {
    set o | o in Admitted(ctx, c) && o.content.role == ContributionRole && BelongsTo(ctx.topology, o, key)
            && o.content.windowStart == w.start && o.content.windowEnd == w.end
  }

  lemma ReportingIsCell(ctx: Context, c: Records, ck: CellKey)
    ensures Cell(ctx, c, ck) == Reporting(ctx, c, ck.key, ck.window)
  {
    forall o | o in Admitted(ctx, c)
      ensures o in Cell(ctx, c, ck) <==> o in Reporting(ctx, c, ck.key, ck.window)
    {
      AttributedExactly(ctx.topology, o, ck.key);
    }
  }

  /** Whatever is counted is one admitted record, counted where it belongs, with what the
      topology says of its source. */
  lemma CountedWhereItBelongs(ctx: Context, c: Records, x: Contribution) returns (o: Observation)
    requires x in Contributions(ctx, c)
    ensures o in Reporting(ctx, c, x.key, x.window)
    ensures x.evidence == o.id && x.source == o.content.source && x.amount == o.content.amount
    ensures o.content.source in ctx.topology.sources
    ensures x.provenance == ctx.topology.sources[o.content.source].provenance
    ensures x.authority == ctx.topology.sources[o.content.source].authority
  {
    var ck :| ck in CellKeys(ctx, c) && ContributionOf(ctx, c, ck) == Some(x);
    ChosenInCell(ctx, Cell(ctx, c, ck));
    o := Chosen(ctx, Cell(ctx, c, ck)).value;
    ReportingIsCell(ctx, c, ck);
    SourceDeclared(ctx, c, o);
  }

  lemma SourceDeclared(ctx: Context, c: Records, o: Observation)
    requires o in Admitted(ctx, c)
    ensures o.content.source in ctx.topology.sources
  {
  }

  // ---- totals --------------------------------------------------------------

  /** The domain a total is reported for; a total that names an undefined entity is filed under no scope. */
  ghost predicate ReportedFor(t: Topology, o: Observation, d: DomainKey) {
    && d.generation == o.content.generation && d.kind == o.content.kind
    && if Lost(t, o) then d.scope == NIL else exists key :: BelongsTo(t, o, key) && d.scope == key.scope
  }

  lemma DomainExactly(t: Topology, o: Observation, d: DomainKey)
    ensures TotalCellOf(t, o).domain == d <==> ReportedFor(t, o, d)
  {
    LostOrNot(t, o);
    forall key ensures Attribute(o, t) == Ok(key) <==> BelongsTo(t, o, key) {
      AttributedExactly(t, o, key);
    }
    AttributedExactly(t, o, DeliveryKey(o));
  }

  /** The admitted totals of one domain and window. */
  ghost function TotalsFor(ctx: Context, c: Records, d: DomainKey, w: Window): set<Observation> {
    set o | o in Admitted(ctx, c) && o.content.role == TotalRole && ReportedFor(ctx.topology, o, d)
            && o.content.windowStart == w.start && o.content.windowEnd == w.end
  }

  lemma TotalsForIsGroup(ctx: Context, c: Records, tk: TotalKey)
    ensures TotalGroup(ctx, c, tk) == TotalsFor(ctx, c, tk.domain, tk.window)
  {
    forall o | o in Admitted(ctx, c)
      ensures o in TotalGroup(ctx, c, tk) <==> o in TotalsFor(ctx, c, tk.domain, tk.window)
    {
      DomainExactly(ctx.topology, o, tk.domain);
    }
  }

  /** A kept total is this record of a group that all reports its amount under no lower identity. */
  ghost predicate StandsFor(o: Observation, k: TotalCell, g: set<Observation>) {
    && o in g && k.evidence == o.id && k.source == o.content.source && k.amount == o.content.amount
    && forall p | p in g :: p.content.amount == k.amount && o.id <= p.id
  }

  /** A kept total is the one of lowest identity among the admitted totals of its domain and
      window, which all report its amount. */
  lemma KeptExactly(ctx: Context, c: Records, k: TotalCell)
    ensures k in KeptTotals(ctx, c) <==>
      exists o :: StandsFor(o, k, TotalsFor(ctx, c, k.domain, k.window))
  {
    if k in KeptTotals(ctx, c) {
      KeptIsFirst(ctx, c, k);
    }
    if o :| StandsFor(o, k, TotalsFor(ctx, c, k.domain, k.window)) {
      FirstIsKept(ctx, c, k, o);
    }
  }

  lemma KeptIsFirst(ctx: Context, c: Records, k: TotalCell)
    requires k in KeptTotals(ctx, c)
    ensures exists o :: StandsFor(o, k, TotalsFor(ctx, c, k.domain, k.window))
  {
    var tk :| tk in TotalKeys(ctx, c) && Agreed(TotalGroup(ctx, c, tk)) && TotalGroup(ctx, c, tk) != {}
              && k == TotalCellOf(ctx.topology, First(TotalGroup(ctx, c, tk)));
    var g := TotalGroup(ctx, c, tk);
    var o := First(g);
    assert tk == TotalKey(k.domain, k.window);
    TotalsForIsGroup(ctx, c, tk);
    OneAmount(g, o);
    assert StandsFor(o, k, g);
  }

  lemma OneAmount(g: set<Observation>, o: Observation)
    requires o in g
    ensures |Amounts(g)| == 1 <==> forall p | p in g :: p.content.amount == o.content.amount
  {
    var a := o.content.amount;
    assert a in Amounts(g);
    if forall p | p in g :: p.content.amount == a {
      assert Amounts(g) == {a};
    }
    if |Amounts(g)| == 1 {
      assert |Amounts(g) - {a}| == 0;
      forall p | p in g ensures p.content.amount == a {
        assert p.content.amount in Amounts(g);
        assert p.content.amount !in Amounts(g) - {a};
      }
    }
  }

  lemma FirstIsKept(ctx: Context, c: Records, k: TotalCell, o: Observation)
    requires StandsFor(o, k, TotalsFor(ctx, c, k.domain, k.window))
    ensures k in KeptTotals(ctx, c)
  {
    var tk := TotalKey(k.domain, k.window);
    TotalsForIsGroup(ctx, c, tk);
    var g := TotalGroup(ctx, c, tk);
    OneAmount(g, o);
    assert o in Totals(ctx, c) && TotalKeyOf(ctx.topology)(o) == tk;
    var first := First(g);
    assert first.id == o.id;
    AdmittedAreDistinct(ctx, c, first, o);
    assert TotalCellOf(ctx.topology, o) == k;
  }

  // ---- records that belong nowhere -----------------------------------------

  /** An admitted contribution is rejected as not attributable exactly when the entity it names
      first is not in the topology, or is a resource whose scope is not. */
  lemma LostAreRejected(ctx: Context, c: Records, id: Id)
    ensures (exists r | r in Rejections(ctx, c) :: r.cause == NotAttributable && r.evidence == id) <==>
      exists o | o in Admitted(ctx, c) :: o.id == id && o.content.role == ContributionRole && Lost(ctx.topology, o)
  {
    if r :| r in Rejections(ctx, c) && r.cause == NotAttributable && r.evidence == id {
      var o := UnattributableOnly(ctx, c, r);
      AttributedExactly(ctx.topology, o, DeliveryKey(o));
    }
    if o :| o in Admitted(ctx, c) && o.id == id && o.content.role == ContributionRole && Lost(ctx.topology, o) {
      AttributedExactly(ctx.topology, o, DeliveryKey(o));
      UnattributableIsGathered(ctx, c, o);
    }
  }

  lemma UnattributableOnly(ctx: Context, c: Records, r: Rejection) returns (o: Observation)
    requires r in Rejections(ctx, c) && r.cause == NotAttributable
    ensures o in Unattributable(ctx, c) && o.id == r.evidence
  {
    RejectionCauses(ctx, c, r);
    o := GatherFrom(multiset(Unattributable(ctx, c)), RejectAs(NotAttributable), r);
  }

  lemma UnattributableIsGathered(ctx: Context, c: Records, o: Observation)
    requires o in Unattributable(ctx, c)
    ensures Reject(o, NotAttributable) in Rejections(ctx, c)
  {
    GatherHas(multiset(Unattributable(ctx, c)), o, RejectAs(NotAttributable), Reject(o, NotAttributable));
  }

  /** Each part of the rejections has causes of its own. */
  lemma RejectionCauses(ctx: Context, c: Records, r: Rejection)
    requires r in Rejections(ctx, c) && r.cause == NotAttributable
    ensures r in CorrelationRejections(ctx, c)
  {
    if r in ExclusionRejections(c) {
      var o := ExclusionsAreOfRecords(c, r);
    } else if r in AdmissionRejections(ctx, c) {
      var o := RefusalsAreOfRecords(ctx, c, r);
    } else if r !in CorrelationRejections(ctx, c) {
      var o := DisputesAreOfRecords(ctx, c, r);
    }
  }
}
