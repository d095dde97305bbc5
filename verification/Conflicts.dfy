/** The conflict records of a derivation: what they leave out of the count is on record,
    and when they depend on the order evidence was stored in. */
module Conflicts {

  import opened Common
  import opened Fabric
  import opened Evidence
  import opened Folds
  import opened Ordering
  import opened Derivation
  import opened DerivationTheorems
  import opened Grouping
  import opened Cells

  // ---- resolved disputes ---------------------------------------------------

  lemma ResolvedOnRecord(ctx: Context, c: Records, x: Conflict)
    ensures x in ResolvedConflicts(ctx, c) <==> x in CellConflicts(ctx, c) && x.resolved
  {
    if x in ResolvedConflicts(ctx, c) {
      ResolvedIsRecorded(ctx, c, x);
    }
    if x in CellConflicts(ctx, c) && x.resolved {
      RecordedIsResolved(ctx, c, x);
    }
  }

  lemma ResolvedIsRecorded(ctx: Context, c: Records, x: Conflict)
    requires x in ResolvedConflicts(ctx, c)
    ensures x in CellConflicts(ctx, c) && x.resolved
  {
    var ck :| ck in CellKeys(ctx, c) && |Amounts(Cell(ctx, c, ck))| != 1 && ContributionOf(ctx, c, ck).Some?
      && x == CellConflict(ck.key, Cell(ctx, c, ck), true);
    GatherHas(multiset(CellKeys(ctx, c)), ck, CellConflictAt(ctx, c), x);
  }

  lemma RecordedIsResolved(ctx: Context, c: Records, x: Conflict)
    requires x in CellConflicts(ctx, c) && x.resolved
    ensures x in ResolvedConflicts(ctx, c)
  {
    var ck := GatherFrom(multiset(CellKeys(ctx, c)), CellConflictAt(ctx, c), x);
    assert ContributionOf(ctx, c, ck).Some?;
  }

  // ---- membership by property ----------------------------------------------

  ghost predicate Has<V>(m: multiset<V>, p: V -> bool) {
    exists v | v in m :: p(v)
  }

  lemma SumHas<V>(a: multiset<V>, b: multiset<V>, p: V -> bool)
    ensures Has(a + b, p) <==> Has(a, p) || Has(b, p)
  {
    assert forall v :: v in a + b <==> v in a || v in b;
  }

  lemma GatherHasSome<K, V>(keys: set<K>, f: K -> multiset<V>, p: V -> bool)
    ensures Has(Gather(multiset(keys), f), p) <==> exists k | k in keys :: Has(f(k), p)
  {
    if v :| v in Gather(multiset(keys), f) && p(v) {
      var k := GatherFrom(multiset(keys), f, v);
      assert k in keys && Has(f(k), p);
    }
    if k :| k in keys && Has(f(k), p) {
      var v :| v in f(k) && p(v);
      GatherHas(multiset(keys), k, f, v);
    }
  }

  lemma GatherHasSame<K, V, W>(keys: set<K>, f: K -> multiset<V>, p: V -> bool, g: K -> multiset<W>, q: W -> bool)
    requires forall k | k in keys :: Has(f(k), p) <==> Has(g(k), q)
    ensures Has(Gather(multiset(keys), f), p) <==> Has(Gather(multiset(keys), g), q)
  {
    GatherHasSome(keys, f, p);
    GatherHasSome(keys, g, q);
  }

  lemma GatherHasNone<K, V>(keys: set<K>, f: K -> multiset<V>, p: V -> bool)
    requires forall k | k in keys :: !Has(f(k), p)
    ensures !Has(Gather(multiset(keys), f), p)
  {
    GatherHasSome(keys, f, p);
  }

  // ---- what is left out of the count is on record --------------------------

  /** Causes that leave several records out because they contradict each other. */
  predicate Contradicts(cause: Cause) {
    cause == DivergentOrigin || cause == DivergentSequence || cause == OpenDispute
  }

  function MatterOf(cause: Cause): Matter {
    if cause == OpenDispute then CellAmounts else Deliveries(cause)
  }

  function RejectedAs(cause: Cause, id: Id): Rejection -> bool {
    (r: Rejection) => r.cause == cause && r.evidence == id
  }

  function Naming(matter: Matter, id: Id): Conflict -> bool {
    (x: Conflict) => x.matter == matter && !x.resolved && id in x.participants
  }

  lemma RejectedHas(g: Records, given: Cause, cause: Cause, id: Id)
    ensures Has(Gather(g, RejectAs(given)), RejectedAs(cause, id)) <==> given == cause && id in Parties(g)
  {
    forall r ensures r in Gather(g, RejectAs(given)) ==> r.cause == given && r.evidence in Parties(g) {
      if r in Gather(g, RejectAs(given)) {
        RejectedIsParty(g, given, r);
      }
    }
    if id in Parties(g) {
      var r := PartyIsRejected(g, given, id);
    }
    OneOf(Gather(g, RejectAs(given)), Parties(g), given, cause, id);
  }

  lemma OneOf(rejected: multiset<Rejection>, parties: multiset<Id>, given: Cause, cause: Cause, id: Id)
    requires forall r | r in rejected :: r.cause == given && r.evidence in parties
    requires id in parties ==> exists r | r in rejected :: r.cause == given && r.evidence == id
    ensures Has(rejected, RejectedAs(cause, id)) <==> given == cause && id in parties
  {
    if given == cause && id in parties {
      var r :| r in rejected && r.cause == given && r.evidence == id;
      assert RejectedAs(cause, id)(r);
    }
  }

  lemma RejectedIsParty(g: Records, given: Cause, r: Rejection)
    requires r in Gather(g, RejectAs(given))
    ensures r.cause == given && r.evidence in Parties(g)
  {
    var o := GatherFrom(g, RejectAs(given), r);
    GatherHas<Observation, Id>(g, o, NamedBy, o.id);
  }

  lemma PartyIsRejected(g: Records, given: Cause, id: Id) returns (r: Rejection)
    requires id in Parties(g)
    ensures r in Gather(g, RejectAs(given)) && r.cause == given && r.evidence == id
  {
    var o := GatherFrom<Observation, Id>(g, NamedBy, id);
    r := Reject(o, given);
    GatherHas(g, o, RejectAs(given), r);
  }

  lemma SomethingElse(g: Records)
    ensures |g| <= 1 ==> Identical(g)
  {
    if p, q :| p in g && q in g && p.content != q.content {
      var rest := g - multiset{p};
      assert q in rest && g == rest + multiset{p};
    }
  }

  lemma GroupRejects(g: Records, divergent: Cause, cause: Cause, id: Id)
    requires Contradicts(cause)
    ensures Has(GroupRejections(g, divergent), RejectedAs(cause, id)) <==>
      divergent == cause && !Identical(g) && id in Parties(g)
  {
    SomethingElse(g);
    if Identical(g) {
      RejectedHas(g, DuplicateDelivery, cause, id);
    } else {
      RejectedHas(g, divergent, cause, id);
    }
  }

  lemma GroupRecords(group: seq<Observation>, divergent: Cause, cause: Cause, id: Id)
    requires Contradicts(cause) && divergent != OpenDispute
    ensures Has(Divergence(group, divergent), Naming(MatterOf(cause), id)) <==>
      divergent == cause && !Identical(multiset(group)) && id in Parties(multiset(group))
  {
    if group != [] && !Identical(multiset(group)) {
      assert DeliveryConflict(divergent, group[0], multiset(group)) in Divergence(group, divergent);
    }
  }

  lemma GroupsOnRecord<K>(
    order: seq<Observation>, key: Observation -> K, divergent: Cause, f: K -> multiset<Rejection>, cause: Cause, id: Id)
    requires Contradicts(cause) && divergent != OpenDispute
    requires forall k | k in KeysOf(multiset(order), key) :: f(k) == GroupRejections(Members(multiset(order), key, k), divergent)
    ensures Has(Gather(multiset(KeysOf(multiset(order), key)), f), RejectedAs(cause, id)) <==>
      Has(Divergences(order, key, divergent), Naming(MatterOf(cause), id))
  {
    var g := DivergenceAt(order, key, divergent);
    forall k | k in KeysOf(multiset(order), key)
      ensures Has(f(k), RejectedAs(cause, id)) <==> Has(g(k), Naming(MatterOf(cause), id))
    {
      KeepMembers(order, key, k);
      GroupRejects(Members(multiset(order), key, k), divergent, cause, id);
      GroupRecords(Keep(order, key, k), divergent, cause, id);
    }
    GatherHasSame(KeysOf(multiset(order), key), f, RejectedAs(cause, id), g, Naming(MatterOf(cause), id));
  }

  lemma NothingChosen(ctx: Context, cell: set<Observation>)
    ensures Chosen(ctx, cell).None? ==> |Amounts(cell)| != 1
  {
    if |Amounts(cell)| == 1 {
      var a :| a in Amounts(cell);
      AgreedCell(ctx, cell, a);
    }
  }

  lemma CellOnRecord(ctx: Context, ck: CellKey, cell: set<Observation>, cause: Cause, id: Id)
    requires Contradicts(cause)
    ensures Has(CellRejections(ctx, cell), RejectedAs(cause, id)) <==>
      Has(CellConflictOf(ctx, ck, cell), Naming(MatterOf(cause), id))
  {
    NothingChosen(ctx, cell);
    if Chosen(ctx, cell).None? {
      RejectedHas(multiset(cell), OpenDispute, cause, id);
      assert CellConflict(ck.key, cell, false) in CellConflictOf(ctx, ck, cell);
    } else if |Amounts(cell)| == 1 {
      RejectedHas(multiset(cell - {Chosen(ctx, cell).value}), EquivalentAmount, cause, id);
    }
  }

  lemma CellsOnRecord(ctx: Context, c: Records, cause: Cause, id: Id)
    requires Contradicts(cause)
    ensures Has(DisputeRejections(ctx, c), RejectedAs(cause, id)) <==>
      Has(CellConflicts(ctx, c), Naming(MatterOf(cause), id))
  {
    forall ck ensures Has(CellRejectionsAt(ctx, c)(ck), RejectedAs(cause, id)) <==>
                Has(CellConflictAt(ctx, c)(ck), Naming(MatterOf(cause), id))
    {
      CellOnRecord(ctx, ck, Cell(ctx, c, ck), cause, id);
    }
    GatherHasSame(CellKeys(ctx, c), CellRejectionsAt(ctx, c), RejectedAs(cause, id), CellConflictAt(ctx, c),
                  Naming(MatterOf(cause), id));
  }

  lemma CollisionsApart(c: Records, cause: Cause, id: Id)
    requires Contradicts(cause)
    ensures !Has(CollisionsIn(c), RejectedAs(cause, id))
  {
    forall k: Id ensures !Has(CollisionsAt(c)(k), RejectedAs(cause, id)) {
      RejectedHas(Members<Id>(c, IdOf, k), IdentityCollision, cause, id);
    }
    GatherHasNone<Id, Rejection>(KeysOf<Id>(c, IdOf), CollisionsAt(c), RejectedAs(cause, id));
  }

  lemma RefusalsApart(ctx: Context, c: Records, cause: Cause, id: Id)
    requires Contradicts(cause)
    ensures !Has(AdmissionRejections(ctx, c), RejectedAs(cause, id))
    ensures !Has(CorrelationRejections(ctx, c), RejectedAs(cause, id))
  {
    GatherHasNone(Refused(ctx, c), RefusalOf(ctx, c), RejectedAs(cause, id));
    RejectedHas(multiset(Unattributable(ctx, c)), NotAttributable, cause, id);
  }

  lemma TotalsApart(ctx: Context, c: Records, cause: Cause, id: Id)
    requires Contradicts(cause)
    ensures !Has(TotalConflicts(ctx, c), Naming(MatterOf(cause), id))
  {
    GatherHasNone(TotalKeys(ctx, c), TotalConflictAt(ctx, c), Naming(MatterOf(cause), id));
  }

  lemma RejectionsHave(ctx: Context, c: Records, p: Rejection -> bool)
    ensures Has(Rejections(ctx, c), p) <==>
      || Has(CollisionsIn(c), p) || Has(OriginGroupsIn(c), p) || Has(SequenceGroupsIn(c), p)
      || Has(AdmissionRejections(ctx, c), p) || Has(CorrelationRejections(ctx, c), p) || Has(DisputeRejections(ctx, c), p)
  {
    SumHas(CollisionsIn(c), OriginGroupsIn(c), p);
    SumHas(CollisionsIn(c) + OriginGroupsIn(c), SequenceGroupsIn(c), p);
    SumHas(ExclusionRejections(c), AdmissionRejections(ctx, c), p);
    SumHas(ExclusionRejections(c) + AdmissionRejections(ctx, c), CorrelationRejections(ctx, c), p);
    SumHas(ExclusionRejections(c) + AdmissionRejections(ctx, c) + CorrelationRejections(ctx, c),
           DisputeRejections(ctx, c), p);
  }

  lemma ConflictsHave(ctx: Context, c: Records, order: seq<Observation>, p: Conflict -> bool)
    ensures Has(DeliveryConflicts(order) + CellConflicts(ctx, c) + TotalConflicts(ctx, c), p) <==>
      || Has(Divergences<Id>(order, OriginOf, DivergentOrigin), p) || Has(Divergences(order, SequenceOf, DivergentSequence), p)
      || Has(CellConflicts(ctx, c), p) || Has(TotalConflicts(ctx, c), p)
  {
    SumHas(Divergences<Id>(order, OriginOf, DivergentOrigin), Divergences(order, SequenceOf, DivergentSequence), p);
    SumHas(DeliveryConflicts(order), CellConflicts(ctx, c), p);
    SumHas(DeliveryConflicts(order) + CellConflicts(ctx, c), TotalConflicts(ctx, c), p);
  }

  /** Whatever a derivation rejects because deliveries or sources contradict each other is
      named by an unresolved conflict record of that matter, and those records name nothing else. */
  lemma ContradictionsOnRecord(ctx: Context, c: Records, d: Derived, cause: Cause, id: Id)
    requires IsDerivation(ctx, c, d) && Contradicts(cause)
    ensures (exists r | r in d.rejected :: r.cause == cause && r.evidence == id) <==>
      (exists x | x in d.conflicts :: x.matter == MatterOf(cause) && !x.resolved && id in x.participants)
  {
    var order :| Orders(order, c) && ConflictsUnder(ctx, c, order, d.conflicts);
    OnRecordUnder(ctx, c, order, cause, id);
    Listed(d.rejected, RejectedAs(cause, id));
    Listed(d.conflicts, Naming(MatterOf(cause), id));
  }

  lemma Listed<V>(s: seq<V>, p: V -> bool)
    ensures Has(multiset(s), p) <==> exists v | v in s :: p(v)
  {
    assert forall v :: v in multiset(s) <==> v in s;
  }

  lemma OnRecordUnder(ctx: Context, c: Records, order: seq<Observation>, cause: Cause, id: Id)
    requires Orders(order, c) && Contradicts(cause)
    ensures Has(Rejections(ctx, c), RejectedAs(cause, id)) <==>
      Has(DeliveryConflicts(order) + CellConflicts(ctx, c) + TotalConflicts(ctx, c), Naming(MatterOf(cause), id))
  {
    RejectionsHave(ctx, c, RejectedAs(cause, id));
    ConflictsHave(ctx, c, order, Naming(MatterOf(cause), id));
    CollisionsApart(c, cause, id);
    RefusalsApart(ctx, c, cause, id);
    TotalsApart(ctx, c, cause, id);
    OriginsOnRecord(order, cause, id);
    SequencesOnRecord(order, cause, id);
    CellsOnRecord(ctx, c, cause, id);
  }

  lemma OriginsOnRecord(order: seq<Observation>, cause: Cause, id: Id)
    requires Contradicts(cause)
    ensures Has(OriginGroupsIn(multiset(order)), RejectedAs(cause, id)) <==>
      Has(Divergences<Id>(order, OriginOf, DivergentOrigin), Naming(MatterOf(cause), id))
  {
    GroupsOnRecord<Id>(order, OriginOf, DivergentOrigin, OriginGroupAt(multiset(order)), cause, id);
  }

  lemma SequencesOnRecord(order: seq<Observation>, cause: Cause, id: Id)
    requires Contradicts(cause)
    ensures Has(SequenceGroupsIn(multiset(order)), RejectedAs(cause, id)) <==>
      Has(Divergences(order, SequenceOf, DivergentSequence), Naming(MatterOf(cause), id))
  {
    GroupsOnRecord(order, SequenceOf, DivergentSequence, SequenceGroupAt(multiset(order)), cause, id);
  }

  /** A record about totals names exactly the admitted totals that disagree within their
      domain and window. */
  lemma DisagreementsOnRecord(ctx: Context, c: Records, d: Derived, id: Id)
    requires IsDerivation(ctx, c, d)
    ensures (exists x | x in d.conflicts :: x.matter == TotalAmounts && !x.resolved && id in x.participants) <==>
      exists tk | tk in TotalKeys(ctx, c) ::
        !Agreed(TotalGroup(ctx, c, tk)) && id in Parties(multiset(TotalGroup(ctx, c, tk)))
  {
    var order :| Orders(order, c) && ConflictsUnder(ctx, c, order, d.conflicts);
    Listed(d.conflicts, Naming(TotalAmounts, id));
    DisagreementsUnder(ctx, c, order, id);
  }

  lemma DisagreementsUnder(ctx: Context, c: Records, order: seq<Observation>, id: Id)
    ensures Has(DeliveryConflicts(order) + CellConflicts(ctx, c) + TotalConflicts(ctx, c), Naming(TotalAmounts, id)) <==>
      exists tk | tk in TotalKeys(ctx, c) ::
        !Agreed(TotalGroup(ctx, c, tk)) && id in Parties(multiset(TotalGroup(ctx, c, tk)))
  {
    var p := Naming(TotalAmounts, id);
    ConflictsHave(ctx, c, order, p);
    NotDelivery<Id>(order, OriginOf, DivergentOrigin, id);
    NotDelivery(order, SequenceOf, DivergentSequence, id);
    NotCell(ctx, c, id);
    TotalsNamed(ctx, c, id);
  }

  lemma NotDelivery<K(!new)>(order: seq<Observation>, key: Observation -> K, cause: Cause, id: Id)
    ensures !Has(Divergences(order, key, cause), Naming(TotalAmounts, id))
  {
    GatherHasNone(KeysOf(multiset(order), key), DivergenceAt(order, key, cause), Naming(TotalAmounts, id));
  }

  lemma NotCell(ctx: Context, c: Records, id: Id)
    ensures !Has(CellConflicts(ctx, c), Naming(TotalAmounts, id))
  {
    GatherHasNone(CellKeys(ctx, c), CellConflictAt(ctx, c), Naming(TotalAmounts, id));
  }

  lemma TotalsNamed(ctx: Context, c: Records, id: Id)
    ensures Has(TotalConflicts(ctx, c), Naming(TotalAmounts, id)) <==>
      exists tk | tk in TotalKeys(ctx, c) ::
        !Agreed(TotalGroup(ctx, c, tk)) && id in Parties(multiset(TotalGroup(ctx, c, tk)))
  {
    var p := Naming(TotalAmounts, id);
    forall tk ensures Has(TotalConflictAt(ctx, c)(tk), p) <==>
                !Agreed(TotalGroup(ctx, c, tk)) && id in Parties(multiset(TotalGroup(ctx, c, tk)))
    {
      TotalNames(tk, TotalGroup(ctx, c, tk), id);
    }
    GatherHasSome(TotalKeys(ctx, c), TotalConflictAt(ctx, c), p);
  }

  lemma TotalNames(tk: TotalKey, g: set<Observation>, id: Id)
    ensures Has(TotalConflictOf(tk, g), Naming(TotalAmounts, id)) <==> !Agreed(g) && id in Parties(multiset(g))
  {
    if !Agreed(g) {
      assert TotalConflict(tk, g) in TotalConflictOf(tk, g);
    }
  }

  // ---- dependence on the order of evidence ---------------------------------

  lemma DivergencesMatter<K>(order: seq<Observation>, key: Observation -> K, cause: Cause, x: Conflict)
    requires x in Divergences(order, key, cause)
    ensures x.matter == Deliveries(cause) && !x.resolved
  {
    var k := GatherFrom(multiset(KeysOf(multiset(order), key)), DivergenceAt(order, key, cause), x);
  }

  /** However a divergent group is ordered, its front record files it under the same key. */
  ghost predicate FrontsAgree<K(!new)>(c: Records, key: Observation -> K) {
    forall p, q | p in c && q in c && Fronts(c, key, p, q) :: DeliveryKey(p) == DeliveryKey(q)
  }

  /** Both records can stand in front of one divergent group. */
  ghost predicate Fronts<K>(c: Records, key: Observation -> K, p: Observation, q: Observation) {
    && key(p) == key(q)
    && !Identical(Members(c, key, key(p)))
    && IsFront(p, Members(c, key, key(p))) && IsFront(q, Members(c, key, key(p)))
  }

  ghost predicate Ascends(s: seq<Observation>) {
    forall i, j | 0 <= i < j < |s| :: s[i].id <= s[j].id
  }

  lemma AscendsSorted(s: seq<Observation>)
    ensures Ascends(s) <==> SortedBy(s, IdRank)
  {
    assert forall o: Observation, p: Observation :: LexLeq(IdRank(o), IdRank(p)) <==> o.id <= p.id;
  }

  lemma KeptFront<K>(order: seq<Observation>, key: Observation -> K, k: K)
    requires SortedBy(order, IdRank) && Keep(order, key, k) != []
    ensures var front := Keep(order, key, k)[0];
      key(front) == k && front in multiset(order) && IsFront(front, Members(multiset(order), key, k))
  {
    KeepSorted(order, key, k);
    KeepMembers(order, key, k);
    var group := Keep(order, key, k);
    AscendsSorted(group);
    assert group[0] in multiset(group);
    forall p | p in multiset(group) ensures group[0].id <= p.id {
      var i :| 0 <= i < |group| && group[i] == p;
    }
  }

  lemma SameDivergence<K(!new)>(c: Records, s: seq<Observation>, t: seq<Observation>, key: Observation -> K, cause: Cause, k: K)
    requires Orders(s, c) && Orders(t, c) && FrontsAgree(c, key)
    ensures Divergence(Keep(s, key, k), cause) == Divergence(Keep(t, key, k), cause)
  {
    KeepMembers(s, key, k);
    KeepMembers(t, key, k);
    var a, b := Keep(s, key, k), Keep(t, key, k);
    assert |a| == |multiset(a)| == |multiset(b)| == |b|;
    if a != [] && !Identical(multiset(a)) {
      KeptFront(s, key, k);
      KeptFront(t, key, k);
      assert Fronts(c, key, a[0], b[0]);
    }
  }

  lemma {:induction false} GatherAgree<A, B>(m: multiset<A>, f: A -> multiset<B>, g: A -> multiset<B>)
    requires forall a | a in m :: f(a) == g(a)
    ensures Gather(m, f) == Gather(m, g)
    decreases |m|
  {
    if m != multiset{} {
      var a :| a in m;
      GatherRemove(m, a, f);
      GatherRemove(m, a, g);
      GatherAgree(m - multiset{a}, f, g);
    }
  }

  lemma SameDivergences<K(!new)>(c: Records, s: seq<Observation>, t: seq<Observation>, key: Observation -> K, cause: Cause)
    requires Orders(s, c) && Orders(t, c) && FrontsAgree(c, key)
    ensures Divergences(s, key, cause) == Divergences(t, key, cause)
  {
    forall k ensures DivergenceAt(s, key, cause)(k) == DivergenceAt(t, key, cause)(k) {
      SameDivergence(c, s, t, key, cause, k);
    }
    GatherAgree(multiset(KeysOf(c, key)), DivergenceAt(s, key, cause), DivergenceAt(t, key, cause));
  }

  // ---- an order with a given record in front -------------------------------

  /** Where a record goes to precede all others of its identity. */
  lemma {:induction false} SplitBelow(s: seq<Observation>, id: Id) returns (a: seq<Observation>, b: seq<Observation>)
    requires SortedBy(s, IdRank)
    ensures s == a + b
    ensures (forall o | o in a :: o.id < id) && (forall o | o in b :: id <= o.id)
  {
    if s == [] {
      a, b := [], [];
    } else {
      var n := |s| - 1;
      var c, d := SplitBelow(s[..n], id);
      assert s == s[..n] + [s[n]];
      if s[n].id < id {
        forall o | o in s[..n] ensures o.id < id {
          var i :| 0 <= i < n && s[i] == o;
          assert LexLeq(IdRank(s[i]), IdRank(s[n]));
        }
        a, b := s, [];
      } else {
        a, b := c, d + [s[n]];
      }
    }
  }

  lemma JoinAscends(a: seq<Observation>, b: seq<Observation>)
    requires Ascends(a) && Ascends(b)
    requires forall o, p | o in a && p in b :: o.id <= p.id
    ensures Ascends(a + b)
  {
  }

  lemma PartsAscend(a: seq<Observation>, b: seq<Observation>)
    requires Ascends(a + b)
    ensures Ascends(a) && Ascends(b)
    ensures forall o, p | o in a && p in b :: o.id <= p.id
  {
    forall i, j | 0 <= i < j < |a| ensures a[i].id <= a[j].id {
      assert a[i] == (a + b)[i] && a[j] == (a + b)[j];
    }
    forall i, j | 0 <= i < j < |b| ensures b[i].id <= b[j].id {
      assert b[i] == (a + b)[|a| + i] && b[j] == (a + b)[|a| + j];
    }
    forall o, p | o in a && p in b ensures o.id <= p.id {
      var i :| 0 <= i < |a| && a[i] == o;
      var j :| 0 <= j < |b| && b[j] == p;
      assert o == (a + b)[i] && p == (a + b)[|a| + j];
    }
  }

  /** Some order of the candidates puts this record before all others of its identity. */
  lemma {:induction false} OrderWith(c: Records, p: Observation) returns (a: seq<Observation>, b: seq<Observation>)
    requires p in c
    ensures Orders(a + [p] + b, c)
    ensures forall o | o in a :: o.id < p.id
    decreases |c|
  {
    var rest := c - multiset{p};
    var r: seq<Observation> := [];
    if rest != multiset{} {
      var q :| q in rest;
      var d, e := OrderWith(rest, q);
      r := d + [q] + e;
    }
    a, b := SplitBelow(r, p.id);
    PlacedBetween(a, b, p);
    SameMembers(a, b, p, c);
  }

  lemma SameMembers(a: seq<Observation>, b: seq<Observation>, p: Observation, c: Records)
    requires p in c && multiset(a + b) == c - multiset{p}
    ensures multiset(a + [p] + b) == c
  {
  }

  lemma PlacedBetween(a: seq<Observation>, b: seq<Observation>, p: Observation)
    requires SortedBy(a + b, IdRank)
    requires (forall o | o in a :: o.id < p.id) && (forall o | o in b :: p.id <= o.id)
    ensures SortedBy(a + [p] + b, IdRank)
  {
    AscendsSorted(a + b);
    PartsAscend(a, b);
    JoinAscends(a, [p]);
    JoinAscends(a + [p], b);
    AscendsSorted(a + [p] + b);
  }

  lemma {:induction false} KeepAppend<K>(s: seq<Observation>, t: seq<Observation>, key: Observation -> K, k: K)
    ensures Keep(s + t, key, k) == Keep(s, key, k) + Keep(t, key, k)
  {
    if t == [] {
      assert s + t == s;
    } else {
      var n := |t| - 1;
      assert t == t[..n] + [t[n]] && s + t == (s + t[..n]) + [t[n]];
      KeepAppend(s, t[..n], key, k);
      KeepLast(s + t[..n], t[n], key, k);
      KeepLast(t[..n], t[n], key, k);
    }
  }

  lemma {:induction false} KeepNone<K>(s: seq<Observation>, key: Observation -> K, k: K)
    requires forall o | o in s :: key(o) != k
    ensures Keep(s, key, k) == []
  {
    if s != [] {
      KeepNone(s[..|s| - 1], key, k);
    }
  }

  /** Moving a record forwards past others leaves every group but its own as it was. */
  lemma MovedForward<K>(
    a: seq<Observation>, b: seq<Observation>, q: Observation, d: seq<Observation>, key: Observation -> K, k: K)
    ensures key(q) != k ==> Keep(a + b + [q] + d, key, k) == Keep(a + [q] + b + d, key, k)
  {
    KeepLast(a + b, q, key, k);
    KeepLast(a, q, key, k);
    KeepAppend(a + b + [q], d, key, k);
    KeepAppend(a + [q] + b, d, key, k);
    KeepAppend(a + [q], b, key, k);
    KeepAppend(a, b, key, k);
  }

  lemma KeptFirst<K>(a: seq<Observation>, p: Observation, b: seq<Observation>, key: Observation -> K)
    requires forall o | o in a :: key(o) != key(p)
    ensures var group := Keep(a + [p] + b, key, key(p)); group != [] && group[0] == p
  {
    KeepNone(a, key, key(p));
    KeepLast(a, p, key, key(p));
    KeepAppend(a + [p], b, key, key(p));
  }

  /** Two orders of the same candidates: one with p in front of its group, the other the
      same but for q, of the same identity, moved before p. */
  lemma TwoOrders(c: Records, p: Observation, q: Observation)
    returns (a: seq<Observation>, b: seq<Observation>, d: seq<Observation>)
    requires p in c && q in c && p != q && p.id == q.id
    ensures Orders(a + ([p] + b) + [q] + d, c) && Orders(a + [q] + ([p] + b) + d, c)
    ensures forall o | o in a :: o.id < p.id
  {
    var e;
    a, e := OrderWith(c, p);
    var s := a + [p] + e;
    assert q in e by {
      assert q in multiset(s);
      assert q in s;
    }
    var j :| 0 <= j < |e| && e[j] == q;
    b, d := e[..j], e[j + 1..];
    assert e == b + [q] + d;
    assert s == a + ([p] + b) + [q] + d;
    var t := a + [q] + ([p] + b) + d;
    AscendsSorted(s);
    MoveAscends(a, [p] + b, q, d);
    AscendsSorted(t);
    assert multiset(s) == multiset(t);
  }

  lemma MoveAscends(a: seq<Observation>, b: seq<Observation>, q: Observation, d: seq<Observation>)
    requires Ascends(a + b + [q] + d) && b != [] && b[0].id == q.id
    ensures Ascends(a + [q] + b + d)
  {
    PartsAscend(a + b + [q], d);
    PartsAscend(a + b, [q]);
    PartsAscend(a, b);
    assert forall o | o in b :: o.id == q.id by {
      forall o | o in b ensures o.id == q.id {
        var i :| 0 <= i < |b| && b[i] == o;
        assert q in [q];
      }
    }
    assert q in [q] && b[0] in b;
    assert forall o | o in a :: o in a + b;
    JoinAscends(a, [q]);
    JoinAscends(a + [q], b);
    assert forall o | o in a + [q] + b :: o in a + b + [q];
    JoinAscends(a + [q] + b, d);
  }

  lemma FrontMoves<K(!new)>(c: Records, key: Observation -> K, cause: Cause, p: Observation, q: Observation)
    returns (s: seq<Observation>, t: seq<Observation>, x: Conflict)
    requires p in c && q in c && Fronts(c, key, p, q) && DeliveryKey(p) != DeliveryKey(q)
    ensures Orders(s, c) && Orders(t, c)
    ensures x.matter == Deliveries(cause) && Divergences(s, key, cause)[x] != Divergences(t, key, cause)[x]
  {
    var a, b, d := TwoOrders(c, p, q);
    s, t := a + ([p] + b) + [q] + d, a + [q] + ([p] + b) + d;
    x := DeliveryConflict(cause, p, Members(c, key, key(p)));
    MovedFrontShows(c, key, cause, a, p, b, q, d, s, t);
  }

  /** Both orders file the group of p and q under the one they put in front. */
  lemma MovedFrontShows<K(!new)>(
    c: Records, key: Observation -> K, cause: Cause, a: seq<Observation>, p: Observation, b: seq<Observation>,
    q: Observation, d: seq<Observation>, s: seq<Observation>, t: seq<Observation>)
    requires s == a + ([p] + b) + [q] + d && t == a + [q] + ([p] + b) + d
    requires p in c && q in c && Fronts(c, key, p, q) && DeliveryKey(p) != DeliveryKey(q)
    requires multiset(s) == c && multiset(t) == c && forall o | o in a :: o.id < p.id
    ensures var x := DeliveryConflict(cause, p, Members(c, key, key(p)));
      Divergences(s, key, cause)[x] != Divergences(t, key, cause)[x]
  {
    var x := DeliveryConflict(cause, p, Members(c, key, key(p)));
    Regrouped(a, p, b, q, d);
    NoneBelow(c, a, [p] + b + [q] + d, key, p);
    KeptFirst(a, p, b + [q] + d, key);
    KeptFirst(a, q, [p] + b + d, key);
    FiledUnderFront(c, s, key, cause, p);
    FiledUnderFront(c, t, key, cause, q);
    OthersStay(a, [p] + b, q, d, key, cause);
    assert key(p) in KeysOf(c, key);
    OneTermDiffers(multiset(KeysOf(c, key)), key(p), DivergenceAt(s, key, cause), DivergenceAt(t, key, cause), x);
  }

  lemma Regrouped(a: seq<Observation>, p: Observation, b: seq<Observation>, q: Observation, d: seq<Observation>)
    ensures a + ([p] + b) + [q] + d == a + [p] + (b + [q] + d)
    ensures a + ([p] + b) + [q] + d == a + ([p] + b + [q] + d)
    ensures a + [q] + ([p] + b) + d == a + [q] + ([p] + b + d)
  {
  }

  lemma NoneBelow<K>(c: Records, a: seq<Observation>, b: seq<Observation>, key: Observation -> K, p: Observation)
    requires multiset(a + b) == c && IsFront(p, Members(c, key, key(p)))
    requires forall o | o in a :: o.id < p.id
    ensures forall o | o in a :: key(o) != key(p)
  {
    forall o | o in a ensures key(o) != key(p) {
      assert o in multiset(a + b);
      assert key(o) == key(p) ==> o in Members(c, key, key(p));
    }
  }

  lemma FiledUnderFront<K>(c: Records, s: seq<Observation>, key: Observation -> K, cause: Cause, p: Observation)
    requires multiset(s) == c && !Identical(Members(c, key, key(p)))
    requires Keep(s, key, key(p)) != [] && Keep(s, key, key(p))[0] == p
    ensures DivergenceAt(s, key, cause)(key(p)) == multiset{DeliveryConflict(cause, p, Members(c, key, key(p)))}
  {
    KeepMembers(s, key, key(p));
  }

  lemma OthersStay<K(!new)>(
    a: seq<Observation>, b: seq<Observation>, q: Observation, d: seq<Observation>, key: Observation -> K, cause: Cause)
    ensures forall k | k != key(q) ::
      DivergenceAt(a + b + [q] + d, key, cause)(k) == DivergenceAt(a + [q] + b + d, key, cause)(k)
  {
    forall k | k != key(q)
      ensures DivergenceAt(a + b + [q] + d, key, cause)(k) == DivergenceAt(a + [q] + b + d, key, cause)(k)
    {
      MovedForward(a, b, q, d, key, k);
    }
  }

  lemma OneTermDiffers<A(!new), B>(m: multiset<A>, k: A, f: A -> multiset<B>, g: A -> multiset<B>, x: B)
    requires m[k] == 1 && f(k)[x] != g(k)[x] && forall a | a != k :: f(a) == g(a)
    ensures Gather(m, f)[x] != Gather(m, g)[x]
  {
    GatherRemove(m, k, f);
    GatherRemove(m, k, g);
    GatherAgree(m - multiset{k}, f, g);
  }

  /** The delivery conflicts a pass writes do not depend on the order in which evidence was
      stored exactly when the records that can stand in front of a divergent group agree on
      generation, measure and category. */
  lemma OrderShowsExactly(c: Records)
    ensures (forall s, t | Orders(s, c) && Orders(t, c) :: DeliveryConflicts(s) == DeliveryConflicts(t))
      <==> FrontsAgree<Id>(c, OriginOf) && FrontsAgree(c, SequenceOf)
  {
    if FrontsAgree<Id>(c, OriginOf) && FrontsAgree(c, SequenceOf) {
      forall s, t | Orders(s, c) && Orders(t, c) ensures DeliveryConflicts(s) == DeliveryConflicts(t) {
        SameDivergences<Id>(c, s, t, OriginOf, DivergentOrigin);
        SameDivergences(c, s, t, SequenceOf, DivergentSequence);
      }
    }
    if !FrontsAgree<Id>(c, OriginOf) {
      OriginFrontsShow(c);
    }
    if !FrontsAgree(c, SequenceOf) {
      SequenceFrontsShow(c);
    }
  }

  lemma OriginFrontsShow(c: Records)
    requires !FrontsAgree<Id>(c, OriginOf)
    ensures exists s, t :: Orders(s, c) && Orders(t, c) && DeliveryConflicts(s) != DeliveryConflicts(t)
  {
    var p, q :| p in c && q in c && Fronts<Id>(c, OriginOf, p, q) && DeliveryKey(p) != DeliveryKey(q);
    var s, t, x := FrontMoves<Id>(c, OriginOf, DivergentOrigin, p, q);
    OriginDiffers(s, t, x);
  }

  lemma OriginDiffers(s: seq<Observation>, t: seq<Observation>, x: Conflict)
    requires x.matter == Deliveries(DivergentOrigin)
    requires Divergences<Id>(s, OriginOf, DivergentOrigin)[x] != Divergences<Id>(t, OriginOf, DivergentOrigin)[x]
    ensures DeliveryConflicts(s) != DeliveryConflicts(t)
  {
    forall order ensures DeliveryConflicts(order)[x] == Divergences<Id>(order, OriginOf, DivergentOrigin)[x] {
      if x in Divergences(order, SequenceOf, DivergentSequence) {
        DivergencesMatter(order, SequenceOf, DivergentSequence, x);
      }
    }
    assert DeliveryConflicts(s)[x] != DeliveryConflicts(t)[x];
  }

  lemma SequenceFrontsShow(c: Records)
    requires !FrontsAgree(c, SequenceOf)
    ensures exists s, t :: Orders(s, c) && Orders(t, c) && DeliveryConflicts(s) != DeliveryConflicts(t)
  {
    var p, q :| p in c && q in c && Fronts(c, SequenceOf, p, q) && DeliveryKey(p) != DeliveryKey(q);
    var s, t, x := FrontMoves(c, SequenceOf, DivergentSequence, p, q);
    forall order ensures DeliveryConflicts(order)[x] == Divergences(order, SequenceOf, DivergentSequence)[x] {
      if x in Divergences<Id>(order, OriginOf, DivergentOrigin) {
        DivergencesMatter<Id>(order, OriginOf, DivergentOrigin, x);
      }
    }
    assert DeliveryConflicts(s)[x] != DeliveryConflicts(t)[x];
  }

  /** Two derivations of the same considered records write the same conflict records when
      no delivery group can be filed under two keys. */
  lemma SameConflicts(ctx: Context, c: Records, d: Derived, e: Derived)
    requires IsDerivation(ctx, c, d) && IsDerivation(ctx, c, e)
    requires FrontsAgree<Id>(c, OriginOf) && FrontsAgree(c, SequenceOf)
    ensures multiset(d.conflicts) == multiset(e.conflicts)
  {
    var s :| Orders(s, c) && ConflictsUnder(ctx, c, s, d.conflicts);
    var t :| Orders(t, c) && ConflictsUnder(ctx, c, t, e.conflicts);
    OrderShowsExactly(c);
  }

  // ---- an input ------------------------------------------------------------

  /** A record of origin 7 and evidence identity 1. */
  function Claiming(category: Category): Observation {
    Observation(1, 40, Content(7, 1, 1, 0, 1, 1, 30, WireBytes, ContributionRole, category,
                               None, None, None, None, 5, 10, 20, multiset{}))
  }

  const USEFUL := Claiming(UsefulDeliveredWork)
  const REPEATED := Claiming(Retransmission)

  /** Two records that differ in category alone are filed under the category of the one
      walked first; both walks are sorted by identity, so the order of storage decides. */
  lemma StorageOrderShows()
    ensures SortedBy([USEFUL, REPEATED], IdRank) && SortedBy([REPEATED, USEFUL], IdRank)
    ensures DeliveryConflicts([USEFUL, REPEATED]) != DeliveryConflicts([REPEATED, USEFUL])
  {
    PairShows(USEFUL, REPEATED);
  }

  lemma PairShows(p: Observation, q: Observation)
    requires p.id == q.id && OriginOf(p) == OriginOf(q) && DeliveryKey(p) != DeliveryKey(q)
    ensures SortedBy([p, q], IdRank) && SortedBy([q, p], IdRank)
    ensures DeliveryConflicts([p, q]) != DeliveryConflicts([q, p])
  {
    PairOrders(p, q);
    PairFronts(p, q);
    MovedFrontShows<Id>(multiset{p, q}, OriginOf, DivergentOrigin, [], p, [], q, [], [p, q], [q, p]);
    OriginDiffers([p, q], [q, p], DeliveryConflict(DivergentOrigin, p, Members<Id>(multiset{p, q}, OriginOf, OriginOf(p))));
  }

  lemma PairOrders(p: Observation, q: Observation)
    requires p.id == q.id
    ensures SortedBy([p, q], IdRank) && SortedBy([q, p], IdRank)
    ensures [p, q] == [] + ([p] + []) + [q] + [] && [q, p] == [] + [q] + ([p] + []) + []
    ensures multiset([p, q]) == multiset([q, p]) == multiset{p, q}
  {
    AscendsSorted([p, q]);
    AscendsSorted([q, p]);
  }

  lemma PairFronts(p: Observation, q: Observation)
    requires p.id == q.id && OriginOf(p) == OriginOf(q) && p.content != q.content
    ensures Fronts<Id>(multiset{p, q}, OriginOf, p, q)
  {
    var c := multiset{p, q};
    assert p in Members<Id>(c, OriginOf, OriginOf(p)) && q in Members<Id>(c, OriginOf, OriginOf(p));
    assert forall o | o in Members<Id>(c, OriginOf, OriginOf(p)) :: o in c;
  }
}
