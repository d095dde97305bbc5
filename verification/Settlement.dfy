/** What becomes of the records of one cell and window, in terms of their amounts, their sources
    and the policy. */
module Settlement {

  import opened Common
  import opened Fabric
  import opened Evidence
  import opened Folds
  import opened Dispute
  import opened Derivation
  import opened DerivationTheorems
  import opened Attribution
  import opened Acceptance
  import opened Refusals

  // ---- amounts and who reports them ----------------------------------------

  ghost predicate AllAgree(g: set<Observation>) {
    forall o, p | o in g && p in g :: o.content.amount == p.content.amount
  }

  /** A source of the group whose records all report one amount. */
  ghost predicate StandsBy(g: set<Observation>, source: Id, amount: nat) {
    && (exists o | o in g :: o.content.source == source)
    && forall o | o in g && o.content.source == source :: o.content.amount == amount
  }

  lemma AgreeExactly(g: set<Observation>)
    requires g != {}
    ensures AllAgree(g) <==> |Amounts(g)| == 1
  {
    var o :| o in g;
    OneAmount(g, o);
  }

  lemma StandsByExactly(g: set<Observation>, source: Id, amount: nat)
    ensures StandsBy(g, source, amount) <==> Dispute.AmountsOf(ByAmountOf(g), source) == {amount}
  {
    var amounts := Dispute.AmountsOf(ByAmountOf(g), source);
    forall a: nat ensures a in amounts <==> exists o | o in g :: o.content.source == source && o.content.amount == a {
      if a in amounts {
        assert a in Amounts(g);
      }
      if o :| o in g && o.content.source == source && o.content.amount == a {
        assert a in Amounts(g);
      }
    }
    if StandsBy(g, source, amount) {
      var o :| o in g && o.content.source == source;
      assert amount in amounts;
    }
    if amounts == {amount} {
      assert amount in amounts;
      forall o | o in g && o.content.source == source ensures o.content.amount == amount {
        assert o.content.amount in amounts;
      }
    }
  }

  // ---- every policy --------------------------------------------------------

  lemma ResolvesToOne(byAmount: ByAmount, authority: Authority, policy: Policy)
    requires var r := Resolve(byAmount, authority, policy); r.Ok? && r.value.Resolved?
    ensures var a := Resolve(byAmount, authority, policy).value.amount;
      byAmount.Keys == {a} || exists s :: Dispute.AmountsOf(byAmount, s) == {a}
  {
  }

  /** Whatever the policy, the amount counted for a cell is the only one some source of the
      cell reports, and the record counted is the one of lowest identity that reports it. */
  lemma CountedAmount(ctx: Context, c: Records, x: Contribution)
    requires x in Contributions(ctx, c)
    ensures var g := Reporting(ctx, c, x.key, x.window);
      && (exists s :: StandsBy(g, s, x.amount))
      && (exists o | o in g :: o.id == x.evidence && o.content.amount == x.amount)
      && (forall o | o in g && o.content.amount == x.amount :: x.evidence <= o.id)
  {
    var ck :| ck in CellKeys(ctx, c) && ContributionOf(ctx, c, ck) == Some(x);
    ReportingIsCell(ctx, c, ck);
    ChosenAmount(ctx, Cell(ctx, c, ck));
  }

  lemma ChosenAmount(ctx: Context, cell: set<Observation>)
    requires Chosen(ctx, cell).Some?
    ensures var o := Chosen(ctx, cell).value;
      && o in cell && (exists s :: StandsBy(cell, s, o.content.amount))
      && forall p | p in cell && p.content.amount == o.content.amount :: o.id <= p.id
  {
    var o := Chosen(ctx, cell).value;
    var a := o.content.amount;
    ResolvesToOne(ByAmountOf(cell), AuthorityOf(ctx.topology), ctx.policy);
    if ByAmountOf(cell).Keys == {a} {
      assert Amounts(cell) == {a};
      forall p | p in cell ensures p.content.amount == a {
        assert p.content.amount in Amounts(cell);
      }
      assert StandsBy(cell, o.content.source, a);
    } else {
      var s :| Dispute.AmountsOf(ByAmountOf(cell), s) == {a};
      StandsByExactly(cell, s, a);
    }
    forall p | p in cell && p.content.amount == a ensures o.id <= p.id {
      assert p in WithAmount(cell, a);
    }
  }

  /** A cell whose records agree is counted, whatever the policy. */
  lemma AgreementIsCounted(ctx: Context, c: Records, key: ClaimKey, w: Window)
    requires Reporting(ctx, c, key, w) != {} && AllAgree(Reporting(ctx, c, key, w))
    ensures exists x | x in Contributions(ctx, c) :: x.key == key && x.window == w
  {
    var ck := CellKey(key, w);
    var cell := Cell(ctx, c, ck);
    CellListed(ctx, c, ck);
    AgreeExactly(cell);
    AgreedIsChosen(ctx, cell);
    assert ContributionOf(ctx, c, ck).value in Contributions(ctx, c);
  }

  lemma CellListed(ctx: Context, c: Records, ck: CellKey)
    ensures Cell(ctx, c, ck) == Reporting(ctx, c, ck.key, ck.window)
    ensures Cell(ctx, c, ck) != {} <==> ck in CellKeys(ctx, c)
  {
    ReportingIsCell(ctx, c, ck);
    if Cell(ctx, c, ck) != {} {
      var o :| o in Cell(ctx, c, ck);
      assert CellOf(ctx.topology)(o) == ck;
    }
    if ck in CellKeys(ctx, c) {
      var o :| o in Entries(ctx, c) && CellOf(ctx.topology)(o) == ck;
      assert o in Cell(ctx, c, ck);
    }
  }

  lemma AgreedIsChosen(ctx: Context, cell: set<Observation>)
    requires |Amounts(cell)| == 1
    ensures Chosen(ctx, cell).Some?
  {
    assert ByAmountOf(cell).Keys == Amounts(cell);
    var a := TheOne(Amounts(cell));
    assert a in Amounts(cell);
    var o :| o in cell && o.content.amount == a;
    assert o in WithAmount(cell, a);
  }

  // ---- the default policy --------------------------------------------------

  /** Recording conflicts and rejecting ties leaves every dispute open. */
  lemma DefaultLeavesOpen(byAmount: ByAmount, authority: Authority, policy: Policy)
    requires |byAmount.Keys| > 1 && policy.conflict == RecordAndUnknown && policy.tieBreak == RejectTie
    ensures Resolve(byAmount, authority, policy) == Ok(Unresolved)
  {
  }

  /** Under the default policy no cell with two amounts is counted, and every record of it is
      rejected as disputed. */
  lemma DisputesStayOpen(ctx: Context, c: Records, key: ClaimKey, w: Window)
    requires ctx.policy.conflict == RecordAndUnknown && ctx.policy.tieBreak == RejectTie
    requires !AllAgree(Reporting(ctx, c, key, w))
    ensures forall x | x in Contributions(ctx, c) :: !(x.key == key && x.window == w)
    ensures forall o | o in Reporting(ctx, c, key, w) :: Reject(o, OpenDispute) in Rejections(ctx, c)
  {
    var ck := CellKey(key, w);
    var cell := Cell(ctx, c, ck);
    CellListed(ctx, c, ck);
    AgreeExactly(cell);
    DisputedNotChosen(ctx, cell);
    NotCounted(ctx, c, ck);
    forall o | o in cell ensures Reject(o, OpenDispute) in Rejections(ctx, c) {
      OpenIsRejected(ctx, c, ck, o);
    }
  }

  lemma DisputedNotChosen(ctx: Context, cell: set<Observation>)
    requires cell != {} && |Amounts(cell)| != 1
    requires ctx.policy.conflict == RecordAndUnknown && ctx.policy.tieBreak == RejectTie
    ensures Chosen(ctx, cell) == None
  {
    var o :| o in cell;
    assert o.content.amount in Amounts(cell);
    assert ByAmountOf(cell).Keys == Amounts(cell);
    DefaultLeavesOpen(ByAmountOf(cell), AuthorityOf(ctx.topology), ctx.policy);
  }

  lemma NotCounted(ctx: Context, c: Records, ck: CellKey)
    requires Chosen(ctx, Cell(ctx, c, ck)) == None
    ensures forall x | x in Contributions(ctx, c) :: !(x.key == ck.key && x.window == ck.window)
  {
    forall x | x in Contributions(ctx, c) ensures !(x.key == ck.key && x.window == ck.window) {
      var dk :| dk in CellKeys(ctx, c) && ContributionOf(ctx, c, dk) == Some(x);
      assert dk == CellKey(x.key, x.window);
    }
  }

  lemma OpenIsRejected(ctx: Context, c: Records, ck: CellKey, o: Observation)
    requires o in Cell(ctx, c, ck) && Chosen(ctx, Cell(ctx, c, ck)) == None
    ensures Reject(o, OpenDispute) in Rejections(ctx, c)
  {
    CellListed(ctx, c, ck);
    GatherHas(multiset(Cell(ctx, c, ck)), o, RejectAs(OpenDispute), Reject(o, OpenDispute));
    DisputeIsGathered(ctx, c, ck, Reject(o, OpenDispute));
  }

  // ---- preferring a source -------------------------------------------------

  /** The authority the topology gives a source. */
  function AuthorityIn(t: Topology, source: Id): nat {
    if source in t.sources then t.sources[source].authority else 0
  }

  /** Of the sources of a group the one of highest authority, ties going to the lowest or the
      highest identity. */
  ghost predicate Leads(ctx: Context, g: set<Observation>, source: Id) {
    && (exists o | o in g :: o.content.source == source)
    && forall o | o in g ::
         var (rank, best) := (AuthorityIn(ctx.topology, o.content.source), AuthorityIn(ctx.topology, source));
         || rank < best
         || (rank == best && if ctx.policy.tieBreak == HighestSourceIdWins then o.content.source <= source
                             else source <= o.content.source)
  }

  ghost predicate CountedFor(ctx: Context, c: Records, key: ClaimKey, w: Window) {
    exists x | x in Contributions(ctx, c) :: x.key == key && x.window == w
  }

  lemma CountedExactly(ctx: Context, c: Records, ck: CellKey)
    requires Cell(ctx, c, ck) != {}
    ensures CountedFor(ctx, c, ck.key, ck.window) <==> Chosen(ctx, Cell(ctx, c, ck)).Some?
    ensures forall x | x in Contributions(ctx, c) && x.key == ck.key && x.window == ck.window ::
      Chosen(ctx, Cell(ctx, c, ck)).Some? && x.amount == Chosen(ctx, Cell(ctx, c, ck)).value.content.amount
  {
    CellListed(ctx, c, ck);
    if Chosen(ctx, Cell(ctx, c, ck)).Some? {
      assert ContributionOf(ctx, c, ck).value in Contributions(ctx, c);
    }
    forall x | x in Contributions(ctx, c) && x.key == ck.key && x.window == ck.window
      ensures ContributionOf(ctx, c, ck) == Some(x)
    {
      var dk :| dk in CellKeys(ctx, c) && ContributionOf(ctx, c, dk) == Some(x);
      assert dk == CellKey(x.key, x.window);
    }
  }

  lemma SourcesInGroup(g: set<Observation>)
    ensures forall s :: s in Dispute.SourcesOf(ByAmountOf(g)) <==> exists o | o in g :: o.content.source == s
  {
    forall s ensures s in Dispute.SourcesOf(ByAmountOf(g)) <==> exists o | o in g :: o.content.source == s {
      if o :| o in g && o.content.source == s {
        assert o.content.amount in Amounts(g) && s in ByAmountOf(g)[o.content.amount];
      }
    }
  }

  lemma LeaderPreferred(ctx: Context, g: set<Observation>, s: Id)
    ensures Leads(ctx, g, s) <==>
      Preferred(s, Dispute.SourcesOf(ByAmountOf(g)), AuthorityOf(ctx.topology), ctx.policy.tieBreak)
  {
    SourcesInGroup(g);
    assert forall x :: Rank(AuthorityOf(ctx.topology), x) == AuthorityIn(ctx.topology, x);
  }

  lemma ChosenFrom(ctx: Context, cell: set<Observation>, source: Id)
    requires cell != {} && |Amounts(cell)| != 1
    requires var r := Verdict(ctx, cell);
      && r.Ok? && (r.value.Resolved? <==> exists a :: StandsBy(cell, source, a))
      && (r.value.Resolved? ==> StandsBy(cell, source, r.value.amount))
    ensures Chosen(ctx, cell).Some? <==> exists a :: StandsBy(cell, source, a)
    ensures Chosen(ctx, cell).Some? ==> StandsBy(cell, source, Chosen(ctx, cell).value.content.amount)
  {
    var r := Verdict(ctx, cell);
    if r.value.Resolved? {
      var o :| o in cell && o.content.source == source;
      assert o in WithAmount(cell, r.value.amount);
    }
  }

  lemma OneAmountOf(g: set<Observation>, s: Id)
    ensures |Dispute.AmountsOf(ByAmountOf(g), s)| == 1 <==> exists a :: StandsBy(g, s, a)
    ensures forall a: nat :: Dispute.AmountsOf(ByAmountOf(g), s) == {a} <==> StandsBy(g, s, a)
  {
    forall a: nat ensures Dispute.AmountsOf(ByAmountOf(g), s) == {a} <==> StandsBy(g, s, a) {
      StandsByExactly(g, s, a);
    }
    if |Dispute.AmountsOf(ByAmountOf(g), s)| == 1 {
      assert StandsBy(g, s, TheOne(Dispute.AmountsOf(ByAmountOf(g), s)));
    }
  }

  /** Where ties are broken by identity, a disputed cell is counted exactly when its leading
      source stands by one amount, which is then the one counted. */
  lemma LeaderDecides(ctx: Context, c: Records, key: ClaimKey, w: Window, s: Id)
    requires ctx.policy.conflict != StrictFail && ctx.policy.tieBreak != RejectTie
    requires !AllAgree(Reporting(ctx, c, key, w)) && Leads(ctx, Reporting(ctx, c, key, w), s)
    ensures CountedFor(ctx, c, key, w) <==> exists a :: StandsBy(Reporting(ctx, c, key, w), s, a)
    ensures forall x | x in Contributions(ctx, c) && x.key == key && x.window == w ::
      StandsBy(Reporting(ctx, c, key, w), s, x.amount)
  {
    var cell := Cell(ctx, c, CellKey(key, w));
    CellListed(ctx, c, CellKey(key, w));
    AgreeExactly(cell);
    LeaderPreferred(ctx, cell, s);
    OneAmountOf(cell, s);
    assert ByAmountOf(cell).Keys == Amounts(cell);
    ExtremeSourceDecides(ByAmountOf(cell), AuthorityOf(ctx.topology), ctx.policy, Verdict(ctx, cell), s);
    ChosenFrom(ctx, cell, s);
    CountedExactly(ctx, c, CellKey(key, w));
  }

  /** No two sources of the group have the same authority. */
  ghost predicate Ranked(ctx: Context, g: set<Observation>) {
    forall o, p | o in g && p in g && o.content.source != p.content.source ::
      AuthorityIn(ctx.topology, o.content.source) != AuthorityIn(ctx.topology, p.content.source)
  }

  /** The only source of the group with the highest authority. */
  ghost predicate Tops(ctx: Context, g: set<Observation>, source: Id) {
    && (exists o | o in g :: o.content.source == source)
    && forall o | o in g && o.content.source != source ::
         AuthorityIn(ctx.topology, o.content.source) < AuthorityIn(ctx.topology, source)
  }

  lemma TopsExactly(ctx: Context, g: set<Observation>, s: Id)
    ensures Tops(ctx, g, s) <==> UniqueHighest(s, Dispute.SourcesOf(ByAmountOf(g)), AuthorityOf(ctx.topology))
  {
    SourcesInGroup(g);
    assert forall x :: Rank(AuthorityOf(ctx.topology), x) == AuthorityIn(ctx.topology, x);
  }

  lemma NoTies(ctx: Context, g: set<Observation>)
    requires Ranked(ctx, g)
    ensures !TieMet(Dispute.Reports(ByAmountOf(g)), AuthorityOf(ctx.topology))
  {
    var (order, authority) := (Dispute.Reports(ByAmountOf(g)), AuthorityOf(ctx.topology));
    ReportsMembers(ByAmountOf(g));
    SourcesInGroup(g);
    forall i, j | 0 <= i < j < |order| && order[i] != order[j]
      ensures Rank(authority, order[i]) != Rank(authority, order[j])
    {
      assert order[i] in order && order[j] in order;
    }
  }

  /** Preferring authority and rejecting ties: what is counted for a disputed cell is the one
      amount of the only source of highest authority; and where all authorities differ it is
      counted exactly when that source stands by one. */
  lemma AuthorityDecides(ctx: Context, c: Records, key: ClaimKey, w: Window)
    requires ctx.policy.conflict == PreferHigherAuthority && ctx.policy.tieBreak == RejectTie
    requires !AllAgree(Reporting(ctx, c, key, w))
    ensures forall x | x in Contributions(ctx, c) && x.key == key && x.window == w ::
      exists s :: Tops(ctx, Reporting(ctx, c, key, w), s) && StandsBy(Reporting(ctx, c, key, w), s, x.amount)
    ensures Ranked(ctx, Reporting(ctx, c, key, w)) ==>
      (CountedFor(ctx, c, key, w) <==>
       exists s, a :: Tops(ctx, Reporting(ctx, c, key, w), s) && StandsBy(Reporting(ctx, c, key, w), s, a))
  {
    var cell := Cell(ctx, c, CellKey(key, w));
    CellListed(ctx, c, CellKey(key, w));
    AgreeExactly(cell);
    AuthorityVerdict(ctx, cell);
    CountedExactly(ctx, c, CellKey(key, w));
  }

  lemma AuthorityVerdict(ctx: Context, cell: set<Observation>)
    requires ctx.policy.conflict == PreferHigherAuthority && ctx.policy.tieBreak == RejectTie
    requires cell != {} && |Amounts(cell)| != 1
    ensures Chosen(ctx, cell).Some? ==>
      exists s :: Tops(ctx, cell, s) && StandsBy(cell, s, Chosen(ctx, cell).value.content.amount)
    ensures Ranked(ctx, cell) ==> (Chosen(ctx, cell).Some? <==> exists s, a :: Tops(ctx, cell, s) && StandsBy(cell, s, a))
  {
    assert ByAmountOf(cell).Keys == Amounts(cell);
    SourcesInGroup(cell);
    var o :| o in cell;
    assert o.content.source in Dispute.SourcesOf(ByAmountOf(cell));
    ResolvedIsChosen(ctx, cell);
    AuthorityAloneDecides(ByAmountOf(cell), AuthorityOf(ctx.topology), ctx.policy, Verdict(ctx, cell));
    if Ranked(ctx, cell) {
      NoTies(ctx, cell);
    }
    TopOnes(ctx, cell, Verdict(ctx, cell).value);
  }

  /** A cell is counted exactly when its dispute resolves, with the amount it resolves to. */
  lemma ResolvedIsChosen(ctx: Context, cell: set<Observation>)
    ensures var r := Verdict(ctx, cell);
      && (Chosen(ctx, cell).Some? <==> r.Ok? && r.value.Resolved?)
      && (Chosen(ctx, cell).Some? ==> Chosen(ctx, cell).value.content.amount == r.value.amount)
  {
    var r := Verdict(ctx, cell);
    if r.Ok? && r.value.Resolved? {
      ResolvesToOne(ByAmountOf(cell), AuthorityOf(ctx.topology), ctx.policy);
      ReportedByOne(cell, r.value.amount);
    }
  }

  lemma ReportedByOne(cell: set<Observation>, a: nat)
    requires ByAmountOf(cell).Keys == {a} || exists s :: Dispute.AmountsOf(ByAmountOf(cell), s) == {a}
    ensures WithAmount(cell, a) != {}
  {
    assert a in ByAmountOf(cell).Keys by {
      if s :| Dispute.AmountsOf(ByAmountOf(cell), s) == {a} {
        assert a in Dispute.AmountsOf(ByAmountOf(cell), s);
      }
    }
    var o :| o in cell && o.content.amount == a;
    assert o in WithAmount(cell, a);
  }

  /** The only source of highest authority and what it stands by, in both terms. */
  lemma TopOnes(ctx: Context, g: set<Observation>, outcome: Outcome)
    ensures (exists s :: UniqueHighest(s, Dispute.SourcesOf(ByAmountOf(g)), AuthorityOf(ctx.topology))
                         && |Dispute.AmountsOf(ByAmountOf(g), s)| == 1) <==>
      exists s, a :: Tops(ctx, g, s) && StandsBy(g, s, a)
    ensures outcome.Resolved? ==>
      forall s :: UniqueHighest(s, Dispute.SourcesOf(ByAmountOf(g)), AuthorityOf(ctx.topology))
                  && Dispute.AmountsOf(ByAmountOf(g), s) == {outcome.amount} ==>
        Tops(ctx, g, s) && StandsBy(g, s, outcome.amount)
  {
    forall s
      ensures Tops(ctx, g, s) <==> UniqueHighest(s, Dispute.SourcesOf(ByAmountOf(g)), AuthorityOf(ctx.topology))
      ensures |Dispute.AmountsOf(ByAmountOf(g), s)| == 1 <==> exists a :: StandsBy(g, s, a)
      ensures outcome.Resolved? ==> (Dispute.AmountsOf(ByAmountOf(g), s) == {outcome.amount} <==> StandsBy(g, s, outcome.amount))
    {
      TopsExactly(ctx, g, s);
      OneAmountOf(g, s);
    }
  }

  // ---- the strict policy, and what is rejected -----------------------------

  /** The strict policy fails exactly when the records of some cell disagree. */
  lemma StrictExactly(ctx: Context, c: Records)
    ensures StrictlyConflicting(ctx, c) <==>
      ctx.policy.conflict == StrictFail && exists key, w :: !AllAgree(Reporting(ctx, c, key, w))
  {
    if ck :| ck in CellKeys(ctx, c) && |Amounts(Cell(ctx, c, ck))| != 1 {
      CellListed(ctx, c, ck);
      AgreeExactly(Cell(ctx, c, ck));
      assert !AllAgree(Reporting(ctx, c, ck.key, ck.window));
    }
    if key, w :| !AllAgree(Reporting(ctx, c, key, w)) {
      CellListed(ctx, c, CellKey(key, w));
      AgreeExactly(Cell(ctx, c, CellKey(key, w)));
    }
  }

  /** Another record of the same, agreeing cell has a lower identity. */
  ghost predicate IsEquivalent(ctx: Context, c: Records, key: ClaimKey, w: Window, o: Observation, p: Observation) {
    && o in Reporting(ctx, c, key, w) && p in Reporting(ctx, c, key, w) && AllAgree(Reporting(ctx, c, key, w))
    && p.id < o.id
  }

  ghost predicate HasEquivalent(ctx: Context, c: Records, o: Observation) {
    exists key, w, p :: IsEquivalent(ctx, c, key, w, o, p)
  }

  /** Records are rejected as equivalent only when their cell agrees and another record of it has
      a lower identity. */
  lemma OnlyEquivalent(ctx: Context, c: Records, r: Rejection) returns (o: Observation)
    requires r.cause == EquivalentAmount && r in Rejections(ctx, c)
    ensures HasEquivalent(ctx, c, o) && r == Reject(o, EquivalentAmount)
  {
    CauseParts(ctx, c, r);
    var ck := GatherFrom(multiset(CellKeys(ctx, c)), CellRejectionsAt(ctx, c), r);
    var p;
    o, p := EquivalentInCell(ctx, c, ck, r);
  }

  /** And then they always are. */
  lemma EquivalentRejected(ctx: Context, c: Records, o: Observation)
    requires HasEquivalent(ctx, c, o)
    ensures Reject(o, EquivalentAmount) in Rejections(ctx, c)
  {
    var key, w, p :| IsEquivalent(ctx, c, key, w, o, p);
    LaterIsEquivalent(ctx, c, CellKey(key, w), o, p);
  }

  lemma EquivalentInCell(ctx: Context, c: Records, ck: CellKey, r: Rejection) returns (o: Observation, p: Observation)
    requires r.cause == EquivalentAmount && r in CellRejections(ctx, Cell(ctx, c, ck)) && ck in CellKeys(ctx, c)
    ensures IsEquivalent(ctx, c, ck.key, ck.window, o, p) && r == Reject(o, EquivalentAmount)
  {
    var cell := Cell(ctx, c, ck);
    CellListed(ctx, c, ck);
    AgreeExactly(cell);
    o, p := BesidesChosen(ctx, cell, r);
    AdmittedIdsApart(ctx, c, o, p);
  }

  lemma BesidesChosen(ctx: Context, cell: set<Observation>, r: Rejection) returns (o: Observation, p: Observation)
    requires r.cause == EquivalentAmount && r in CellRejections(ctx, cell)
    ensures o in cell && p in cell && o != p && p.id <= o.id && r == Reject(o, EquivalentAmount) && |Amounts(cell)| == 1
  {
    if |Amounts(cell)| == 1 && Chosen(ctx, cell).Some? {
      p := Chosen(ctx, cell).value;
      o := GatherFrom(multiset(cell - {p}), RejectAs(EquivalentAmount), r);
      ChosenAmount(ctx, cell);
      OneAmount(cell, p);
    } else {
      o := GatherFrom(multiset(cell), RejectAs(OpenDispute), r);
      p := o;
    }
  }

  lemma AdmittedIdsApart(ctx: Context, c: Records, o: Observation, p: Observation)
    requires o in Admitted(ctx, c) && p in Admitted(ctx, c) && o != p
    ensures o.id != p.id
  {
    if o.id == p.id {
      AdmittedAreDistinct(ctx, c, o, p);
    }
  }

  lemma LaterIsEquivalent(ctx: Context, c: Records, ck: CellKey, o: Observation, p: Observation)
    requires IsEquivalent(ctx, c, ck.key, ck.window, o, p)
    ensures Reject(o, EquivalentAmount) in DisputeRejections(ctx, c)
  {
    CellListed(ctx, c, ck);
    AgreeExactly(Cell(ctx, c, ck));
    LaterInCell(ctx, Cell(ctx, c, ck), o, p);
    DisputeIsGathered(ctx, c, ck, Reject(o, EquivalentAmount));
  }

  lemma LaterInCell(ctx: Context, cell: set<Observation>, o: Observation, p: Observation)
    requires o in cell && p in cell && |Amounts(cell)| == 1 && p.id < o.id
    ensures Reject(o, EquivalentAmount) in CellRejections(ctx, cell)
  {
    AgreedIsChosen(ctx, cell);
    ChosenAmount(ctx, cell);
    OneAmount(cell, Chosen(ctx, cell).value);
    assert Chosen(ctx, cell).value.id <= p.id;
    GatherHas(multiset(cell - {Chosen(ctx, cell).value}), o, RejectAs(EquivalentAmount), Reject(o, EquivalentAmount));
  }

  /** The record reports for a cell that nothing is counted for, and r rejects it as disputed. */
  ghost predicate IsDisputed(ctx: Context, c: Records, key: ClaimKey, w: Window, o: Observation, r: Rejection) {
    o in Reporting(ctx, c, key, w) && !CountedFor(ctx, c, key, w) && r == Reject(o, OpenDispute)
  }

  /** Records are rejected as disputed exactly when nothing is counted for their cell. */
  lemma DisputedExactly(ctx: Context, c: Records, r: Rejection)
    requires r.cause == OpenDispute
    ensures r in Rejections(ctx, c) <==> exists key, w, o :: IsDisputed(ctx, c, key, w, o, r)
  {
    if r in Rejections(ctx, c) {
      var key, w, o := OnlyDisputed(ctx, c, r);
    }
    if key, w, o :| IsDisputed(ctx, c, key, w, o, r) {
      DisputedRejected(ctx, c, key, w, o);
    }
  }

  lemma OnlyDisputed(ctx: Context, c: Records, r: Rejection) returns (key: ClaimKey, w: Window, o: Observation)
    requires r.cause == OpenDispute && r in Rejections(ctx, c)
    ensures IsDisputed(ctx, c, key, w, o, r)
  {
    CauseParts(ctx, c, r);
    var ck := GatherFrom(multiset(CellKeys(ctx, c)), CellRejectionsAt(ctx, c), r);
    key, w := ck.key, ck.window;
    o := OpenInCell(ctx, c, ck, r);
  }

  lemma DisputedRejected(ctx: Context, c: Records, key: ClaimKey, w: Window, o: Observation)
    requires IsDisputed(ctx, c, key, w, o, Reject(o, OpenDispute))
    ensures Reject(o, OpenDispute) in Rejections(ctx, c)
  {
    CellListed(ctx, c, CellKey(key, w));
    CountedExactly(ctx, c, CellKey(key, w));
    OpenIsRejected(ctx, c, CellKey(key, w), o);
  }

  lemma OpenInCell(ctx: Context, c: Records, ck: CellKey, r: Rejection) returns (o: Observation)
    requires r.cause == OpenDispute && r in CellRejections(ctx, Cell(ctx, c, ck)) && ck in CellKeys(ctx, c)
    ensures IsDisputed(ctx, c, ck.key, ck.window, o, r)
  {
    var cell := Cell(ctx, c, ck);
    CellListed(ctx, c, ck);
    CountedExactly(ctx, c, ck);
    o := CellRejectionOf(ctx, cell, r);
    if |Amounts(cell)| == 1 && Chosen(ctx, cell).Some? {
      var q := GatherFrom(multiset(cell - {Chosen(ctx, cell).value}), RejectAs(EquivalentAmount), r);
    }
  }

  /** The stale mark: the cell agrees, and the record counted is older than fresh. */
  lemma StaleExactly(ctx: Context, c: Records, x: Contribution) returns (o: Observation)
    requires x in Contributions(ctx, c) && 0 <= ctx.policy.freshness.freshTtl <= ctx.policy.freshness.staleTtl
    ensures o in Reporting(ctx, c, x.key, x.window) && o.id == x.evidence
    ensures x.stale <==>
      && AllAgree(Reporting(ctx, c, x.key, x.window)) && o.receivedAt <= ctx.asOf + ctx.policy.freshness.skewAllowance
      && ctx.asOf - o.content.observedAt > ctx.policy.freshness.freshTtl
  {
    var ck :| ck in CellKeys(ctx, c) && ContributionOf(ctx, c, ck) == Some(x);
    var cell := Cell(ctx, c, ck);
    CellListed(ctx, c, ck);
    AgreeExactly(cell);
    ChosenAmount(ctx, cell);
    o := Chosen(ctx, cell).value;
    SomeAmounts(cell, o);
    AdmittedExactly(ctx, c, o);
    StaleMeans(ctx, o);
  }

  lemma SomeAmounts(g: set<Observation>, o: Observation)
    requires o in g
    ensures |Amounts(g)| > 0
  {
    assert o.content.amount in Amounts(g);
  }

  lemma StaleMeans(ctx: Context, o: Observation)
    requires o.content.source in ctx.topology.sources && Refusal(ctx, true, o) == NoReason && Timely(ctx, o)
    requires 0 <= ctx.policy.freshness.freshTtl <= ctx.policy.freshness.staleTtl
    ensures AssessmentOf(ctx, o).klass == Stale <==>
      o.receivedAt <= ctx.asOf + ctx.policy.freshness.skewAllowance
      && ctx.asOf - o.content.observedAt > ctx.policy.freshness.freshTtl
  {
  }
}
