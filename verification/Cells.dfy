/** Correlation of admitted records and the settlement of every accounting cell. */
module Cells {

  import opened Common
  import opened Fabric
  import opened Evidence
  import opened Folds
  import opened Ordering
  import opened Dispute
  import opened Derivation
  import opened DerivationTheorems
  import opened Grouping
  import opened Admission

  // ---- correlation ---------------------------------------------------------

  method Correlate(ctx: Context, admitted: seq<Observation>, ghost a: set<Observation>)
    returns (entries: seq<Observation>, totals: seq<Observation>, rejected: seq<Rejection>)
    requires Lists(admitted, a)
    ensures Lists(entries, set o | o in a && IsEntry(ctx.topology, o))
    ensures Lists(totals, set o | o in a && o.content.role == TotalRole)
    ensures multiset(rejected) == Gather(
      multiset(set o | o in a && o.content.role == ContributionRole && Attribute(o, ctx.topology).Err?),
      RejectAs(NotAttributable))
  {
    ListsMembers(admitted, a);
    ghost var e := set o | o in a && IsEntry(ctx.topology, o);
    ghost var t := set o | o in a && o.content.role == TotalRole;
    ghost var u := set o | o in a && o.content.role == ContributionRole && Attribute(o, ctx.topology).Err?;
    entries, totals, rejected := Split(ctx, admitted, e, t, u, RejectAs(NotAttributable));
  }

  datatype Place = AsEntry | AsTotal | Nowhere

  function PlaceOf(t: Topology, o: Observation): Place {
    if o.content.role == TotalRole then AsTotal else if Attribute(o, t).Err? then Nowhere else AsEntry
  }

  method Split(
    ctx: Context, admitted: seq<Observation>, ghost e: set<Observation>, ghost t: set<Observation>,
    ghost u: set<Observation>, ghost f: Observation -> multiset<Rejection>)
    returns (entries: seq<Observation>, totals: seq<Observation>, rejected: seq<Rejection>)
    requires forall i | 0 <= i < |admitted| :: admitted[i] !in admitted[..i]
    requires forall o | o in e || o in t || o in u :: o in admitted
    requires forall o {:trigger PlaceOf(ctx.topology, o)} | o in admitted ::
      && (o in t <==> PlaceOf(ctx.topology, o) == AsTotal)
      && (o in u <==> PlaceOf(ctx.topology, o) == Nowhere)
      && (o in e <==> PlaceOf(ctx.topology, o) == AsEntry)
    requires forall o :: f(o) == multiset{Reject(o, NotAttributable)}
    ensures Lists(entries, e) && Lists(totals, t)
    ensures multiset(rejected) == Gather(multiset(u), f)
  {
    entries, totals, rejected := [], [], [];
    for i := 0 to |admitted|
      invariant Lists(entries, Seen(admitted, i, e))
      invariant Lists(totals, Seen(admitted, i, t))
      invariant multiset(rejected) == Gather(multiset(Seen(admitted, i, u)), f)
    {
      var o := admitted[i];
      ListsNext(entries, admitted, i, e);
      ListsNext(totals, admitted, i, t);
      GatherNext(admitted, i, u, f);
      var place := PlaceOf(ctx.topology, o);
      entries := if place == AsEntry then entries + [o] else entries;
      totals := if place == AsTotal then totals + [o] else totals;
      rejected := if place == Nowhere then rejected + [Reject(o, NotAttributable)] else rejected;
    }
    SeenAll(admitted, e);
    SeenAll(admitted, t);
    SeenAll(admitted, u);
  }

  // ---- one cell ------------------------------------------------------------

  ghost predicate DistinctIds(s: set<Observation>) {
    forall o, p | o in s && p in s && o.id == p.id :: o == p
  }

  lemma FirstUnique(o: Observation, s: set<Observation>)
    requires IsFirst(o, s) && DistinctIds(s)
    ensures o == First(s)
  {
  }

  method AmountTable(group: seq<Observation>, ghost cell: set<Observation>) returns (byAmount: ByAmount)
    requires Lists(group, cell)
    ensures byAmount == ByAmountOf(cell)
  {
    byAmount := map[];
    ListsMembers(group, cell);
    for i := 0 to |group|
      invariant forall a :: a in byAmount <==> exists k | 0 <= k < i :: group[k].content.amount == a
      invariant forall a, s | a in byAmount ::
        s in byAmount[a] <==> exists k | 0 <= k < i :: group[k].content.amount == a && group[k].content.source == s
    {
      var a := group[i].content.amount;
      var sources := if a in byAmount then byAmount[a] else {};
      byAmount := byAmount[a := sources + {group[i].content.source}];
    }
    TableMeansCell(group, cell, byAmount);
  }

  lemma TableMeansCell(group: seq<Observation>, cell: set<Observation>, byAmount: ByAmount)
    requires forall o :: o in group <==> o in cell
    requires forall a :: a in byAmount <==> exists k | 0 <= k < |group| :: group[k].content.amount == a
    requires forall a, s | a in byAmount ::
      s in byAmount[a] <==> exists k | 0 <= k < |group| :: group[k].content.amount == a && group[k].content.source == s
    ensures byAmount == ByAmountOf(cell)
  {
    var spec := ByAmountOf(cell);
    forall a: nat ensures a in byAmount <==> a in spec {
      if a in byAmount {
        var k :| 0 <= k < |group| && group[k].content.amount == a;
        assert group[k] in cell;
      }
      if a in Amounts(cell) {
        var o :| o in cell && o.content.amount == a;
        var k :| 0 <= k < |group| && group[k] == o;
      }
    }
    forall a: nat, s: Id | a in byAmount ensures s in byAmount[a] <==> s in spec[a] {
      if s in byAmount[a] {
        var k :| 0 <= k < |group| && group[k].content.amount == a && group[k].content.source == s;
        assert group[k] in cell;
      }
      if s in spec[a] {
        var o :| o in cell && o.content.amount == a && o.content.source == s;
        var k :| 0 <= k < |group| && group[k] == o;
      }
    }
    assert forall a | a in byAmount :: byAmount[a] == spec[a];
  }

  method LowestId(group: seq<Observation>, amount: nat, ghost cell: set<Observation>) returns (chosen: Observation)
    requires Lists(group, cell) && WithAmount(cell, amount) != {}
    ensures IsFirst(chosen, WithAmount(cell, amount))
  {
    ListsMembers(group, cell);
    var best: Option<Observation> := None;
    for i := 0 to |group|
      invariant best.Some? ==> best.value in WithAmount(cell, amount)
      invariant forall k | 0 <= k < i && group[k].content.amount == amount :: best.Some? && best.value.id <= group[k].id
    {
      if group[i].content.amount == amount && (best.None? || group[i].id < best.value.id) {
        best := Some(group[i]);
      }
    }
    assert best.Some? by {
      var o :| o in WithAmount(cell, amount);
      var k :| 0 <= k < |group| && group[k] == o;
    }
    chosen := best.value;
    forall p | p in WithAmount(cell, amount) ensures chosen.id <= p.id {
      var k :| 0 <= k < |group| && group[k] == p;
    }
  }

  method RejectOthers(group: seq<Observation>, chosen: Observation, ghost cell: set<Observation>)
    returns (rejected: seq<Rejection>)
    requires Lists(group, cell) && DistinctIds(cell) && chosen in cell
    ensures multiset(rejected) == Gather(multiset(cell - {chosen}), RejectAs(EquivalentAmount))
  {
    ListsMembers(group, cell);
    ghost var others := cell - {chosen};
    rejected := [];
    for i := 0 to |group|
      invariant multiset(rejected) == Gather(multiset(Seen(group, i, others)), RejectAs(EquivalentAmount))
    {
      SeenNext(group, i, others);
      if group[i] != chosen {
        GatherInsert(Seen(group, i, others), group[i], RejectAs(EquivalentAmount));
        rejected := rejected + [Reject(group[i], EquivalentAmount)];
      }
    }
    SeenAll(group, others);
  }

  datatype Settlement = Settlement(
    contribution: Option<Contribution>, rejected: seq<Rejection>, conflict: Option<Conflict>)

  ghost function SettledContribution(ctx: Context, ck: CellKey, cell: set<Observation>): Option<Contribution> {
    match Chosen(ctx, cell)
    case Some(o) => Some(CountedAs(ctx, ck, o, |Amounts(cell)| > 1))
    case None => None
  }

  /** What an optional result adds to a list. */
  function Bag<V(==)>(x: Option<V>): multiset<V> {
    if x.Some? then multiset{x.value} else multiset{}
  }

  lemma TableKeys(cell: set<Observation>)
    ensures ByAmountOf(cell).Keys == Amounts(cell)
  {
  }

  lemma AgreedCell(ctx: Context, cell: set<Observation>, a: nat)
    requires |Amounts(cell)| == 1 && a in Amounts(cell)
    ensures WithAmount(cell, a) == cell && cell != {}
    ensures Chosen(ctx, cell) == Some(First(cell))
  {
    TableKeys(cell);
    var one := TheOne(Amounts(cell));
    assert forall o | o in cell :: o.content.amount in Amounts(cell);
    assert WithAmount(cell, a) == cell;
    assert Verdict(ctx, cell) == Ok(Resolved(a));
  }

  lemma DisputedCell(ctx: Context, cell: set<Observation>)
    requires |Amounts(cell)| != 1
    ensures Verdict(ctx, cell).Err? <==> ctx.policy.conflict == StrictFail
    ensures Verdict(ctx, cell).Err? ==> Verdict(ctx, cell).error == ConflictingEvidence
    ensures Verdict(ctx, cell).Ok? && Verdict(ctx, cell).value.Resolved? ==>
      var a := Verdict(ctx, cell).value.amount;
      WithAmount(cell, a) != {} && Chosen(ctx, cell) == Some(First(WithAmount(cell, a)))
    ensures !(Verdict(ctx, cell).Ok? && Verdict(ctx, cell).value.Resolved?) ==> Chosen(ctx, cell) == None
  {
    TableKeys(cell);
    var v := Verdict(ctx, cell);
    if v.Ok? && v.value.Resolved? {
      var p := Prefer(Reports(ByAmountOf(cell)), AuthorityOf(ctx.topology), ctx.policy.tieBreak);
      assert v.value.amount in AmountsOf(ByAmountOf(cell), p.source);
      assert v.value.amount in Amounts(cell);
      var o :| o in cell && o.content.amount == v.value.amount;
      assert o in WithAmount(cell, v.value.amount);
    }
  }

  method SettleCell(ctx: Context, ck: CellKey, group: seq<Observation>, ghost cell: set<Observation>)
    returns (r: Result<Settlement, ErrorCode>)
    requires Lists(group, cell) && DistinctIds(cell) && cell != {}
    ensures r.Err? <==> ctx.policy.conflict == StrictFail && |Amounts(cell)| != 1
    ensures r.Err? ==> r.error == ConflictingEvidence
    ensures r.Ok? ==>
      && r.value.contribution == SettledContribution(ctx, ck, cell)
      && multiset(r.value.rejected) == CellRejections(ctx, cell)
      && Bag(r.value.conflict) == CellConflictOf(ctx, ck, cell)
  {
    var byAmount := AmountTable(group, cell);
    TableKeys(cell);
    ListsMembers(group, cell);
    if |byAmount.Keys| == 1 {
      var s := SettleAgreed(ctx, ck, group, byAmount, cell);
      return Ok(s);
    }
    DisputedCell(ctx, cell);
    var outcome := ResolveAmountDispute(byAmount, AuthorityOf(ctx.topology), ctx.policy);
    if outcome.Err? {
      return Err(outcome.error);
    }
    var participants, sources := NameParties(group);
    var conflict := Conflict(CellAmounts, ck.key, participants, sources, |byAmount.Keys|, outcome.value.Resolved?);
    if outcome.value.Resolved? {
      var chosen := LowestId(group, outcome.value.amount, cell);
      FirstUnique(chosen, WithAmount(cell, outcome.value.amount));
      assert |Amounts(cell)| > 1 by { SomeAmount(cell); }
      return Ok(Settlement(Some(CountedAs(ctx, ck, chosen, true)), [], Some(conflict)));
    }
    var rejected := RejectAll(group, OpenDispute);
    return Ok(Settlement(None, rejected, Some(conflict)));
  }

  lemma SomeAmount(cell: set<Observation>)
    requires cell != {}
    ensures |Amounts(cell)| > 0
  {
    var o :| o in cell;
    assert o.content.amount in Amounts(cell);
  }

  method SettleAgreed(
    ctx: Context, ck: CellKey, group: seq<Observation>, byAmount: ByAmount, ghost cell: set<Observation>)
    returns (s: Settlement)
    requires Lists(group, cell) && DistinctIds(cell) && cell != {}
    requires byAmount == ByAmountOf(cell) && |byAmount.Keys| == 1
    ensures s.contribution == SettledContribution(ctx, ck, cell)
    ensures multiset(s.rejected) == CellRejections(ctx, cell)
    ensures Bag(s.conflict) == CellConflictOf(ctx, ck, cell)
  {
    TableKeys(cell);
    var amount :| amount in byAmount.Keys;
    AgreedCell(ctx, cell, amount);
    var representative := LowestId(group, amount, cell);
    FirstUnique(representative, cell);
    var rejected := RejectOthers(group, representative, cell);
    s := Settlement(Some(CountedAs(ctx, ck, representative, false)), rejected, None);
  }
}
