/** The derivation pass: its stages composed, proved to produce the specified result. */
module DerivationRun {

  import opened Common
  import opened Fabric
  import opened Evidence
  import opened Folds
  import opened Ordering
  import opened Dispute
  import opened Derivation
  import opened DerivationTheorems
  import opened Grouping
  import opened Admission
  import opened Cells

  // ---- accumulating one result per group -----------------------------------

  ghost function SomeOf<K, V>(s: set<K>, g: K -> Option<V>): set<V> {
    set k | k in s && g(k).Some? :: g(k).value
  }

  lemma SomeOfGrow<K, V>(s: set<K>, k: K, g: K -> Option<V>)
    ensures SomeOf(s + {k}, g) == SomeOf(s, g) + (if g(k).Some? then {g(k).value} else {})
  {
    assert k in s + {k};
    forall v ensures v in SomeOf(s + {k}, g) <==> v in SomeOf(s, g) + (if g(k).Some? then {g(k).value} else {}) {
    }
  }

  lemma SomeOfInsert<K, V>(s: set<K>, k: K, g: K -> Option<V>)
    requires k !in s && Separates(g, s + {k})
    ensures multiset(SomeOf(s + {k}, g)) == multiset(SomeOf(s, g)) + (if g(k).Some? then multiset{g(k).value} else multiset{})
  {
    SomeOfGrow(s, k, g);
    if g(k).Some? {
      assert k in s + {k};
      assert g(k).value !in SomeOf(s, g);
    }
  }

  /** Different keys give different results. */
  ghost predicate Separates<K, V>(g: K -> Option<V>, s: set<K>) {
    forall j, k | j in s && k in s && j != k && g(j).Some? && g(k).Some? :: g(j).value != g(k).value
  }

  ghost function Elements<V>(s: seq<V>): set<V> {
    set v | v in s
  }

  function Append<V>(s: seq<V>, x: Option<V>): seq<V> {
    if x.Some? then s + [x.value] else s
  }

  lemma AdvanceList<K, V>(list: seq<V>, done: set<K>, k: K, all: set<K>, g: K -> Option<V>)
    requires k !in done && done + {k} <= all && Separates(g, all)
    requires multiset(list) == multiset(SomeOf(done, g))
    ensures multiset(Append(list, g(k))) == multiset(SomeOf(done + {k}, g))
  {
    SomeOfInsert(done, k, g);
  }

  lemma AdvanceSet<K, V>(list: seq<V>, done: set<K>, k: K, g: K -> Option<V>)
    requires Elements(list) == SomeOf(done, g)
    ensures Elements(Append(list, g(k))) == SomeOf(done + {k}, g)
  {
    SomeOfGrow(done, k, g);
    forall v ensures v in Elements(Append(list, g(k))) <==> v in SomeOf(done, g) + (if g(k).Some? then {g(k).value} else {}) {
      assert v in list <==> v in Elements(list);
    }
  }

  /** Walking the listing of a set, one new element at a time. */
  lemma WalkListing<K>(keys: seq<K>, all: set<K>, i: nat)
    requires multiset(keys) == multiset(all) && i < |keys|
    ensures keys[i] !in Elements(keys[..i])
    ensures Elements(keys[..i + 1]) == Elements(keys[..i]) + {keys[i]} <= all
  {
    ListingMembers(keys, all);
    TakeSucc(keys, i);
  }

  lemma WalkedListing<K>(keys: seq<K>, all: set<K>)
    requires multiset(keys) == multiset(all)
    ensures Elements(keys[..|keys|]) == all
  {
    ListingMembers(keys, all);
    TakeAll(keys);
  }

  lemma GroupLists<K>(s: seq<Observation>, a: set<Observation>, key: Observation -> K, k: K)
    requires Lists(s, a)
    ensures Lists(Keep(s, key, k), set o | o in a && key(o) == k)
  {
    KeepMembers(s, key, k);
  }

  lemma ListedKeys<K>(s: seq<Observation>, a: set<Observation>, key: Observation -> K)
    requires Lists(s, a)
    ensures KeysOf(multiset(s), key) == set o | o in a :: key(o)
  {
    forall k ensures k in KeysOf(multiset(s), key) <==> k in (set o | o in a :: key(o)) {
      if k in KeysOf(multiset(s), key) {
        var o :| o in multiset(s) && key(o) == k;
        assert o in a;
      }
      if k in (set o | o in a :: key(o)) {
        var o :| o in a && key(o) == k;
        assert o in multiset(s);
      }
    }
  }

  // ---- all cells -----------------------------------------------------------

  ghost function CellAt(ctx: Context, c: Records): CellKey -> set<Observation> {
    ck => Cell(ctx, c, ck)
  }

  ghost function ContributionAt(ctx: Context, c: Records): CellKey -> Option<Contribution> {
    ck => SettledContribution(ctx, ck, Cell(ctx, c, ck))
  }

  datatype Settled = Settled(contributions: seq<Contribution>, rejected: seq<Rejection>, conflicts: seq<Conflict>)

  method SettleCells(ctx: Context, entries: seq<Observation>, ghost c: Records) returns (r: Result<Settled, ErrorCode>)
    requires Lists(entries, Entries(ctx, c)) && DistinctIds(Entries(ctx, c))
    ensures r.Err? <==> StrictlyConflicting(ctx, c)
    ensures r.Err? ==> r.error == ConflictingEvidence
    ensures r.Ok? ==>
      && multiset(r.value.contributions) == multiset(Contributions(ctx, c))
      && multiset(r.value.rejected) == DisputeRejections(ctx, c)
      && multiset(r.value.conflicts) == CellConflicts(ctx, c)
  {
    var groups := GroupBy(entries, CellOf(ctx.topology));
    ListedKeys(entries, Entries(ctx, c), CellOf(ctx.topology));
    forall ck | ck in groups
      ensures Ready(ctx, ck, groups[ck], CellAt(ctx, c), CellRejectionsAt(ctx, c), ContributionAt(ctx, c), CellConflictAt(ctx, c))
    {
      CellIsReady(ctx, c, entries, ck);
    }
    ContributionsSeparate(ctx, c);
    r := SettleKeys(ctx, groups, CellAt(ctx, c), CellRejectionsAt(ctx, c), ContributionAt(ctx, c), CellConflictAt(ctx, c));
    StrictCells(ctx, c);
    if r.Ok? {
      ContributionsSettled(ctx, c);
    }
  }

  lemma StrictCells(ctx: Context, c: Records)
    ensures StrictlyConflicting(ctx, c) <==>
      ctx.policy.conflict == StrictFail && exists ck | ck in CellKeys(ctx, c) :: CellConflictAt(ctx, c)(ck) != multiset{}
  {
    forall ck ensures CellConflictAt(ctx, c)(ck) != multiset{} <==> |Amounts(Cell(ctx, c, ck))| != 1 {
    }
  }

  lemma CellIsReady(ctx: Context, c: Records, entries: seq<Observation>, ck: CellKey)
    requires Lists(entries, Entries(ctx, c)) && DistinctIds(Entries(ctx, c)) && ck in CellKeys(ctx, c)
    ensures Ready(ctx, ck, Keep(entries, CellOf(ctx.topology), ck), CellAt(ctx, c), CellRejectionsAt(ctx, c),
                  ContributionAt(ctx, c), CellConflictAt(ctx, c))
  {
    GroupLists(entries, Entries(ctx, c), CellOf(ctx.topology), ck);
    var o :| o in Entries(ctx, c) && CellOf(ctx.topology)(o) == ck;
    assert o in Cell(ctx, c, ck);
  }

  lemma ContributionsSeparate(ctx: Context, c: Records)
    ensures Separates(ContributionAt(ctx, c), CellKeys(ctx, c))
  {
    forall ck | ContributionAt(ctx, c)(ck).Some? ensures
      CellKey(ContributionAt(ctx, c)(ck).value.key, ContributionAt(ctx, c)(ck).value.window) == ck
    {
    }
  }

  lemma ContributionsSettled(ctx: Context, c: Records)
    ensures SomeOf(CellKeys(ctx, c), ContributionAt(ctx, c)) == Contributions(ctx, c)
  {
    assert forall ck :: ContributionAt(ctx, c)(ck) == ContributionOf(ctx, c, ck);
  }

  /** One cell's group, with its specified outcome under f, g and h. */
  ghost predicate Ready(
    ctx: Context, ck: CellKey, group: seq<Observation>, cell: CellKey -> set<Observation>,
    f: CellKey -> multiset<Rejection>, g: CellKey -> Option<Contribution>, h: CellKey -> multiset<Conflict>)
  {
    && Lists(group, cell(ck)) && DistinctIds(cell(ck)) && cell(ck) != {}
    && f(ck) == CellRejections(ctx, cell(ck))
    && g(ck) == SettledContribution(ctx, ck, cell(ck))
    && h(ck) == CellConflictOf(ctx, ck, cell(ck))
  }

  method SettleReady(
    ctx: Context, ck: CellKey, group: seq<Observation>, ghost cell: CellKey -> set<Observation>,
    ghost f: CellKey -> multiset<Rejection>, ghost g: CellKey -> Option<Contribution>, ghost h: CellKey -> multiset<Conflict>)
    returns (r: Result<Settlement, ErrorCode>)
    requires Ready(ctx, ck, group, cell, f, g, h)
    ensures r.Err? <==> ctx.policy.conflict == StrictFail && h(ck) != multiset{}
    ensures r.Err? ==> r.error == ConflictingEvidence
    ensures r.Ok? ==> r.value.contribution == g(ck) && multiset(r.value.rejected) == f(ck) && Bag(r.value.conflict) == h(ck)
  {
    r := SettleCell(ctx, ck, group, cell(ck));
  }

  method SettleKeys(
    ctx: Context, groups: map<CellKey, seq<Observation>>, ghost cell: CellKey -> set<Observation>,
    ghost f: CellKey -> multiset<Rejection>, ghost g: CellKey -> Option<Contribution>, ghost h: CellKey -> multiset<Conflict>)
    returns (r: Result<Settled, ErrorCode>)
    requires forall ck {:trigger Ready(ctx, ck, groups[ck], cell, f, g, h)} | ck in groups ::
      Ready(ctx, ck, groups[ck], cell, f, g, h)
    requires Separates(g, groups.Keys)
    ensures r.Err? <==> ctx.policy.conflict == StrictFail && exists ck | ck in groups :: h(ck) != multiset{}
    ensures r.Err? ==> r.error == ConflictingEvidence
    ensures r.Ok? ==>
      && multiset(r.value.contributions) == multiset(SomeOf(groups.Keys, g))
      && multiset(r.value.rejected) == Gather(multiset(groups.Keys), f)
      && multiset(r.value.conflicts) == Gather(multiset(groups.Keys), h)
  {
    var contributions: seq<Contribution>, rejected: seq<Rejection>, conflicts: seq<Conflict> := [], [], [];
    var keys := Listing(groups.Keys);
    ghost var done: set<CellKey> := {};
    for i := 0 to |keys|
      invariant done == Elements(keys[..i])
      invariant multiset(contributions) == multiset(SomeOf(done, g))
      invariant multiset(rejected) == Gather(multiset(done), f)
      invariant multiset(conflicts) == Gather(multiset(done), h)
      invariant ctx.policy.conflict == StrictFail ==> forall ck | ck in done :: h(ck) == multiset{}
    {
      var ck := keys[i];
      WalkListing(keys, groups.Keys, i);
      var settled := SettleReady(ctx, ck, groups[ck], cell, f, g, h);
      if settled.Err? {
        return Err(settled.error);
      }
      AdvanceList(contributions, done, ck, groups.Keys, g);
      GatherInsert(done, ck, f);
      GatherInsert(done, ck, h);
      contributions := Append(contributions, settled.value.contribution);
      rejected := rejected + settled.value.rejected;
      conflicts := Append(conflicts, settled.value.conflict);
      done := done + {ck};
    }
    WalkedListing(keys, groups.Keys);
    return Ok(Settled(contributions, rejected, conflicts));
  }

  // ---- totals --------------------------------------------------------------

  ghost function KeptAt(ctx: Context, c: Records): TotalKey -> Option<TotalCell> {
    tk => KeptFor(ctx, TotalGroup(ctx, c, tk))
  }

  ghost function KeptFor(ctx: Context, g: set<Observation>): Option<TotalCell> {
    if Agreed(g) && g != {} then Some(TotalCellOf(ctx.topology, First(g))) else None
  }

  method SettleTotal(ctx: Context, tk: TotalKey, group: seq<Observation>, ghost g: set<Observation>)
    returns (kept: Option<TotalCell>, unknown: Option<UnknownEntry>, conflict: Option<Conflict>)
    requires Lists(group, g) && DistinctIds(g) && g != {}
    ensures kept == KeptFor(ctx, g)
    ensures unknown == if Agreed(g) then None else Some(DisagreementOf(tk, |g|))
    ensures Bag(conflict) == TotalConflictOf(tk, g)
  {
    var byAmount := AmountTable(group, g);
    TableKeys(g);
    if |byAmount.Keys| == 1 {
      var amount :| amount in byAmount.Keys;
      AgreedCell(ctx, g, amount);
      var representative := LowestId(group, amount, g);
      FirstUnique(representative, g);
      return Some(TotalCellOf(ctx.topology, representative)), None, None;
    }
    ListingMembers(group, g);
    var participants, sources := NameParties(group);
    conflict := Some(Conflict(TotalAmounts, DomainClaim(tk.domain), participants, sources, |byAmount.Keys|, false));
    return None, Some(DisagreementOf(tk, |group|)), conflict;
  }

  ghost function GroupAtTotal(ctx: Context, c: Records): TotalKey -> set<Observation> {
    tk => TotalGroup(ctx, c, tk)
  }

  ghost function DisagreementAt(ctx: Context, c: Records): TotalKey -> Option<UnknownEntry> {
    tk => DisagreementFor(tk, TotalGroup(ctx, c, tk))
  }

  ghost function DisagreementFor(tk: TotalKey, g: set<Observation>): Option<UnknownEntry> {
    if Agreed(g) then None else Some(DisagreementOf(tk, |g|))
  }

  method SettleTotals(ctx: Context, totals: seq<Observation>, ghost c: Records)
    returns (kept: seq<TotalCell>, disagreements: seq<UnknownEntry>, conflicts: seq<Conflict>)
    requires Lists(totals, Totals(ctx, c)) && DistinctIds(Totals(ctx, c))
    ensures multiset(kept) == multiset(KeptTotals(ctx, c))
    ensures Elements(disagreements) == Disagreements(ctx, c)
    ensures multiset(conflicts) == TotalConflicts(ctx, c)
  {
    var groups := GroupBy(totals, TotalKeyOf(ctx.topology));
    ListedKeys(totals, Totals(ctx, c), TotalKeyOf(ctx.topology));
    forall tk | tk in groups ensures TotalReady(ctx, tk, groups[tk], GroupAtTotal(ctx, c), KeptAt(ctx, c), DisagreementAt(ctx, c),
                         TotalConflictAt(ctx, c))
    {
      TotalIsReady(ctx, c, totals, tk);
    }
    KeptSeparate(ctx, c);
    kept, disagreements, conflicts :=
      SettleTotalKeys(ctx, groups, GroupAtTotal(ctx, c), KeptAt(ctx, c), DisagreementAt(ctx, c), TotalConflictAt(ctx, c));
    KeptSettled(ctx, c);
    DisagreementsSettled(ctx, c);
  }

  lemma TotalIsReady(ctx: Context, c: Records, totals: seq<Observation>, tk: TotalKey)
    requires Lists(totals, Totals(ctx, c)) && DistinctIds(Totals(ctx, c)) && tk in TotalKeys(ctx, c)
    ensures TotalReady(ctx, tk, Keep(totals, TotalKeyOf(ctx.topology), tk), GroupAtTotal(ctx, c), KeptAt(ctx, c),
                       DisagreementAt(ctx, c), TotalConflictAt(ctx, c))
  {
    GroupLists(totals, Totals(ctx, c), TotalKeyOf(ctx.topology), tk);
    var o :| o in Totals(ctx, c) && TotalKeyOf(ctx.topology)(o) == tk;
    assert o in TotalGroup(ctx, c, tk);
  }

  lemma KeptSeparate(ctx: Context, c: Records)
    ensures Separates(KeptAt(ctx, c), TotalKeys(ctx, c))
  {
    forall tk | KeptAt(ctx, c)(tk).Some?
      ensures TotalKey(KeptAt(ctx, c)(tk).value.domain, KeptAt(ctx, c)(tk).value.window) == tk
    {
      assert First(TotalGroup(ctx, c, tk)) in TotalGroup(ctx, c, tk);
    }
  }

  lemma KeptSettled(ctx: Context, c: Records)
    ensures SomeOf(TotalKeys(ctx, c), KeptAt(ctx, c)) == KeptTotals(ctx, c)
  {
  }

  lemma DisagreementsSettled(ctx: Context, c: Records)
    ensures SomeOf(TotalKeys(ctx, c), DisagreementAt(ctx, c)) == Disagreements(ctx, c)
  {
  }

  /** One domain and window's group of totals, with its specified outcome under h, d and x. */
  ghost predicate TotalReady(
    ctx: Context, tk: TotalKey, group: seq<Observation>, g: TotalKey -> set<Observation>,
    h: TotalKey -> Option<TotalCell>, d: TotalKey -> Option<UnknownEntry>, x: TotalKey -> multiset<Conflict>)
  {
    && Lists(group, g(tk)) && DistinctIds(g(tk)) && g(tk) != {}
    && h(tk) == KeptFor(ctx, g(tk))
    && d(tk) == DisagreementFor(tk, g(tk))
    && x(tk) == TotalConflictOf(tk, g(tk))
  }

  method SettleReadyTotal(
    ctx: Context, tk: TotalKey, group: seq<Observation>, ghost g: TotalKey -> set<Observation>,
    ghost h: TotalKey -> Option<TotalCell>, ghost d: TotalKey -> Option<UnknownEntry>,
    ghost x: TotalKey -> multiset<Conflict>)
    returns (kept: Option<TotalCell>, unknown: Option<UnknownEntry>, conflict: Option<Conflict>)
    requires TotalReady(ctx, tk, group, g, h, d, x)
    ensures kept == h(tk) && unknown == d(tk) && Bag(conflict) == x(tk)
  {
    kept, unknown, conflict := SettleTotal(ctx, tk, group, g(tk));
  }

  method SettleTotalKeys(
    ctx: Context, groups: map<TotalKey, seq<Observation>>, ghost g: TotalKey -> set<Observation>,
    ghost h: TotalKey -> Option<TotalCell>, ghost d: TotalKey -> Option<UnknownEntry>,
    ghost x: TotalKey -> multiset<Conflict>)
    returns (kept: seq<TotalCell>, disagreements: seq<UnknownEntry>, conflicts: seq<Conflict>)
    requires forall tk {:trigger TotalReady(ctx, tk, groups[tk], g, h, d, x)} | tk in groups ::
      TotalReady(ctx, tk, groups[tk], g, h, d, x)
    requires Separates(h, groups.Keys)
    ensures multiset(kept) == multiset(SomeOf(groups.Keys, h))
    ensures Elements(disagreements) == SomeOf(groups.Keys, d)
    ensures multiset(conflicts) == Gather(multiset(groups.Keys), x)
  {
    kept, disagreements, conflicts := [], [], [];
    var keys := Listing(groups.Keys);
    ghost var done: set<TotalKey> := {};
    for i := 0 to |keys|
      invariant done == Elements(keys[..i])
      invariant multiset(kept) == multiset(SomeOf(done, h))
      invariant Elements(disagreements) == SomeOf(done, d)
      invariant multiset(conflicts) == Gather(multiset(done), x)
    {
      var tk := keys[i];
      WalkListing(keys, groups.Keys, i);
      var cell, unknown, conflict := SettleReadyTotal(ctx, tk, groups[tk], g, h, d, x);
      AdvanceList(kept, done, tk, groups.Keys, h);
      AdvanceSet(disagreements, done, tk, d);
      GatherInsert(done, tk, x);
      kept, disagreements, conflicts := Append(kept, cell), Append(disagreements, unknown), Append(conflicts, conflict);
      done := done + {tk};
    }
    WalkedListing(keys, groups.Keys);
  }

  // ---- the unknown bucket --------------------------------------------------

  method PushUnknown(into: seq<UnknownEntry>, entry: UnknownEntry) returns (after: seq<UnknownEntry>)
    requires Distinct(into)
    ensures Distinct(after) && Elements(after) == Elements(into) + {entry}
  {
    var i := 0;
    while i < |into|
      invariant i <= |into|
      invariant forall k | 0 <= k < i :: into[k] != entry
    {
      if into[i] == entry {
        return into;
      }
      i := i + 1;
    }
    after := into + [entry];
    AppendElementsOne(into, entry);
  }

  lemma AppendElementsOne<V>(s: seq<V>, v: V)
    ensures Elements(s + [v]) == Elements(s) + {v}
  {
    forall x ensures x in Elements(s + [v]) <==> x in Elements(s) + {v} {
    }
  }

  ghost function UnknownsOf(rejected: seq<Rejection>): set<UnknownEntry> {
    set r | r in rejected :: UnknownOf(r)
  }

  method UnknownBucket(rejected: seq<Rejection>, disagreements: seq<UnknownEntry>) returns (unknowns: seq<UnknownEntry>)
    ensures multiset(unknowns) == multiset(UnknownsOf(rejected) + Elements(disagreements))
  {
    unknowns := [];
    for i := 0 to |rejected|
      invariant Distinct(unknowns) && Elements(unknowns) == UnknownsOf(rejected[..i])
    {
      TakeSucc(rejected, i);
      MoreUnknowns(rejected[..i], rejected[i]);
      unknowns := PushUnknown(unknowns, UnknownOf(rejected[i]));
    }
    TakeAll(rejected);
    for i := 0 to |disagreements|
      invariant Distinct(unknowns) && Elements(unknowns) == UnknownsOf(rejected) + Elements(disagreements[..i])
    {
      TakeSucc(disagreements, i);
      AppendElementsOne(disagreements[..i], disagreements[i]);
      unknowns := PushUnknown(unknowns, disagreements[i]);
    }
    TakeAll(disagreements);
    DistinctListing(unknowns);
  }

  lemma MoreUnknowns(rejected: seq<Rejection>, r: Rejection)
    ensures UnknownsOf(rejected + [r]) == UnknownsOf(rejected) + {UnknownOf(r)}
  {
    assert r in rejected + [r];
    forall u ensures u in UnknownsOf(rejected + [r]) <==> u in UnknownsOf(rejected) + {UnknownOf(r)} {
      if u in UnknownsOf(rejected) {
        var q :| q in rejected && UnknownOf(q) == u;
        assert q in rejected + [r];
      }
    }
  }

  lemma {:induction false} DistinctListing<V>(s: seq<V>)
    requires Distinct(s)
    ensures multiset(s) == multiset(Elements(s))
  {
    if s != [] {
      var n := |s| - 1;
      SplitLast(s);
      DistinctListing(s[..n]);
      AppendElementsOne(s[..n], s[n]);
      assert s[n] !in Elements(s[..n]);
    }
  }

  method CountSuppressions(rejected: seq<Rejection>) returns (count: nat)
    ensures count == Suppressions(rejected)
  {
    count := 0;
    for i := 0 to |rejected|
      invariant count == Suppressions(rejected[..i])
    {
      TakeSucc(rejected, i);
      assert rejected[..i + 1][..i] == rejected[..i];
      if IsSuppression(rejected[i]) {
        count := count + 1;
      }
    }
    TakeAll(rejected);
  }

  // ---- the whole pass ------------------------------------------------------

  lemma AdmittedIdsDistinct(ctx: Context, c: Records)
    ensures DistinctIds(Admitted(ctx, c))
  {
    forall o, p | o in Admitted(ctx, c) && p in Admitted(ctx, c) && o.id == p.id ensures o == p {
      AdmittedAreDistinct(ctx, c, o, p);
    }
  }

  lemma SubsetIdsDistinct(a: set<Observation>, b: set<Observation>)
    requires DistinctIds(a) && b <= a
    ensures DistinctIds(b)
  {
  }

  /** The pass fails exactly on a disputed cell under the strict conflict policy, and
      otherwise produces the derivation of the considered records. */
  method RunDerivation(ctx: Context, period: Window, observations: seq<Observation>)
    returns (r: Result<Derived, ErrorCode>)
    ensures r.Err? <==> StrictlyConflicting(ctx, Considered(multiset(observations), period))
    ensures r.Err? ==> r.error == ConflictingEvidence
    ensures r.Ok? ==> IsDerivation(ctx, Considered(multiset(observations), period), r.value)
  {
    var candidates := SelectCandidates(observations, period);
    r := DeriveFrom(ctx, candidates);
  }

  method DeriveFrom(ctx: Context, candidates: seq<Observation>) returns (r: Result<Derived, ErrorCode>)
    requires SortedBy(candidates, IdRank)
    ensures r.Err? <==> StrictlyConflicting(ctx, multiset(candidates))
    ensures r.Err? ==> r.error == ConflictingEvidence
    ensures r.Ok? ==> IsDerivation(ctx, multiset(candidates), r.value)
  {
    ghost var c := multiset(candidates);
    var excluded, exclusions, divergent := Exclude(candidates);
    var admitted, refusals, stale := Admit(ctx, candidates, excluded);
    AdmittedIdsDistinct(ctx, c);
    var entries, totals, unattributed := Correlate(ctx, admitted, Admitted(ctx, c));
    SubsetIdsDistinct(Admitted(ctx, c), Entries(ctx, c));
    SubsetIdsDistinct(Admitted(ctx, c), Totals(ctx, c));
    var settled := SettleCells(ctx, entries, c);
    if settled.Err? {
      return Err(settled.error);
    }
    var kept, disagreements, unverifiable := SettleTotals(ctx, totals, c);
    var rejected := exclusions + refusals + unattributed + settled.value.rejected;
    var unknowns := UnknownBucket(rejected, disagreements);
    assert UnknownsOf(rejected) == set x | x in Rejections(ctx, c) :: UnknownOf(x) by {
      SameRejections(rejected, Rejections(ctx, c));
    }
    var contributions := Sort(settled.value.contributions, ContributionRank);
    unknowns := Sort(unknowns, UnknownRank);
    rejected := Sort(rejected, RejectionRank);
    ghost var n := SameLength(candidates, c);
    var suppressed := CountSuppressions(rejected);
    var conflicts := divergent + settled.value.conflicts + unverifiable;
    assert Orders(candidates, c) && ConflictsUnder(ctx, c, candidates, conflicts);
    r := Ok(Derived(contributions, kept, rejected, unknowns, conflicts,
                    |candidates|, |contributions|, suppressed, stale));
  }

  lemma SameRejections(rejected: seq<Rejection>, m: multiset<Rejection>)
    requires multiset(rejected) == m
    ensures UnknownsOf(rejected) == set x | x in m :: UnknownOf(x)
  {
    assert forall x :: x in rejected <==> x in m;
  }

  lemma SameLength<V>(s: seq<V>, m: multiset<V>) returns (n: nat)
    requires multiset(s) == m
    ensures n == |s| == |m|
  {
    n := |s|;
  }
}
