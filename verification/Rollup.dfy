/** Hierarchical rollup: each row counts in its own scope and in every scope above it. */
module Rollup {

  import opened Common
  import opened Fabric
  import opened Evidence
  import opened Folds
  import opened Ordering
  import opened Derivation
  import opened Claims
  import opened Forest
  import opened Topologies

  const MAX_RESULT_ROWS: nat := 100_000

  datatype Row = Row(scope: Id, generation: Id, kind: MeasureKind, category: Category, cell: AggregateCell)

  datatype RollupKey = RollupKey(scope: Id, generation: Id, kind: MeasureKind, category: Category)

  /** The three things a cell counts. */
  datatype Counter = KnownTotal | KnownContributions | UnknownContributions

  function Count(cell: AggregateCell, c: Counter): U64 {
    match c
    case KnownTotal => cell.knownTotal
    case KnownContributions => cell.knownContributions
    case UnknownContributions => cell.unknownContributions
  }

  /** The scope itself or one above it; a row without a scope stays by itself. */
  ghost predicate Above(scopes: Scopes, target: Id, s: Id) {
    target == s || (s != NIL && IsAncestor(scopes, target, s))
  }

  predicate Alike(key: RollupKey, row: Row) {
    key.generation == row.generation && key.kind == row.kind && key.category == row.category
  }

  ghost predicate RollsInto(scopes: Scopes, row: Row, key: RollupKey) {
    Alike(key, row) && Above(scopes, key.scope, row.scope)
  }

  ghost function Share(scopes: Scopes, key: RollupKey, c: Counter): Row -> nat {
    (row: Row) => if RollsInto(scopes, row, key) then Count(row.cell, c) else 0
  }

  /** The sum over every row in the subtree. */
  ghost function Total(scopes: Scopes, rows: multiset<Row>, key: RollupKey, c: Counter): nat {
    SumOf(rows, Share(scopes, key, c))
  }

  ghost predicate Overflows(scopes: Scopes, rows: multiset<Row>) {
    exists key, c :: Total(scopes, rows, key, c) > U64_MAX
  }

  function CellAt(rolled: map<RollupKey, AggregateCell>, key: RollupKey): (cell: AggregateCell)
    ensures key in rolled ==> cell == rolled[key]
  {
    if key in rolled then rolled[key] else AggregateCell(key.kind, 0, 0, 0)
  }

  ghost predicate AreRolled(scopes: Scopes, rows: multiset<Row>, rolled: map<RollupKey, AggregateCell>) {
    && (forall key :: key in rolled <==> exists row :: row in rows && RollsInto(scopes, row, key))
    && (forall key {:trigger CellAt(rolled, key)} :: CellAt(rolled, key).kind == key.kind)
    && (forall key, c {:trigger Total(scopes, rows, key, c)} :: Count(CellAt(rolled, key), c) == Total(scopes, rows, key, c))
  }

  // ---- one row -------------------------------------------------------------

  function KeyFor(target: Id, row: Row): RollupKey {
    RollupKey(target, row.generation, row.kind, row.category)
  }

  /** Part way through a row: those of its targets already done have received it. */
  ghost predicate PartRolled(scopes: Scopes, rows: multiset<Row>, row: Row, done: set<Id>, rolled: map<RollupKey, AggregateCell>) {
    && (forall key :: key in rolled <==>
          (exists r :: r in rows && RollsInto(scopes, r, key)) || (Alike(key, row) && key.scope in done))
    && (forall key {:trigger CellAt(rolled, key)} :: CellAt(rolled, key).kind == key.kind)
    && (forall key, c {:trigger Total(scopes, rows, key, c)} ::
          Count(CellAt(rolled, key), c)
          == Total(scopes, rows, key, c) + if Alike(key, row) && key.scope in done then Count(row.cell, c) else 0)
  }

  lemma MergeCounts(a: AggregateCell, b: AggregateCell)
    requires a.kind == b.kind
    ensures Merge(a, b).Ok? ==> Merge(a, b).value.kind == a.kind
                                && forall c: Counter :: Count(Merge(a, b).value, c) == Count(a, c) + Count(b, c)
    ensures Merge(a, b).Err? ==> Merge(a, b).error == ArithmeticOverflow
                                 && exists c: Counter :: Count(a, c) + Count(b, c) > U64_MAX
  {
    assert Count(a, KnownTotal) == a.knownTotal && Count(b, KnownTotal) == b.knownTotal;
    assert Count(a, KnownContributions) == a.knownContributions && Count(b, KnownContributions) == b.knownContributions;
    assert Count(a, UnknownContributions) == a.unknownContributions && Count(b, UnknownContributions) == b.unknownContributions;
    assert Merge(a, b).Err? ==> Count(a, KnownTotal) + Count(b, KnownTotal) > U64_MAX
                                || Count(a, KnownContributions) + Count(b, KnownContributions) > U64_MAX
                                || Count(a, UnknownContributions) + Count(b, UnknownContributions) > U64_MAX;
  }

  lemma TotalMore(scopes: Scopes, rows: multiset<Row>, row: Row, key: RollupKey, c: Counter)
    ensures Total(scopes, rows + multiset{row}, key, c)
         == Total(scopes, rows, key, c) + if RollsInto(scopes, row, key) then Count(row.cell, c) else 0
  {
    SumOfAdd(rows, row, Share(scopes, key, c));
  }

  lemma RowDone(scopes: Scopes, rows: multiset<Row>, row: Row, targets: set<Id>, rolled: map<RollupKey, AggregateCell>)
    requires PartRolled(scopes, rows, row, targets, rolled)
    requires forall target :: target in targets <==> Above(scopes, target, row.scope)
    ensures AreRolled(scopes, rows + multiset{row}, rolled)
  {
    var all := rows + multiset{row};
    forall key ensures key in rolled <==> exists r :: r in all && RollsInto(scopes, r, key) {
      assert row in all;
      if r :| r in rows && RollsInto(scopes, r, key) {
        assert r in all;
      }
    }
    forall key, c ensures Count(CellAt(rolled, key), c) == Total(scopes, all, key, c) {
      TotalMore(scopes, rows, row, key, c);
      assert Total(scopes, rows, key, c) >= 0;
    }
  }

  lemma RowBegun(scopes: Scopes, rows: multiset<Row>, row: Row, rolled: map<RollupKey, AggregateCell>)
    requires AreRolled(scopes, rows, rolled)
    ensures PartRolled(scopes, rows, row, {}, rolled)
  {
  }

  lemma TargetMerged(
    scopes: Scopes, rows: multiset<Row>, row: Row, done: set<Id>, target: Id,
    rolled: map<RollupKey, AggregateCell>, cell: AggregateCell)
    requires PartRolled(scopes, rows, row, done, rolled) && target !in done && row.cell.kind == row.kind
    requires cell.kind == row.kind
    requires forall c: Counter :: Count(cell, c) == Count(CellAt(rolled, KeyFor(target, row)), c) + Count(row.cell, c)
    ensures PartRolled(scopes, rows, row, done + {target}, rolled[KeyFor(target, row) := cell])
  {
    var hit := KeyFor(target, row);
    var rolled' := rolled[hit := cell];
    forall key, c
      ensures Count(CellAt(rolled', key), c)
           == Total(scopes, rows, key, c) + if Alike(key, row) && key.scope in done + {target} then Count(row.cell, c) else 0
    {
      assert Total(scopes, rows, key, c) >= 0;
      assert key != hit ==> CellAt(rolled', key) == CellAt(rolled, key);
    }
    forall key ensures CellAt(rolled', key).kind == key.kind {
      assert key != hit ==> CellAt(rolled', key) == CellAt(rolled, key);
    }
  }

  ghost predicate RowOverflows(scopes: Scopes, rows: multiset<Row>, row: Row) {
    exists key, c :: RollsInto(scopes, row, key) && Total(scopes, rows, key, c) + Count(row.cell, c) > U64_MAX
  }

  /** A partial sum that does not fit means the whole does not. */
  lemma PartOverflows(scopes: Scopes, rows: seq<Row>, i: nat, row: Row)
    requires i < |rows| && row == rows[i] && RowOverflows(scopes, multiset(rows[..i]), row)
    ensures Overflows(scopes, multiset(rows))
  {
    var key, c :| RollsInto(scopes, row, key) && Total(scopes, multiset(rows[..i]), key, c) + Count(row.cell, c) > U64_MAX;
    TotalMore(scopes, multiset(rows[..i]), row, key, c);
    TakeSucc(rows, i);
    assert rows == rows[..i + 1] + rows[i + 1..];
    SumOfUnion(multiset(rows[..i + 1]), multiset(rows[i + 1..]), Share(scopes, key, c));
    assert Total(scopes, multiset(rows), key, c) > U64_MAX;
  }

  // ---- the fold ------------------------------------------------------------

  lemma NotAboveItself(scopes: Scopes, s: Id)
    requires IsForest(scopes)
    ensures !IsAncestor(scopes, s, s)
  {
    if s in scopes {
      GroundedAcyclic(scopes, s);
    } else {
      forall n: nat | n > 0 ensures Up(scopes, s, n) != Some(s) {
        assert Up(scopes, s, 0) == Some(s) && Up(scopes, s, 1).None?;
        UpEnded(scopes, s, 1, n);
      }
    }
  }

  method Targets(row: Row, topology: FabricTopology) returns (targets: seq<Id>)
    requires topology.Valid() && IsForest(topology.scopes)
    ensures Distinct(targets) && forall target :: target in targets <==> Above(topology.scopes, target, row.scope)
  {
    if row.scope == NIL {
      return [NIL];
    }
    var ancestors := topology.AncestorsOf(row.scope);
    NotAboveItself(topology.scopes, row.scope);
    targets := [row.scope] + ancestors;
    forall i, j | 0 <= i < j < |targets| ensures targets[i] != targets[j] {
      assert targets[j] == ancestors[j - 1];
      if i > 0 { assert targets[i] == ancestors[i - 1]; } else { assert ancestors[j - 1] in ancestors; }
    }
  }

  method RollRow(row: Row, topology: FabricTopology, before: map<RollupKey, AggregateCell>, ghost rows: multiset<Row>)
    returns (r: Result<map<RollupKey, AggregateCell>, ErrorCode>)
    requires topology.Valid() && IsForest(topology.scopes) && row.cell.kind == row.kind
    requires AreRolled(topology.scopes, rows, before)
    ensures r.Ok? ==> AreRolled(topology.scopes, rows + multiset{row}, r.value)
    ensures r.Err? ==> r.error == ArithmeticOverflow && RowOverflows(topology.scopes, rows, row)
  {
    var scopes := topology.scopes;
    var targets := Targets(row, topology);
    var rolled := before;
    ghost var done: set<Id> := {};
    RowBegun(scopes, rows, row, rolled);
    for i := 0 to |targets|
      invariant PartRolled(scopes, rows, row, done, rolled)
      invariant forall target :: target in done <==> target in targets[..i]
    {
      TakeSucc(targets, i);
      var key := KeyFor(targets[i], row);
      var cell := CellAt(rolled, key);
      MergeCounts(cell, row.cell);
      var merged := Merge(cell, row.cell);
      if merged.Err? {
        ghost var c: Counter :| Count(cell, c) + Count(row.cell, c) > U64_MAX;
        assert Count(cell, c) == Total(scopes, rows, key, c);
        assert RollsInto(scopes, row, key);
        return Err(merged.error);
      }
      TargetMerged(scopes, rows, row, done, targets[i], rolled, merged.value);
      rolled, done := rolled[key := merged.value], done + {targets[i]};
    }
    TakeAll(targets);
    RowDone(scopes, rows, row, done, rolled);
    return Ok(rolled);
  }

  lemma NothingRolled(scopes: Scopes)
    ensures AreRolled(scopes, multiset{}, map[])
  {
  }

  lemma RolledFits(scopes: Scopes, rows: multiset<Row>, rolled: map<RollupKey, AggregateCell>)
    requires AreRolled(scopes, rows, rolled)
    ensures !Overflows(scopes, rows)
  {
    forall key, c ensures Total(scopes, rows, key, c) <= U64_MAX {
      assert Count(CellAt(rolled, key), c) == Total(scopes, rows, key, c);
    }
  }

  /** Each rolled cell is the sum over its subtree; the fold fails exactly when one of those
      sums does not fit. */
  method RollRows(rows: seq<Row>, topology: FabricTopology) returns (r: Result<map<RollupKey, AggregateCell>, ErrorCode>)
    requires topology.Valid() && IsForest(topology.scopes) && forall row | row in rows :: row.cell.kind == row.kind
    ensures r.Err? <==> Overflows(topology.scopes, multiset(rows))
    ensures r.Err? ==> r.error == ArithmeticOverflow
    ensures r.Ok? ==> AreRolled(topology.scopes, multiset(rows), r.value)
  {
    var rolled := map[];
    NothingRolled(topology.scopes);
    for i := 0 to |rows|
      invariant AreRolled(topology.scopes, multiset(rows[..i]), rolled)
    {
      var next := RollRow(rows[i], topology, rolled, multiset(rows[..i]));
      if next.Err? {
        PartOverflows(topology.scopes, rows, i, rows[i]);
        return Err(next.error);
      }
      TakeSucc(rows, i);
      rolled := next.value;
    }
    TakeAll(rows);
    RolledFits(topology.scopes, multiset(rows), rolled);
    return Ok(rolled);
  }

  // ---- the listing ---------------------------------------------------------

  function KeyRank(key: RollupKey): seq<int> {
    [key.scope, key.generation, KindRank(key.kind), CategoryRank(key.category)]
  }

  function KeyOf(row: Row): RollupKey {
    RollupKey(row.scope, row.generation, row.kind, row.category)
  }

  function Listed(rolled: map<RollupKey, AggregateCell>): RollupKey -> Row {
    (key: RollupKey) => Row(key.scope, key.generation, key.kind, key.category, CellAt(rolled, key))
  }

  /** One row for each key, by key, cut off at the row limit. */
  method RollupRows(rows: seq<Row>, topology: FabricTopology) returns (r: Result<seq<Row>, ErrorCode>)
    requires topology.Valid() && IsForest(topology.scopes) && forall row | row in rows :: row.cell.kind == row.kind
    ensures r.Err? <==> Overflows(topology.scopes, multiset(rows))
    ensures r.Ok? ==> |r.value| <= MAX_RESULT_ROWS && Distinct(Mapped(r.value, KeyOf))
                      && SortedBy(Mapped(r.value, KeyOf), KeyRank)
    ensures r.Ok? ==> forall i, c | 0 <= i < |r.value| ::
              Count(r.value[i].cell, c) == Total(topology.scopes, multiset(rows), KeyOf(r.value[i]), c)
    ensures r.Ok? && |r.value| < MAX_RESULT_ROWS ==>
              forall row, key | row in rows && RollsInto(topology.scopes, row, key) :: key in Mapped(r.value, KeyOf)
  {
    var rolled := RollRows(rows, topology);
    if rolled.Err? {
      return Err(rolled.error);
    }
    var keys := Listing(rolled.value.Keys);
    keys := Sort(keys, KeyRank);
    ListingMembers(keys, rolled.value.Keys);
    var cut := if |keys| > MAX_RESULT_ROWS then keys[..MAX_RESULT_ROWS] else keys;
    var out := Mapped(cut, Listed(rolled.value));
    forall i | 0 <= i < |out| ensures KeyOf(out[i]) == cut[i] && out[i].cell == CellAt(rolled.value, cut[i]) {}
    assert Mapped(out, KeyOf) == cut;
    return Ok(out);
  }

  // ---- subtrees ------------------------------------------------------------

  function Children(scopes: Scopes, s: Id): set<Id> {
    set c | c in scopes && scopes[c].parent == Some(s)
  }

  /** Below a scope, every scope is below exactly one of its children. */
  lemma ChildTowards(scopes: Scopes, s: Id, d: Id) returns (child: Id)
    requires IsForest(scopes) && NIL !in scopes && IsAncestor(scopes, s, d)
    ensures child in Children(scopes, s) && Above(scopes, child, d)
    ensures forall other | other in Children(scopes, s) && Above(scopes, other, d) :: other == child
  {
    var n: nat :| n > 0 && Up(scopes, d, n) == Some(s);
    assert Up(scopes, d, n) == ParentOf(scopes, Up(scopes, d, n - 1).value);
    child := Up(scopes, d, n - 1).value;
    UpInside(scopes, d, n);
    assert Up(scopes, d, n - 1) == Some(child);
    forall other | other in Children(scopes, s) && Above(scopes, other, d) ensures other == child {
      var m: nat :| Up(scopes, d, m) == Some(other);
      assert Up(scopes, d, m + 1) == Some(s);
      NotAboveItself(scopes, s);
      if m + 1 < n {
        MetAgain(scopes, d, m + 1, n);
      } else if n < m + 1 {
        MetAgain(scopes, d, n, m + 1);
      }
    }
  }

  lemma UpInside(scopes: Scopes, d: Id, n: nat)
    requires n > 0 && Up(scopes, d, n).Some?
    ensures d in scopes
  {
    assert Up(scopes, d, 0) == Some(d) && Up(scopes, d, 1) == ParentOf(scopes, d);
    if d !in scopes {
      UpEnded(scopes, d, 1, n);
    }
  }

  function OwnShare(key: RollupKey, c: Counter): Row -> nat {
    (row: Row) => if KeyOf(row) == key then Count(row.cell, c) else 0
  }

  /** What a child's subtree brings to its parent's cell. */
  ghost function ChildTotal(scopes: Scopes, rows: multiset<Row>, key: RollupKey, c: Counter): Id -> nat {
    (child: Id) => Total(scopes, rows, key.(scope := child), c)
  }

  ghost function ChildShare(scopes: Scopes, row: Row, key: RollupKey, c: Counter): Id -> nat {
    (child: Id) => if RollsInto(scopes, row, key.(scope := child)) then Count(row.cell, c) else 0
  }

  /** One row reaches a scope's cell as its own or through exactly one child. */
  lemma ShareSplits(scopes: Scopes, row: Row, key: RollupKey, c: Counter)
    requires IsForest(scopes) && NIL !in scopes && key.scope != NIL
    ensures Share(scopes, key, c)(row)
         == OwnShare(key, c)(row) + SumOf(multiset(Children(scopes, key.scope)), ChildShare(scopes, row, key, c))
  {
    var children, share := multiset(Children(scopes, key.scope)), ChildShare(scopes, row, key, c);
    if Alike(key, row) && row.scope != NIL && IsAncestor(scopes, key.scope, row.scope) {
      NotAboveItself(scopes, key.scope);
      var child := ChildTowards(scopes, key.scope, row.scope);
      SumOfOne(children, child, share);
    } else {
      forall child | child in children ensures share(child) == 0 {
        if Alike(key, row) && Above(scopes, child, row.scope) {
          assert Up(scopes, child, 0) == Some(child) && Up(scopes, child, 1) == Some(key.scope);
          assert IsAncestor(scopes, key.scope, child);
          if child != row.scope {
            AncestorTransitive(scopes, key.scope, child, row.scope);
          }
        }
      }
      SumOfZero(children, share);
    }
  }

  /** A rolled cell is the scope's own rows plus the rolled cells of its children. */
  lemma {:induction false} SubtreeSplits(scopes: Scopes, rows: multiset<Row>, key: RollupKey, c: Counter)
    requires IsForest(scopes) && NIL !in scopes && key.scope != NIL
    ensures Total(scopes, rows, key, c)
         == SumOf(rows, OwnShare(key, c)) + SumOf(multiset(Children(scopes, key.scope)), ChildTotal(scopes, rows, key, c))
    decreases |rows|
  {
    var children := multiset(Children(scopes, key.scope));
    if rows == multiset{} {
      SumOfZero(children, ChildTotal(scopes, rows, key, c));
    } else {
      var row :| row in rows;
      var rest := rows - multiset{row};
      SubtreeSplits(scopes, rest, key, c);
      SumOfRemove(rows, row, Share(scopes, key, c));
      SumOfRemove(rows, row, OwnShare(key, c));
      ShareSplits(scopes, row, key, c);
      forall child | child in children
        ensures ChildTotal(scopes, rows, key, c)(child)
             == ChildTotal(scopes, rest, key, c)(child) + ChildShare(scopes, row, key, c)(child)
      {
        SumOfRemove(rows, row, Share(scopes, key.(scope := child), c));
      }
      SumOfPlus(children, ChildTotal(scopes, rest, key, c), ChildShare(scopes, row, key, c), ChildTotal(scopes, rows, key, c));
    }
  }
}
