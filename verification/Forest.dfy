/** The scope hierarchy: walking up, cycles, and ancestors. */
module Forest {

  import opened Common
  import opened Fabric
  import opened Folds
  import opened Ordering

  type Scopes = map<Id, Scope>

  function ParentOf(scopes: Scopes, s: Id): Option<Id> {
    if s in scopes then scopes[s].parent else None
  }

  /** The scope n steps up. */
  function Up(scopes: Scopes, s: Id, n: nat): Option<Id> {
    if n == 0 then Some(s)
    else match Up(scopes, s, n - 1)
      case None => None
      case Some(a) => ParentOf(scopes, a)
  }

  ghost predicate IsAncestor(scopes: Scopes, a: Id, d: Id) {
    exists n: nat :: n > 0 && Up(scopes, d, n) == Some(a)
  }

  ghost predicate OnCycle(scopes: Scopes, s: Id) {
    IsAncestor(scopes, s, s)
  }

  /** Walking up from s ends. */
  ghost predicate Grounded(scopes: Scopes, s: Id) {
    exists n: nat :: Up(scopes, s, n).None?
  }

  ghost predicate IsForest(scopes: Scopes) {
    forall s | s in scopes :: Grounded(scopes, s)
  }

  predicate ParentsDefined(scopes: Scopes) {
    forall s | s in scopes && scopes[s].parent.Some? :: scopes[s].parent.value in scopes
  }

  // ---- walking up ----------------------------------------------------------

  lemma {:induction false} UpAdd(scopes: Scopes, s: Id, m: nat, n: nat)
    requires Up(scopes, s, m).Some?
    ensures Up(scopes, s, m + n) == Up(scopes, Up(scopes, s, m).value, n)
  {
    if n > 0 {
      UpAdd(scopes, s, m, n - 1);
    }
  }

  lemma {:induction false} UpEnded(scopes: Scopes, s: Id, m: nat, n: nat)
    requires Up(scopes, s, m).None? && m <= n
    ensures Up(scopes, s, n).None?
    decreases n
  {
    if m < n {
      UpEnded(scopes, s, m, n - 1);
    }
  }

  lemma AncestorTransitive(scopes: Scopes, a: Id, b: Id, c: Id)
    requires IsAncestor(scopes, a, b) && IsAncestor(scopes, b, c)
    ensures IsAncestor(scopes, a, c)
  {
    var m: nat :| m > 0 && Up(scopes, b, m) == Some(a);
    var n: nat :| n > 0 && Up(scopes, c, n) == Some(b);
    UpAdd(scopes, c, n, m);
  }

  /** Going round a cycle any number of times. */
  lemma {:induction false} Around(scopes: Scopes, s: Id, n: nat, k: nat)
    requires Up(scopes, s, n) == Some(s)
    ensures Up(scopes, s, k * n) == Some(s)
  {
    if k > 0 {
      Around(scopes, s, n, k - 1);
      UpAdd(scopes, s, (k - 1) * n, n);
      assert k * n == (k - 1) * n + n;
    }
  }

  /** A walk that ends never meets itself. */
  lemma GroundedAcyclic(scopes: Scopes, s: Id)
    requires Grounded(scopes, s)
    ensures !OnCycle(scopes, s)
  {
    var m: nat :| Up(scopes, s, m).None?;
    forall n: nat | n > 0 ensures Up(scopes, s, n) != Some(s) {
      if Up(scopes, s, n) == Some(s) {
        Around(scopes, s, n, m);
        AtLeast(m, n);
        UpEnded(scopes, s, m, m * n);
        assert false;
      }
    }
  }

  lemma AtLeast(m: nat, n: nat)
    requires n > 0
    ensures m <= m * n
  {
    assert m * n == m + m * (n - 1);
  }

  /** Coming back to a scope already met closes a cycle. */
  lemma MetAgain(scopes: Scopes, s: Id, i: nat, j: nat)
    requires i < j && Up(scopes, s, i).Some? && Up(scopes, s, j) == Up(scopes, s, i)
    ensures OnCycle(scopes, Up(scopes, s, i).value)
  {
    UpAdd(scopes, s, i, j - i);
  }

  /** From there on the walk repeats. */
  lemma {:induction false} Repeats(scopes: Scopes, s: Id, i: nat, j: nat, n: nat) returns (k: nat)
    requires i < j && Up(scopes, s, i).Some? && Up(scopes, s, j) == Up(scopes, s, i) && n >= i
    ensures i <= k < j && Up(scopes, s, n) == Up(scopes, s, k)
    decreases n
  {
    if n < j {
      k := n;
    } else {
      UpAdd(scopes, s, j, n - j);
      UpAdd(scopes, s, i, n - j);
      k := Repeats(scopes, s, i, j, i + (n - j));
    }
  }

  // ---- sizes ---------------------------------------------------------------

  lemma SubsetSize<A>(a: set<A>, b: set<A>)
    requires a <= b
    ensures |a| <= |b|
    ensures |a| == |b| ==> a == b
  {
    assert b == a + (b - a);
    if |a| == |b| {
      assert |b - a| == 0;
    }
  }

  lemma DistinctFits(ids: seq<Id>, all: set<Id>)
    requires Distinct(ids) && forall id | id in ids :: id in all
    ensures |ids| <= |all|
    ensures |ids| == |all| ==> forall id | id in all :: id in ids
  {
    DistinctSet(ids);
    var s := set id | id in ids;
    assert |multiset(ids)| == |ids| && |multiset(s)| == |s|;
    SubsetSize(s, all);
  }
}
