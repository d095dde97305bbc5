/** Evidence nobody disputes is counted in full. */
module Undisputed {

  import opened Common
  import opened Fabric
  import opened Evidence
  import opened Folds
  import opened Dispute
  import opened Derivation
  import opened Claims
  import opened Conservation
  import opened Efficiency
  import opened Revision

  /** Every record is an admissible contribution, and each has a cell and window of its own. */
  ghost predicate IsUndisputed(ctx: Context, c: Records) {
    && (forall o | o in c :: IsAdmitted(ctx, c, o) && IsEntry(ctx.topology, o))
    && (forall o, p | o in c && p in c && o != p :: CellOf(ctx.topology)(o) != CellOf(ctx.topology)(p))
  }

  /** Undisputed evidence is counted in full: each record is one contribution, and nothing
      is rejected, suppressed, disagreed with or unknown. */
  lemma CountedInFull(ctx: Context, c: Records)
    requires IsUndisputed(ctx, c)
    ensures Contributions(ctx, c) == set o | o in c :: CountedAs(ctx, CellOf(ctx.topology)(o), o, false)
    ensures Unknowns(ctx, c) == {} && KeptTotals(ctx, c) == {} && !StrictlyConflicting(ctx, c)
  {
    EachCounted(ctx, c);
    NothingUnknown(ctx, c);
    NothingStrict(ctx, c);
  }

  lemma EachCounted(ctx: Context, c: Records)
    requires IsUndisputed(ctx, c)
    ensures Contributions(ctx, c) == set o | o in c :: CountedAs(ctx, CellOf(ctx.topology)(o), o, false)
  {
    var xs := Contributions(ctx, c);
    forall x ensures x in xs <==> exists o | o in c :: x == CountedAs(ctx, CellOf(ctx.topology)(o), o, false) {
      CountedOrNot(ctx, c, x, xs);
    }
  }

  lemma CountedOrNot(ctx: Context, c: Records, x: Contribution, xs: set<Contribution>)
    requires IsUndisputed(ctx, c) && xs == Contributions(ctx, c)
    ensures x in xs <==> exists o | o in c :: x == CountedAs(ctx, CellOf(ctx.topology)(o), o, false)
  {
    if x in xs {
      var o := RecordOf(ctx, c, x);
    }
    if o :| o in c && x == CountedAs(ctx, CellOf(ctx.topology)(o), o, false) {
      OneCounted(ctx, c, o, x);
    }
  }

  lemma OneCounted(ctx: Context, c: Records, o: Observation, x: Contribution)
    requires IsUndisputed(ctx, c) && o in c && x == CountedAs(ctx, CellOf(ctx.topology)(o), o, false)
    ensures x in Contributions(ctx, c)
  {
    CellOfOne(ctx, c, o);
  }

  lemma RecordOf(ctx: Context, c: Records, x: Contribution) returns (o: Observation)
    requires IsUndisputed(ctx, c) && x in Contributions(ctx, c)
    ensures o in c && x == CountedAs(ctx, CellOf(ctx.topology)(o), o, false)
  {
    var ck :| ck in CellKeys(ctx, c) && ContributionOf(ctx, c, ck) == Some(x);
    o :| o in Entries(ctx, c) && CellOf(ctx.topology)(o) == ck;
    CellOfOne(ctx, c, o);
  }

  lemma NothingUnknown(ctx: Context, c: Records)
    requires IsUndisputed(ctx, c)
    ensures Unknowns(ctx, c) == {} && KeptTotals(ctx, c) == {}
  {
    assert Rejections(ctx, c) == multiset{} by { NothingRejected(ctx, c); }
    assert TotalKeys(ctx, c) == {} by { assert Totals(ctx, c) == {}; }
    NoTotals(ctx, c);
  }

  lemma NoTotals(ctx: Context, c: Records)
    requires TotalKeys(ctx, c) == {}
    ensures Disagreements(ctx, c) == {} && KeptTotals(ctx, c) == {}
  {
  }

  lemma NothingStrict(ctx: Context, c: Records)
    requires IsUndisputed(ctx, c)
    ensures !StrictlyConflicting(ctx, c)
  {
    forall ck | ck in CellKeys(ctx, c) ensures |Amounts(Cell(ctx, c, ck))| == 1 {
      var o :| o in Entries(ctx, c) && CellOf(ctx.topology)(o) == ck;
      CellOfOne(ctx, c, o);
    }
  }

  lemma CellOfOne(ctx: Context, c: Records, o: Observation)
    requires IsUndisputed(ctx, c) && o in c
    ensures var ck := CellOf(ctx.topology)(o);
      && ck in CellKeys(ctx, c) && Cell(ctx, c, ck) == {o} && |Amounts(Cell(ctx, c, ck))| == 1
      && Chosen(ctx, Cell(ctx, c, ck)) == Some(o)
      && ContributionOf(ctx, c, ck) == Some(CountedAs(ctx, ck, o, false))
  {
    var ck := CellOf(ctx.topology)(o);
    assert o in Entries(ctx, c);
    assert Cell(ctx, c, ck) == {o};
    Single(ctx, o);
  }

  lemma Single(ctx: Context, o: Observation)
    ensures Amounts({o}) == {o.content.amount} && Chosen(ctx, {o}) == Some(o)
  {
    assert Amounts({o}) == {o.content.amount};
    var byAmount := ByAmountOf({o});
    assert byAmount.Keys == {o.content.amount};
    assert TheOne(byAmount.Keys) in byAmount.Keys;
    assert WithAmount({o}, o.content.amount) == {o};
    assert First({o}) == o;
  }

  lemma NothingRejected(ctx: Context, c: Records)
    requires IsUndisputed(ctx, c)
    ensures Rejections(ctx, c) == multiset{}
  {
    NothingExcluded(ctx, c);
    NothingRefused(ctx, c);
    NothingSuppressed(ctx, c);
  }

  lemma NothingExcluded(ctx: Context, c: Records)
    requires IsUndisputed(ctx, c)
    ensures ExclusionRejections(c) == multiset{}
  {
    forall o | o in c ensures c[o] == 1 && !Excluded(c, o) {
    }
    NoCollisions(c);
    NoOriginGroups(c);
    NoSequenceGroups(c);
  }

  lemma NoCollisions(c: Records)
    requires forall o | o in c :: c[o] == 1 && !Excluded(c, o)
    ensures CollisionsIn(c) == multiset{}
  {
    forall o, p | o in c && p in c && IdOf(o) == IdOf(p) ensures o == p {
      assert !Collides(c, o);
    }
    NoGroups<Id>(c, IdOf, CollisionsAt(c));
  }

  lemma NoOriginGroups(c: Records)
    requires forall o | o in c :: c[o] == 1 && !Excluded(c, o)
    ensures OriginGroupsIn(c) == multiset{}
  {
    NoneShares<Id>(c, OriginOf);
    NoGroups<Id>(c, OriginOf, OriginGroupAt(c));
  }

  lemma NoSequenceGroups(c: Records)
    requires forall o | o in c :: c[o] == 1 && !Excluded(c, o)
    ensures SequenceGroupsIn(c) == multiset{}
  {
    NoneShares(c, SequenceOf);
    NoGroups(c, SequenceOf, SequenceGroupAt(c));
  }

  lemma NoGroups<K>(c: Records, key: Observation -> K, f: K -> multiset<Rejection>)
    requires forall o, p | o in c && p in c && key(o) == key(p) :: o == p
    requires forall o | o in c :: c[o] == 1
    requires forall o | o in c && |Members(c, key, key(o))| <= 1 :: f(key(o)) == multiset{}
    ensures Gather(multiset(KeysOf(c, key)), f) == multiset{}
  {
    forall k | k in KeysOf(c, key) ensures f(k) == multiset{} {
      var o :| o in c && key(o) == k;
      AloneUnder(c, key, key(o));
    }
    GatherNone(multiset(KeysOf(c, key)), f);
  }

  lemma NothingRefused(ctx: Context, c: Records)
    requires IsUndisputed(ctx, c)
    ensures AdmissionRejections(ctx, c) == multiset{} && CorrelationRejections(ctx, c) == multiset{}
  {
    assert Refused(ctx, c) == {};
    assert Unattributable(ctx, c) == {};
  }

  lemma NothingSuppressed(ctx: Context, c: Records)
    requires IsUndisputed(ctx, c)
    ensures DisputeRejections(ctx, c) == multiset{}
  {
    forall ck | ck in CellKeys(ctx, c) ensures CellRejectionsAt(ctx, c)(ck) == multiset{} {
      var o :| o in Entries(ctx, c) && CellOf(ctx.topology)(o) == ck;
      CellOfOne(ctx, c, o);
      assert {o} - {o} == {};
    }
    GatherNone(multiset(CellKeys(ctx, c)), CellRejectionsAt(ctx, c));
  }

  /** A record that shares its key with no other is alone in its group. */
  lemma AloneUnder<K>(c: Records, key: Observation -> K, k: K)
    requires forall o, p | o in c && p in c && key(o) == key(p) :: o == p
    requires forall o | o in c :: c[o] == 1
    ensures |Members(c, key, k)| <= 1
  {
    var g := Members(c, key, k);
    if g != multiset{} {
      var o :| o in g;
      forall p ensures g[p] == multiset{o}[p] {
        if p in c && key(p) == k {
          assert p == o;
        }
      }
      assert g == multiset{o};
    }
  }

  /** Of two records that share a delivery identity one outranks the other. */
  lemma NoneShares<K>(c: Records, key: Observation -> K)
    requires forall o | o in c :: !Collides(c, o) && !Outranked(c, key, o)
    ensures forall o, p | o in c && p in c && key(o) == key(p) :: o == p
  {
    forall o, p | o in c && p in c && key(o) == key(p) ensures o == p {
      assert !Collides(c, o);
      assert o.content == p.content && p.id >= o.id && o.id >= p.id;
    }
  }
}
