/** How a copy delivered again shows in the counts of a derivation. */
module Redelivery {

  import opened Common
  import opened Fabric
  import opened Evidence
  import opened Folds
  import opened Derivation
  import opened DerivationTheorems
  import opened Refusals

  /** e is o again under a higher identity that no record has, and nothing of o's origin or
      sequence has another content. */
  ghost predicate Repeats(c: Records, o: Observation, e: Observation) {
    && o in c && e.content == o.content && o.id < e.id && (forall p | p in c :: p.id != e.id)
    && AllAlike<Id>(c, OriginOf, o) && AllAlike(c, SequenceOf, o)
  }

  lemma RepeatsRedeliver(c: Records, o: Observation, e: Observation)
    requires Repeats(c, o, e)
    ensures Redelivers(c, multiset{e})
  {
  }

  // ---- one group more ------------------------------------------------------

  lemma {:induction false} GatherMore<A, B>(m: multiset<A>, k: A, f: A -> multiset<B>, g: A -> multiset<B>, x: multiset<B>)
    requires m[k] == 1 && g(k) == f(k) + x && forall a | a in m && a != k :: g(a) == f(a)
    ensures Gather(m, g) == Gather(m, f) + x
  {
    GatherRemove(m, k, f);
    GatherRemove(m, k, g);
    GatherSame(m - multiset{k}, f, g);
  }

  lemma {:induction false} GatherSame<A, B>(m: multiset<A>, f: A -> multiset<B>, g: A -> multiset<B>)
    requires forall a | a in m :: f(a) == g(a)
    ensures Gather(m, f) == Gather(m, g)
    decreases |m|
  {
    if m != multiset{} {
      var a :| a in m;
      GatherRemove(m, a, f);
      GatherRemove(m, a, g);
      GatherSame(m - multiset{a}, f, g);
    }
  }

  lemma GroupOneMore(g: Records, h: Records, divergent: Cause, o: Observation, e: Observation)
    requires o in g && Identical(g) && e.content == o.content && o.id < e.id && h == g + multiset{e}
    ensures GroupRejections(h, divergent) == GroupRejections(g, divergent) + multiset{Reject(e, DuplicateDelivery)}
  {
    StaysIdentical(g, h, o, e);
    GatherAdd(g, e, RejectAs(DuplicateDelivery));
    SameFront(g, h, o, e);
    var x := Reject(Front(g), DuplicateDelivery);
    if |g| <= 1 {
      OneInGroup(g, o);
      GatherOne(o, RejectAs(DuplicateDelivery));
      assert multiset{Reject(o, DuplicateDelivery)} + multiset{Reject(e, DuplicateDelivery)} - multiset{x}
          == multiset{Reject(e, DuplicateDelivery)};
    } else {
      GatherHas(g, Front(g), RejectAs(DuplicateDelivery), x);
      TakenLater(Gather(g, RejectAs(DuplicateDelivery)), x, Reject(e, DuplicateDelivery));
    }
  }

  lemma TakenLater(m: multiset<Rejection>, x: Rejection, y: Rejection)
    requires x in m
    ensures m + multiset{y} - multiset{x} == m - multiset{x} + multiset{y}
  {
  }

  lemma GatherOne<A, B>(a: A, f: A -> multiset<B>)
    ensures Gather(multiset{a}, f) == f(a)
  {
    GatherRemove(multiset{a}, a, f);
    assert multiset{a} - multiset{a} == multiset{};
  }

  lemma OneInGroup(g: Records, o: Observation)
    requires o in g && |g| <= 1
    ensures g == multiset{o}
  {
    var rest := g - multiset{o};
    assert g == rest + multiset{o};
    assert |rest| == |g| - 1;
  }

  lemma StaysIdentical(g: Records, h: Records, o: Observation, e: Observation)
    requires o in g && Identical(g) && e.content == o.content && h == g + multiset{e}
    ensures Identical(h) && |h| == |g| + 1 && |g| >= 1
  {
    assert forall p :: p in h <==> p in g || p == e;
    assert |g - multiset{o}| >= 0 && g == (g - multiset{o}) + multiset{o};
  }

  lemma SameFront(g: Records, h: Records, o: Observation, e: Observation)
    requires o in g && Identical(g) && e.content == o.content && o.id < e.id && h == g + multiset{e}
    ensures Reject(Front(h), DuplicateDelivery) == Reject(Front(g), DuplicateDelivery)
  {
    assert forall p :: p in h <==> p in g || p == e;
    var a, b := Front(g), Front(h);
    assert a in h && o in h && b.id <= o.id;
    assert b in g;
  }

  /** Every group but the copy's own stays, and that one has one duplicate more. */
  lemma GroupsOneMore<K>(
    c: Records, key: Observation -> K, divergent: Cause, f: K -> multiset<Rejection>, g: K -> multiset<Rejection>,
    o: Observation, e: Observation)
    requires o in c && AllAlike(c, key, o) && e.content == o.content && o.id < e.id && key(e) == key(o)
    requires forall k | k in KeysOf(c, key) :: f(k) == GroupRejections(Members(c, key, k), divergent)
    requires forall k | k in KeysOf(c, key) :: g(k) == GroupRejections(Members(c + multiset{e}, key, k), divergent)
    ensures Gather(multiset(KeysOf(c + multiset{e}, key)), g)
         == Gather(multiset(KeysOf(c, key)), f) + multiset{Reject(e, DuplicateDelivery)}
  {
    SameKeys(c, key, o, e);
    forall k | k in KeysOf(c, key) && k != key(o) ensures g(k) == f(k) {
      OtherGroup(c, key, k, e);
    }
    OwnGroup(c, key, divergent, o, e);
    GatherMore(multiset(KeysOf(c, key)), key(o), f, g, multiset{Reject(e, DuplicateDelivery)});
  }

  lemma OtherGroup<K>(c: Records, key: Observation -> K, k: K, e: Observation)
    requires key(e) != k
    ensures Members(c + multiset{e}, key, k) == Members(c, key, k)
  {
  }

  lemma OwnGroup<K>(c: Records, key: Observation -> K, divergent: Cause, o: Observation, e: Observation)
    requires o in c && AllAlike(c, key, o) && e.content == o.content && o.id < e.id && key(e) == key(o)
    ensures GroupRejections(Members(c + multiset{e}, key, key(o)), divergent)
         == GroupRejections(Members(c, key, key(o)), divergent) + multiset{Reject(e, DuplicateDelivery)}
  {
    AlikeIdentical(c, key, o);
    OneMoreMember(c, key, e);
    GroupOneMore(Members(c, key, key(o)), Members(c + multiset{e}, key, key(o)), divergent, o, e);
  }

  lemma AlikeIdentical<K>(c: Records, key: Observation -> K, o: Observation)
    requires o in c && AllAlike(c, key, o)
    ensures o in Members(c, key, key(o)) && Identical(Members(c, key, key(o)))
  {
    var g := Members(c, key, key(o));
    assert forall p | p in g :: p in c && key(p) == key(o);
  }

  lemma OneMoreMember<K>(c: Records, key: Observation -> K, e: Observation)
    ensures Members(c + multiset{e}, key, key(e)) == Members(c, key, key(e)) + multiset{e}
  {
  }

  lemma SameKeys<K>(c: Records, key: Observation -> K, o: Observation, e: Observation)
    requires o in c && key(e) == key(o)
    ensures KeysOf(c + multiset{e}, key) == KeysOf(c, key) && key(o) in KeysOf(c, key)
  {
    assert forall p :: p in c + multiset{e} <==> p in c || p == e;
  }

  lemma GatherFresh<A, B>(keys: set<A>, k: A, f: A -> multiset<B>, g: A -> multiset<B>)
    requires k !in keys && g(k) == multiset{} && forall a | a in keys :: g(a) == f(a)
    ensures Gather(multiset(keys + {k}), g) == Gather(multiset(keys), f)
  {
    GatherInsert(keys, k, g);
    GatherSame(multiset(keys), g, f);
  }

  lemma FreshKey(c: Records, e: Observation)
    requires forall p | p in c :: p.id != e.id
    ensures KeysOf<Id>(c + multiset{e}, IdOf) == KeysOf<Id>(c, IdOf) + {e.id} && e.id !in KeysOf<Id>(c, IdOf)
  {
    assert forall p :: p in c + multiset{e} <==> p in c || p == e;
  }

  lemma FreshGroup(c: Records, e: Observation)
    requires forall p | p in c :: p.id != e.id
    ensures CollisionsAt(c + multiset{e})(e.id) == multiset{}
  {
    assert Members<Id>(c + multiset{e}, IdOf, e.id) == multiset{e};
  }

  lemma OldGroup(c: Records, e: Observation, k: Id)
    requires k != e.id
    ensures CollisionsAt(c + multiset{e})(k) == CollisionsAt(c)(k)
  {
    OtherGroup<Id>(c, IdOf, k, e);
  }

  lemma CollisionsStay(c: Records, e: Observation)
    requires forall p | p in c :: p.id != e.id
    ensures CollisionsIn(c + multiset{e}) == CollisionsIn(c)
  {
    FreshKey(c, e);
    FreshGroup(c, e);
    forall k: Id | k in KeysOf<Id>(c, IdOf) ensures CollisionsAt(c + multiset{e})(k) == CollisionsAt(c)(k) {
      OldGroup(c, e, k);
    }
    GatherFresh<Id, Rejection>(KeysOf<Id>(c, IdOf), e.id, CollisionsAt(c), CollisionsAt(c + multiset{e}));
  }

  lemma RefusedSame(ctx: Context, c: Records, o: Observation, e: Observation, p: Observation)
    requires Repeats(c, o, e)
    ensures p in Refused(ctx, c + multiset{e}) <==> p in Refused(ctx, c)
    ensures p in c ==> RefusalOf(ctx, c + multiset{e})(p) == RefusalOf(ctx, c)(p)
  {
    RepeatsRedeliver(c, o, e);
    if p in c + multiset{e} {
      RedeliveredExclusion(c, multiset{e}, p);
    }
    if p in c {
      RedeliveredPeak(c, multiset{e}, p);
    }
  }

  lemma RefusedStay(ctx: Context, c: Records, o: Observation, e: Observation)
    requires Repeats(c, o, e)
    ensures AdmissionRejections(ctx, c + multiset{e}) == AdmissionRejections(ctx, c)
  {
    forall p
      ensures p in Refused(ctx, c + multiset{e}) <==> p in Refused(ctx, c)
      ensures p in c ==> RefusalOf(ctx, c + multiset{e})(p) == RefusalOf(ctx, c)(p)
    {
      RefusedSame(ctx, c, o, e, p);
    }
    SameGathered(Refused(ctx, c), Refused(ctx, c + multiset{e}), c, RefusalOf(ctx, c), RefusalOf(ctx, c + multiset{e}));
  }

  lemma SameGathered(
    a: set<Observation>, b: set<Observation>, c: Records, f: Observation -> multiset<Rejection>, g: Observation -> multiset<Rejection>)
    requires (forall p :: p in b <==> p in a) && (forall p | p in a :: p in c) && forall p | p in c :: g(p) == f(p)
    ensures Gather(multiset(b), g) == Gather(multiset(a), f)
  {
    assert a == b;
    GatherSame(multiset(a), g, f);
  }

  lemma SettledStay(ctx: Context, c: Records, d: Records)
    requires Admitted(ctx, c) == Admitted(ctx, d)
    ensures CorrelationRejections(ctx, d) == CorrelationRejections(ctx, c)
    ensures DisputeRejections(ctx, d) == DisputeRejections(ctx, c)
  {
    assert Unattributable(ctx, c) == Unattributable(ctx, d);
    assert Entries(ctx, c) == Entries(ctx, d);
    assert CellKeys(ctx, c) == CellKeys(ctx, d);
    forall ck ensures CellRejectionsAt(ctx, c)(ck) == CellRejectionsAt(ctx, d)(ck) {
      assert Cell(ctx, c, ck) == Cell(ctx, d, ck);
    }
    GatherSame(multiset(CellKeys(ctx, c)), CellRejectionsAt(ctx, c), CellRejectionsAt(ctx, d));
  }

  lemma ExclusionsMore(c: Records, o: Observation, e: Observation, r: Rejection)
    requires Repeats(c, o, e) && r == Reject(e, DuplicateDelivery)
    ensures ExclusionRejections(c + multiset{e}) == ExclusionRejections(c) + multiset{r, r}
  {
    var d := c + multiset{e};
    CollisionsStay(c, e);
    GroupsOneMore<Id>(c, OriginOf, DivergentOrigin, OriginGroupAt(c), OriginGroupAt(d), o, e);
    GroupsOneMore(c, SequenceOf, DivergentSequence, SequenceGroupAt(c), SequenceGroupAt(d), o, e);
    TwoMore(CollisionsIn(c), OriginGroupsIn(c), SequenceGroupsIn(c), r);
  }

  lemma TwoMore(a: multiset<Rejection>, b: multiset<Rejection>, c: multiset<Rejection>, r: Rejection)
    ensures a + (b + multiset{r}) + (c + multiset{r}) == (a + b + c) + multiset{r, r}
  {
  }

  lemma SumMore(
    x: multiset<Rejection>, y: multiset<Rejection>, a: multiset<Rejection>, b: multiset<Rejection>, c: multiset<Rejection>, r: Rejection)
    requires y == x + multiset{r, r}
    ensures y + a + b + c == (x + a + b + c) + multiset{r, r}
  {
  }

  lemma LaterStay(ctx: Context, c: Records, o: Observation, e: Observation)
    requires Repeats(c, o, e)
    ensures AdmissionRejections(ctx, c + multiset{e}) == AdmissionRejections(ctx, c)
    ensures CorrelationRejections(ctx, c + multiset{e}) == CorrelationRejections(ctx, c)
    ensures DisputeRejections(ctx, c + multiset{e}) == DisputeRejections(ctx, c)
  {
    RepeatsRedeliver(c, o, e);
    RedeliveryInvariance(ctx, c, multiset{e});
    RefusedStay(ctx, c, o, e);
    SettledStay(ctx, c, c + multiset{e});
  }

  /** A copy delivered again adds two rejections of itself, one for its origin and one for its
      sequence, and no other. */
  lemma CopyRejectedTwice(ctx: Context, c: Records, o: Observation, e: Observation)
    requires Repeats(c, o, e)
    ensures Rejections(ctx, c + multiset{e})
         == Rejections(ctx, c) + multiset{Reject(e, DuplicateDelivery), Reject(e, DuplicateDelivery)}
  {
    var d, r := c + multiset{e}, Reject(e, DuplicateDelivery);
    assert ExclusionRejections(d) == ExclusionRejections(c) + multiset{r, r} by { ExclusionsMore(c, o, e, r); }
    LaterStay(ctx, c, o, e);
    SumMore(ExclusionRejections(c), ExclusionRejections(d), AdmissionRejections(ctx, c), CorrelationRejections(ctx, c),
            DisputeRejections(ctx, c), r);
  }

  /** So one copy counts as two suppressed duplicates, and as one record considered. */
  lemma CopyCountsTwice(ctx: Context, c: Records, o: Observation, e: Observation, d: Derived, d': Derived)
    requires Repeats(c, o, e) && IsDerivation(ctx, c, d) && IsDerivation(ctx, c + multiset{e}, d')
    ensures d'.duplicateSuppressed == d.duplicateSuppressed + 2 && d'.considered == d.considered + 1
    ensures d'.contributions == d.contributions && d'.admitted == d.admitted
  {
    var r := Reject(e, DuplicateDelivery);
    RepeatsRedeliver(c, o, e);
    RedeliveryInvariance(ctx, c, multiset{e});
    CopyRejectedTwice(ctx, c, o, e);
    SuppressedTwice(d.rejected, d'.rejected, Rejections(ctx, c), r);
    SameContributions(ctx, c, d.contributions, d'.contributions);
  }

  lemma SuppressedTwice(s: seq<Rejection>, t: seq<Rejection>, m: multiset<Rejection>, r: Rejection)
    requires multiset(s) == m && multiset(t) == m + multiset{r, r} && r.cause == DuplicateDelivery
    ensures Suppressions(t) == Suppressions(s) + 2
  {
    SuppressionsOf(s);
    SuppressionsOf(t);
    SumOfAdd(m, r, SuppressionWeight);
    SumOfAdd(m + multiset{r}, r, SuppressionWeight);
    assert m + multiset{r} + multiset{r} == m + multiset{r, r};
  }
}
