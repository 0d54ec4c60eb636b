/** What the fold promises on every set of known primitives: `main` depends on the set alone,
    holds everything effective, verifies anywhere, and is recovered exactly from its frontier. */
module FoldLaws {
  import opened Prelude
  import opened Objects
  import opened Store
  import opened Dag
  import opened Trees
  import opened TreeCodec
  import opened Order
  import opened Touch
  import opened GhostAdds
  import opened Fold
  import opened Signing

  // ---- The frontier ----

  /** The frontier lists, in strict key order, exactly the effective primitives that no other
      effective one descends from; no member descends from another, and every effective primitive
      is a member or comes before one. */
  lemma FrontierIsMaximalAntichain(known: set<Oid>)
    ensures StrictlySorted(FrontierOf(known))
    ensures forall o :: o in FrontierOf(known) <==>
      o in Effective(known) && forall d :: d in Effective(known) ==> o !in Ancestors(d)
    ensures forall a, b :: a in FrontierOf(known) && b in FrontierOf(known) ==> a !in Ancestors(b)
    ensures forall o :: o in Effective(known) ==> exists tip :: tip in FrontierOf(known) && o in Lineage(tip)
  {
    hide GhostAdd, Ancestors, IsPrimitive, KeyOf, KeyLess, Effective, StrictlySorted;
    var f := FrontierOf(known);
    assert forall o :: o in f <==> o in Elements(f);
    assert forall o :: o in f <==> o in Maximal(Effective(known));
    forall o | o in Effective(known)
      ensures exists tip :: tip in f && o in Lineage(tip)
    {
      MaximalDominates(Effective(known), o);
      var m :| m in Maximal(Effective(known)) && o in Lineage(m);
      assert m in f;
    }
  }

  lemma FrontierMembers(known: set<Oid>)
    ensures forall o :: o in FrontierOf(known) ==> o in known && IsPrimitive(o) && !GhostAdd(o)
  {
    hide GhostAdd, Ancestors, IsPrimitive;
    assert forall o :: o in FrontierOf(known) ==> o in Elements(FrontierOf(known));
  }

  /** Folding the frontier again gives the same `main`: the frontier stands for the whole set. */
  lemma FrontierStandsForAll(known: set<Oid>)
    ensures FrontierOf(Elements(FrontierOf(known))) == FrontierOf(known)
    ensures MainOf(Elements(FrontierOf(known))) == MainOf(known)
  {
    hide GhostAdd, Ancestors;
    var f := Elements(FrontierOf(known));
    assert f == Maximal(Effective(known));
    assert Effective(f) == f;
    assert Maximal(f) == f;
  }

  /** `main` is unchanged by known commits the filter drops. */
  lemma MainIgnoresGhostAdds(known: set<Oid>, known': set<Oid>)
    requires Effective(known) == Effective(known')
    ensures MainOf(known) == MainOf(known')
  {
  }

  /** Two nodes, in whatever order they know the same primitives, with a store and a cache each or
      shared, and the caches filled by whatever other stores: the outcome is the same. */
  method TwoNodesAgree(storeA: MemStore, cachesA: Caches, knownA: seq<Oid>, storeB: MemStore, cachesB: Caches, knownB: seq<Oid>)
    returns (a: Result<Oid>, b: Result<Oid>)
    requires storeA.Valid() && Closed(storeA.objs) && cachesA.Valid()
    requires storeB.Valid() && Closed(storeB.objs) && cachesB.Valid()
    requires NoDuplicates(knownA) && NoDuplicates(knownB) && Elements(knownA) == Elements(knownB)
    requires forall o :: o in knownA ==> o in storeA.objs && o in storeB.objs
    modifies storeA, cachesA, storeB, cachesB
    ensures a.Ok? <==> b.Ok?
    ensures a.Ok? ==> a.value == b.value == MainOf(Elements(knownA))
  {
    hide MainOf, Foldable, FrontierOf;
    assert forall o :: o in knownB <==> o in Elements(knownB);
    assert Held(storeA.objs, knownA) == Elements(knownA);
    a := ComputeMain(storeA, cachesA, knownA);
    ExtendsIncludes(old(storeA.objs), storeA.objs);
    assert Held(storeB.objs, knownB) == Elements(knownB);
    b := ComputeMain(storeB, cachesB, knownB);
  }

  // ---- Fold commits below main ----

  lemma StepCommit(acc: Oid, tip: Oid)
    ensures var o := MergeStep(acc, tip);
      && IsCommit(o) && !IsPrimitive(o) && Parents(o) == [acc, tip]
      && TreeOf(o) == TreeId(StepFiles(acc, tip))
  {
    SyntheticAt(TreeId(StepFiles(acc, tip)), [acc, tip], MaxTime([acc, tip]), FOLD_MSG);
  }

  lemma WrapperCommit(tip: Oid)
    ensures var o := Wrapper(tip);
      IsCommit(o) && !IsPrimitive(o) && Parents(o) == [tip] && TreeOf(o) == TreeOf(tip)
  {
    SyntheticAt(TreeOf(tip), [tip], MaxTime([tip]), FOLD_MSG);
  }

  lemma GenesisCommit()
    ensures IsCommit(M0()) && !IsPrimitive(M0()) && Parents(M0()) == [] && Ancestors(M0()) == {}
    ensures TreeOf(M0()) == Sha(EMPTY_TREE) && FilesAt(M0()) == map[]
  {
    SyntheticAt(Sha(EMPTY_TREE), [], 0, GENESIS_MSG);
    PreimageOfSha(EMPTY_TREE);
    assert Paths(Sha(EMPTY_TREE)) == {};
  }

  ghost function PrimitivesBelow(o: Oid): set<Oid> {
    set p | p in Lineage(o) && IsPrimitive(p)
  }

  ghost function PrimitivesBelowAll(os: seq<Oid>): set<Oid> {
    set o, p | o in os && p in PrimitivesBelow(o) :: p
  }

  lemma LineageOfTwo(o: Oid, a: Oid, b: Oid)
    requires Parents(o) == [a, b]
    ensures Lineage(o) == {o} + Lineage(a) + Lineage(b)
  {
    assert a in Parents(o) && b in Parents(o);
  }

  lemma LineageOfOne(o: Oid, a: Oid)
    requires Parents(o) == [a]
    ensures Lineage(o) == {o} + Lineage(a)
  {
    assert a in Parents(o);
  }

  /** A left fold's history is that of everything it folded, plus synthetic commits. */
  lemma {:induction false} FoldFromBelow(acc: Oid, rest: seq<Oid>)
    ensures Lineage(acc) <= Lineage(FoldFrom(acc, rest))
    ensures forall o :: o in rest ==> Lineage(o) <= Ancestors(FoldFrom(acc, rest))
    ensures rest != [] ==> Lineage(acc) <= Ancestors(FoldFrom(acc, rest)) && !IsPrimitive(FoldFrom(acc, rest))
    ensures PrimitivesBelow(FoldFrom(acc, rest)) == PrimitivesBelow(acc) + PrimitivesBelowAll(rest)
    decreases |rest|
  {
    hide MergeStep, Ancestors, PrimitivesBelow;
    if rest == [] {
      assert PrimitivesBelowAll(rest) == {};
    } else {
      var next := MergeStep(acc, rest[0]);
      StepCommit(acc, rest[0]);
      LineageOfTwo(next, acc, rest[0]);
      StepPrimitives(next, acc, rest[0]);
      FoldFromBelow(next, rest[1..]);
      PrimitivesBelowSplit(rest);
      var top := FoldFrom(next, rest[1..]);
      ParentIsAncestor(next, acc);
      ParentIsAncestor(next, rest[0]);
      AncestorsOfLineage(next, top);
    }
  }

  lemma AncestorsOfLineage(a: Oid, b: Oid)
    requires Lineage(a) <= Lineage(b)
    ensures Ancestors(a) <= Ancestors(b)
  {
    forall x | x in Ancestors(a)
      ensures x in Ancestors(b)
    {
      assert a in Lineage(b);
      if a != b {
        AncestorTransitive(x, a, b);
      }
    }
  }

  lemma StepPrimitives(next: Oid, a: Oid, b: Oid)
    requires Lineage(next) == {next} + Lineage(a) + Lineage(b) && !IsPrimitive(next)
    ensures PrimitivesBelow(next) == PrimitivesBelow(a) + PrimitivesBelow(b)
  {
  }

  lemma PrimitivesBelowSplit(os: seq<Oid>)
    requires os != []
    ensures PrimitivesBelowAll(os) == PrimitivesBelow(os[0]) + PrimitivesBelowAll(os[1..])
  {
    assert os == [os[0]] + os[1..];
  }

  lemma FoldTipsBelow(f: seq<Oid>)
    ensures forall o :: o in f ==> Lineage(o) <= Ancestors(FoldTips(f))
    ensures PrimitivesBelow(FoldTips(f)) == PrimitivesBelowAll(f)
    ensures IsCommit(FoldTips(f)) || |f| > 1
    ensures !IsPrimitive(FoldTips(f))
  {
    hide MergeStep, Ancestors, Wrapper, M0;
    if f == [] {
      GenesisCommit();
      assert PrimitivesBelowAll(f) == {};
      assert Lineage(M0()) == {M0()};
    } else if |f| == 1 {
      WrapperCommit(f[0]);
      LineageOfOne(Wrapper(f[0]), f[0]);
      ParentIsAncestor(Wrapper(f[0]), f[0]);
      PrimitivesBelowSplit(f);
      assert PrimitivesBelowAll(f[1..]) == {};
    } else {
      FoldFromBelow(f[0], f[1..]);
      PrimitivesBelowSplit(f);
      assert f == [f[0]] + f[1..];
    }
  }

  /** Every effective known primitive is a proper ancestor of `main`. */
  lemma EffectiveBelowMain(known: set<Oid>, o: Oid)
    requires o in Effective(known)
    ensures o in Ancestors(MainOf(known))
  {
    hide FrontierOf, FoldTips, Ancestors, Effective, PrimitivesBelow, PrimitivesBelowAll;
    FrontierIsMaximalAntichain(known);
    var tip :| tip in FrontierOf(known) && o in Lineage(tip);
    FoldTipsBelow(FrontierOf(known));
  }

  /** The primitives in `main`'s history are those in the history of some frontier tip. */
  lemma MainPrimitives(known: set<Oid>)
    ensures PrimitivesBelow(MainOf(known)) == PrimitivesBelowAll(FrontierOf(known))
  {
    FoldTipsBelow(FrontierOf(known));
  }

  // ---- Verification accepts what the fold makes ----

  lemma {:induction false} FoldFromVerifies(acc: Oid, rest: seq<Oid>)
    requires FoldValid(acc) && FoldableFrom(acc, rest)
    requires forall o :: o in rest ==> IsPrimitive(o)
    ensures FoldValid(FoldFrom(acc, rest))
    decreases |rest|
  {
    if rest != [] {
      var next := MergeStep(acc, rest[0]);
      StepVerifies(acc, rest[0]);
      FoldFromVerifies(next, rest[1..]);
    }
  }

  lemma StepVerifies(acc: Oid, tip: Oid)
    requires FoldValid(acc) && IsPrimitive(tip) && Common(acc, tip) != {}
    ensures FoldValid(MergeStep(acc, tip))
  {
    hide MergeStep, Reproduces, Spine, IsPrimitive, Common;
    var next := MergeStep(acc, tip);
    StepCommit(acc, tip);
    SpineOfTwo(next, acc, tip);
    SpineOfPrimitive(tip);
    StepReproducesItself(acc, tip);
  }

  lemma SpineOfPrimitive(o: Oid)
    requires IsPrimitive(o)
    ensures Spine(o) == {o}
  {
  }

  lemma StepReproducesItself(acc: Oid, tip: Oid)
    requires Common(acc, tip) != {}
    ensures Reproduces(MergeStep(acc, tip))
    ensures IsPrimitive(tip) ==> Reproduces(tip)
  {
    StepCommit(acc, tip);
  }

  lemma SpineOfTwo(o: Oid, a: Oid, b: Oid)
    requires Parents(o) == [a, b] && !IsPrimitive(o)
    ensures Spine(o) == {o} + Spine(a) + Spine(b)
  {
    hide IsPrimitive, Parents;
    assert a in Parents(o) && b in Parents(o);
    forall c
      ensures c in Spine(o) <==> c == o || c in Spine(a) || c in Spine(b)
    {
    }
  }

  lemma PrimitiveVerifies(o: Oid)
    requires IsPrimitive(o)
    ensures FoldValid(o)
  {
  }

  /** Verification accepts every accumulator the fold passes through, and its result. */
  lemma AccumulatorsVerify(known: set<Oid>, k: nat)
    requires Foldable(FrontierOf(known)) && k <= |FrontierOf(known)|
    ensures Foldable(FrontierOf(known)[..k]) && FoldValid(FoldTips(FrontierOf(known)[..k]))
  {
    hide FrontierOf, MergeStep, IsPrimitive, GhostAdd;
    FrontierMembers(known);
    PrefixVerifies(FrontierOf(known), k);
  }

  lemma PrefixVerifies(f: seq<Oid>, k: nat)
    requires Foldable(f) && k <= |f| && forall o :: o in f ==> IsPrimitive(o)
    ensures Foldable(f[..k]) && FoldValid(FoldTips(f[..k]))
  {
    hide MergeStep, IsPrimitive, Wrapper, M0, FoldValid, FoldFrom, FoldableFrom;
    if k == 0 {
      GenesisVerifies();
    } else if k == 1 {
      assert f[..1] == [f[0]];
      WrapperVerifies(f[0]);
    } else {
      FoldablePrefix(f[0], f[1..], k - 1);
      assert f[..k][0] == f[0] && f[..k][1..] == f[1..][..k - 1];
      assert forall o :: o in f[1..][..k - 1] ==> o in f;
      PrimitiveVerifies(f[0]);
      FoldFromVerifies(f[0], f[1..][..k - 1]);
    }
  }

  lemma GenesisVerifies()
    ensures FoldValid(M0())
  {
    GenesisCommit();
    assert Spine(M0()) == {M0()};
  }

  lemma WrapperVerifies(tip: Oid)
    requires IsPrimitive(tip)
    ensures FoldValid(Wrapper(tip))
  {
    WrapperCommit(tip);
    assert Spine(tip) == {tip};
    assert Spine(Wrapper(tip)) == {Wrapper(tip), tip};
  }

  lemma {:induction false} FoldablePrefix(acc: Oid, rest: seq<Oid>, k: nat)
    requires FoldableFrom(acc, rest) && k <= |rest|
    ensures FoldableFrom(acc, rest[..k])
    decreases k
  {
    hide MergeStep, Common;
    if k > 0 {
      FoldablePrefix(MergeStep(acc, rest[0]), rest[1..], k - 1);
      assert rest[..k][1..] == rest[1..][..k - 1];
    }
  }

  lemma MainVerifies(known: set<Oid>)
    requires Foldable(FrontierOf(known))
    ensures FoldValid(MainOf(known))
  {
    var f := FrontierOf(known);
    AccumulatorsVerify(known, |f|);
    assert f[..|f|] == f;
  }

  // ---- Honest histories ----

  /** A commit as an honest node leaves it: a signed primitive with one parent, or the fold of
      its own parents. */
  ghost predicate SoundCommit(c: Oid) {
    IsCommit(c) &&
    if IsPrimitive(c) then |Parents(c)| == 1 && VerifyPrimitive(CommitAt(c).value) else Reproduces(c)
  }

  ghost predicate Sound(o: Oid) {
    forall c :: c in Lineage(o) ==> SoundCommit(c)
  }

  lemma SoundBelow(o: Oid, a: Oid)
    requires Sound(o) && a in Lineage(o)
    ensures Sound(a)
  {
    LineageNests(a, o);
  }

  /** Every honest history starts at the common root. */
  lemma {:induction false} SoundIsRooted(o: Oid)
    requires Sound(o)
    ensures M0() in Lineage(o)
    decreases Rank(o)
  {
    hide M0;
    assert o in Lineage(o) && SoundCommit(o);
    if Parents(o) != [] {
      var p := Parents(o)[0];
      ParentIsAncestor(o, p);
      assert p in Lineage(p);
      SoundBelow(o, p);
      SoundIsRooted(p);
      LineageNests(p, o);
    }
  }

  /** Any two honest histories meet, so their merge base exists. */
  lemma SoundHaveBase(a: Oid, b: Oid)
    requires Sound(a) && Sound(b)
    ensures M0() in Common(a, b) && MergeBase(a, b) in Common(a, b)
  {
    SoundIsRooted(a);
    SoundIsRooted(b);
    MergeBaseIsLeastMaximal(a, b);
  }

  lemma GenesisIsSound()
    ensures Sound(M0())
  {
    GenesisCommit();
    assert Lineage(M0()) == {M0()};
  }

  lemma StepIsSound(acc: Oid, tip: Oid)
    requires Sound(acc) && Sound(tip)
    ensures Common(acc, tip) != {} && Sound(MergeStep(acc, tip))
  {
    hide M0, SoundCommit;
    SoundHaveBase(acc, tip);
    StepCommit(acc, tip);
    LineageOfTwo(MergeStep(acc, tip), acc, tip);
    StepReproduces(acc, tip);
  }

  lemma StepReproduces(acc: Oid, tip: Oid)
    requires Common(acc, tip) != {}
    ensures SoundCommit(MergeStep(acc, tip))
  {
    StepCommit(acc, tip);
  }

  lemma WrapperIsSound(tip: Oid)
    requires Sound(tip)
    ensures Sound(Wrapper(tip))
  {
    WrapperCommit(tip);
    LineageOfOne(Wrapper(tip), tip);
  }

  lemma {:induction false} FoldFromIsSound(acc: Oid, rest: seq<Oid>)
    requires Sound(acc) && forall o :: o in rest ==> Sound(o)
    ensures FoldableFrom(acc, rest) && Sound(FoldFrom(acc, rest))
    decreases |rest|
  {
    hide Sound;
    if rest != [] {
      StepIsSound(acc, rest[0]);
      FoldFromIsSound(MergeStep(acc, rest[0]), rest[1..]);
    }
  }

  /** Over honest primitives the fold always succeeds, its result is honest, every step's merge
      base exists, and any node that holds it accepts it. */
  lemma MainIsSound(known: set<Oid>)
    requires forall o :: o in known ==> Sound(o)
    ensures Foldable(FrontierOf(known)) && Sound(MainOf(known)) && FoldValid(MainOf(known))
  {
    hide Sound;
    var f := FrontierOf(known);
    FrontierMembers(known);
    if f == [] {
      GenesisIsSound();
    } else if |f| == 1 {
      WrapperIsSound(f[0]);
    } else {
      assert f[0] in f && forall o :: o in f[1..] ==> o in f;
      FoldFromIsSound(f[0], f[1..]);
    }
    MainVerifies(known);
  }

  /** The engine may fold any honest commit it is sent. */
  lemma SoundVerifies(o: Oid)
    requires Sound(o)
    ensures FoldValid(o)
  {
    SpineWithinLineage(o);
    forall c | c in Spine(o)
      ensures Reproduces(c)
    {
      assert SoundCommit(c);
    }
  }
}
