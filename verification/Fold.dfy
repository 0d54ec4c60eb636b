/** The deterministic fold (fold.rs): the frontier of the known primitives is folded left, in the
    strict total order, into synthetic commits any node can reproduce. */
module Fold {
  import opened Prelude
  import opened Objects
  import opened Store
  import opened Dag
  import opened Trees
  import opened TreeCodec
  import opened Merge
  import opened Order
  import opened Touch
  import opened GhostAdds

  // ---- Synthetic commits ----

  const GENESIS_MSG := Text("csp: genesis\n")
  const FOLD_MSG := Text("csp: fold\n")

  function Synthetic(tree: Oid, parents: seq<Oid>, time: nat, message: Message): GitObject {
    Commit(CommitObj(tree, parents, FoldAuthor, time, FoldAuthor, time, message))
  }

  const EMPTY_TREE := GitObject.Tree(map[], map[])

  function Genesis(): GitObject {
    Synthetic(Sha(EMPTY_TREE), [], 0, GENESIS_MSG)
  }

  /** The id of the root every history starts from. */
  function M0(): Oid {
    Sha(Genesis())
  }

  ghost function TimeOf(o: Oid): nat {
    match CommitAt(o)
    case Some(c) => c.committerTime
    case None => 0
  }

  ghost function MaxTime(ps: seq<Oid>): nat {
    if ps == [] then 0
    else
      var t := MaxTime(ps[..|ps| - 1]);
      if t < TimeOf(ps[|ps| - 1]) then TimeOf(ps[|ps| - 1]) else t
  }

  /** The fold commit over a tree and parents: nothing in it depends on who makes it. */
  ghost function FoldCommit(tree: Oid, parents: seq<Oid>): GitObject {
    Synthetic(tree, parents, MaxTime(parents), FOLD_MSG)
  }

  ghost function FilesAt(o: Oid): Files {
    Contents(TreeOf(o))
  }

  /** The fold of a single tip: its own tree, wrapped. */
  ghost function Wrapper(tip: Oid): Oid {
    Sha(FoldCommit(TreeOf(tip), [tip]))
  }

  ghost function StepFiles(acc: Oid, tip: Oid): Files {
    MergedTrees(FilesAt(MergeBase(acc, tip)), FilesAt(acc), FilesAt(tip))
  }

  /** One step of the fold: merge the next tip into the accumulator. */
  ghost function MergeStep(acc: Oid, tip: Oid): Oid {
    Sha(FoldCommit(TreeId(StepFiles(acc, tip)), [acc, tip]))
  }

  ghost function FoldFrom(acc: Oid, rest: seq<Oid>): Oid
    decreases |rest|
  {
    if rest == [] then acc else FoldFrom(MergeStep(acc, rest[0]), rest[1..])
  }

  ghost function FoldTips(f: seq<Oid>): Oid {
    if f == [] then M0() else if |f| == 1 then Wrapper(f[0]) else FoldFrom(f[0], f[1..])
  }

  // ---- The specification of main ----

  /** The known primitives that are not ghost-adds. */
  ghost function Effective(known: set<Oid>): set<Oid> {
    set o | o in known && IsPrimitive(o) && !GhostAdd(o)
  }

  /** The effective primitives no other effective one descends from, in the strict order. */
  ghost function FrontierOf(known: set<Oid>): seq<Oid> {
    Sorted(Maximal(Effective(known)))
  }

  /** `main` as a function of the set of known primitives, and of nothing else. */
  ghost function MainOf(known: set<Oid>): Oid {
    FoldTips(FrontierOf(known))
  }

  /** Every merge step finds a common ancestor. */
  ghost predicate FoldableFrom(acc: Oid, rest: seq<Oid>)
    decreases |rest|
  {
    rest == [] || (Common(acc, rest[0]) != {} && FoldableFrom(MergeStep(acc, rest[0]), rest[1..]))
  }

  ghost predicate Foldable(f: seq<Oid>) {
    |f| > 1 ==> FoldableFrom(f[0], f[1..])
  }

  lemma FrontierIsKnown(known: set<Oid>)
    ensures StrictlySorted(FrontierOf(known))
    ensures forall o :: o in FrontierOf(known) ==> o in known
  {
    hide GhostAdd, Ancestors, KeyOf, KeyLess, IsPrimitive;
    assert forall o :: o in FrontierOf(known) ==> o in Elements(FrontierOf(known));
  }

  lemma SyntheticAt(tree: Oid, parents: seq<Oid>, time: nat, message: Message)
    requires message.Text?
    ensures var o := Sha(Synthetic(tree, parents, time, message));
      IsCommit(o) && !IsPrimitive(o) && Parents(o) == parents && TreeOf(o) == tree && TimeOf(o) == time
  {
    PreimageOfSha(Synthetic(tree, parents, time, message));
  }

  // ---- Making fold commits ----

  method MakeFoldCommit(store: MemStore, tree: Oid, parents: seq<Oid>) returns (r: Result<Oid>)
    requires store.Valid()
    modifies store
    ensures store.Valid() && Extends(old(store.objs), store.objs)
    ensures r.Ok? <==> forall p :: p in parents ==> HasCommit(old(store.objs), p)
    ensures r.Ok? ==> r.value == Sha(FoldCommit(tree, parents)) && HasCommit(store.objs, r.value)
    ensures Closed(old(store.objs)) && HasTree(old(store.objs), tree) ==> Closed(store.objs)
  {
    var t :- LatestTime(store, parents);
    var obj := Synthetic(tree, parents, t, FOLD_MSG);
    if Closed(store.objs) && HasTree(store.objs, tree) {
      InsertKeepsClosed(store.objs, obj);
    }
    var o := store.Put(obj);
    return Ok(o);
  }

  method LatestTime(store: MemStore, parents: seq<Oid>) returns (r: Result<nat>)
    requires store.Valid()
    ensures r.Ok? <==> forall p :: p in parents ==> HasCommit(store.objs, p)
    ensures r.Ok? ==> r.value == MaxTime(parents)
  {
    var t := 0;
    var i := 0;
    while i < |parents|
      invariant 0 <= i <= |parents|
      invariant t == MaxTime(parents[..i])
      invariant forall p :: p in parents[..i] ==> HasCommit(store.objs, p)
    {
      var c :- store.LoadCommit(parents[i]);
      assert parents[..i + 1] == parents[..i] + [parents[i]];
      if t < c.committerTime {
        t := c.committerTime;
      }
      i := i + 1;
    }
    assert parents[..i] == parents;
    return Ok(t);
  }

  method MakeGenesis(store: MemStore) returns (o: Oid)
    requires store.Valid()
    modifies store
    ensures Grown(old(store.objs), store.objs)
    ensures o == M0() && HasCommit(store.objs, o)
    ensures store.objs == old(store.objs)[Sha(EMPTY_TREE) := EMPTY_TREE][o := Genesis()]
  {
    var tree := store.PutHeld(EMPTY_TREE);
    ghost var before := store.objs;
    o := store.PutHeld(Synthetic(tree, [], 0, GENESIS_MSG));
    GrownTransitive(old(store.objs), before, store.objs);
  }

  method ThinWrapper(store: MemStore, tip: Oid) returns (r: Result<Oid>)
    requires store.Valid()
    modifies store
    ensures Grown(old(store.objs), store.objs)
    ensures r.Ok? <==> HasCommit(old(store.objs), tip)
    ensures r.Ok? ==> r.value == Wrapper(tip) && HasCommit(store.objs, r.value)
  {
    var c :- store.LoadCommit(tip);
    if Closed(store.objs) {
      ClosedCommit(store.objs, tip);
    }
    r := MakeFoldCommit(store, c.tree, [tip]);
  }

  /** The store holds what merging `tip` into `acc` takes: both histories, and the three trees. */
  ghost predicate StepHeld(m: ObjectMap, acc: Oid, tip: Oid) {
    && Walkable(m, acc) && Walkable(m, tip) && Readable(m, TreeOf(acc)) && Readable(m, TreeOf(tip))
    && (Common(acc, tip) != {} ==> Readable(m, TreeOf(MergeBase(acc, tip))))
  }

  lemma ClosedHoldsStep(m: ObjectMap, acc: Oid, tip: Oid)
    requires Addressed(m) && Closed(m) && HasCommit(m, acc) && HasCommit(m, tip)
    ensures StepHeld(m, acc, tip)
  {
    ClosedIsWalkable(m, acc);
    ClosedIsWalkable(m, tip);
    ClosedCommit(m, acc);
    ClosedCommit(m, tip);
    ClosedIsReadable(m, TreeOf(acc));
    ClosedIsReadable(m, TreeOf(tip));
    if Common(acc, tip) != {} {
      MergeBaseIsLeastMaximal(acc, tip);
      ClosedCommit(m, MergeBase(acc, tip));
      ClosedIsReadable(m, TreeOf(MergeBase(acc, tip)));
    }
  }

  /** Merge `tip` into `acc`, and persist the result. */
  method FoldStep(store: MemStore, acc: Oid, tip: Oid) returns (r: Result<Oid>)
    requires store.Valid()
    modifies store
    ensures Grown(old(store.objs), store.objs)
    ensures r.Ok? <==> Common(acc, tip) != {} && StepHeld(old(store.objs), acc, tip)
    ensures r.Ok? ==> r.value == MergeStep(acc, tip) && HasCommit(store.objs, r.value)
    ensures r.Err? && StepHeld(old(store.objs), acc, tip) ==> r.error == FoldVerify
  {
    hide Closed, Extends, MergeBase, Ancestors, Readable, TreeId, MaxTime, MergedTrees;
    ExtendsItself(store.objs);
    ghost var first := store.objs;
    var base :- MergeBaseOf(store, acc, tip);
    MergeBaseIsLeastMaximal(acc, tip);
    assert Walkable(first, acc) && acc in Lineage(acc) && tip in Lineage(tip) && base in Lineage(acc);
    var baseFiles :- FilesOfCommit(store, base);
    var ours :- FilesOfCommit(store, acc);
    var theirs :- FilesOfCommit(store, tip);
    var merged := MergeTrees(baseFiles, ours, theirs);
    var root := WriteTreeFromFiles(store, merged);
    ghost var before := store.objs;
    KeepsCommits(first, before, [acc, tip]);
    r := MakeFoldCommit(store, root, [acc, tip]);
    GrownTransitive(first, before, store.objs);
  }

  method FilesOfCommit(store: MemStore, o: Oid) returns (r: Result<Files>)
    requires store.Valid()
    ensures r.Ok? <==> HasCommit(store.objs, o) && Readable(store.objs, TreeOf(o))
    ensures r.Ok? ==> r.value == FilesAt(o)
  {
    var c :- store.LoadCommit(o);
    r := ReadTreeToFiles(store, c.tree);
  }

  lemma ClosedHoldsFiles(m: ObjectMap, o: Oid)
    requires Addressed(m) && Closed(m) && HasCommit(m, o)
    ensures Readable(m, TreeOf(o))
  {
    ClosedCommit(m, o);
    ClosedIsReadable(m, TreeOf(o));
  }

  // ---- Frontier ----

  /** The primitives among `known` that the store holds. */
  method PrimitivesOf(store: MemStore, known: seq<Oid>) returns (prims: seq<Oid>, ghost kept: seq<bool>)
    requires store.Valid()
    ensures |kept| == |known| && prims == Select(known, kept)
    ensures forall i :: 0 <= i < |known| ==> kept[i] == (known[i] in store.objs && IsPrimitive(known[i]))
  {
    hide Addressed, IsPrimitive, Primitive;
    prims, kept := [], [];
    var i := 0;
    while i < |known|
      invariant 0 <= i <= |known| && |kept| == i
      invariant prims == Select(known[..i], kept)
      invariant forall j :: 0 <= j < i ==> kept[j] == (known[j] in store.objs && IsPrimitive(known[j]))
    {
      var loaded := store.LoadCommit(known[i]);
      var keep := loaded.Ok? && Primitive(loaded.value);
      LoadsPrimitive(store.objs, known[i]);
      if keep {
        prims := prims + [known[i]];
      }
      assert known[..i + 1][..i] == known[..i] && (kept + [keep])[..i] == kept;
      kept := kept + [keep];
      i := i + 1;
    }
    assert known[..i] == known;
  }

  lemma LoadsPrimitive(m: ObjectMap, o: Oid)
    requires Addressed(m)
    ensures o in m && IsPrimitive(o) <==> HasCommit(m, o) && Primitive(m[o].commit)
  {
    if o in m {
      AddressedPreimage(m, o);
    }
  }

  /** Drop every commit that another one descends from. */
  method Undominated(prims: seq<Oid>, ancOf: map<Oid, set<Oid>>) returns (f: seq<Oid>)
    requires ancOf.Keys == Elements(prims) && forall q :: q in prims ==> ancOf[q] == Ancestors(q)
    ensures Elements(f) == Maximal(Elements(prims)) && (NoDuplicates(prims) ==> NoDuplicates(f))
  {
    hide Ancestors;
    var dominated: set<Oid> := {};
    var i := 0;
    while i < |prims|
      invariant 0 <= i <= |prims|
      invariant dominated == set p | p in prims && exists j :: 0 <= j < i && p in Ancestors(prims[j])
    {
      var q := prims[i];
      var more: set<Oid> := {};
      var k := 0;
      while k < |prims|
        invariant 0 <= k <= |prims|
        invariant more == set p | p in prims[..k] && p in Ancestors(q)
      {
        var p := prims[k];
        assert prims[..k + 1] == prims[..k] + [p];
        if p != q && p in ancOf[q] {
          more := more + {p};
        } else if p == q && p in Ancestors(q) {
          AncestorRank(q, p);
          assert false;
        }
        k := k + 1;
      }
      assert prims[..k] == prims;
      dominated := dominated + more;
      i := i + 1;
    }
    f := [];
    i := 0;
    while i < |prims|
      invariant 0 <= i <= |prims|
      invariant NoDuplicates(prims) ==> NoDuplicates(f)
      invariant forall o :: o in f <==> o in prims[..i] && o !in dominated
    {
      assert prims[..i + 1] == prims[..i] + [prims[i]];
      if prims[i] !in dominated {
        f := f + [prims[i]];
      }
      i := i + 1;
    }
    assert prims[..i] == prims;
    forall o
      ensures o in Elements(f) <==> o in Maximal(Elements(prims))
    {
      assert forall j :: 0 <= j < |prims| ==> prims[j] in Elements(prims);
    }
  }

  /** Commits with their keys, ascending. */
  ghost predicate Keyed(keyed: seq<(OrderKey, Oid)>) {
    && (forall j :: 0 <= j < |keyed| ==> keyed[j].0 == KeyOf(keyed[j].1))
    && (forall j, k :: 0 <= j < k < |keyed| ==> !KeyLess(keyed[k].0, keyed[j].0))
  }

  function Seconds(keyed: seq<(OrderKey, Oid)>): (s: seq<Oid>)
    ensures |s| == |keyed| && forall j :: 0 <= j < |s| ==> s[j] == keyed[j].1
  {
    seq(|keyed|, j requires 0 <= j < |keyed| => keyed[j].1)
  }

  /** Ascending by key: the same commits, each as often as before. */
  method SortByKey(store: MemStore, f: seq<Oid>) returns (sorted: seq<Oid>)
    requires store.Valid()
    requires forall o :: o in f ==> HasCommit(store.objs, o) && IsPrimitive(o)
    ensures Ascending(sorted) && multiset(sorted) == multiset(f)
  {
    hide KeyOf, KeyLess;
    var keyed: seq<(OrderKey, Oid)> := [];
    var i := 0;
    while i < |f|
      invariant 0 <= i <= |f|
      invariant Keyed(keyed) && multiset(Seconds(keyed)) == multiset(f[..i])
    {
      var c := store.LoadCommit(f[i]);
      var key := OrderKey(c.value.message.counter, c.value.message.node, f[i]);
      KeyIs(f[i], c.value);
      assert f[..i + 1] == f[..i] + [f[i]];
      keyed := InsertKeyed(keyed, key, f[i]);
      i := i + 1;
    }
    assert f[..i] == f;
    sorted := Seconds(keyed);
  }

  lemma KeyIs(o: Oid, c: CommitObj)
    requires CommitAt(o) == Some(c) && Primitive(c)
    ensures KeyOf(o) == OrderKey(c.message.counter, c.message.node, o)
  {
  }

  /** Put an entry where it belongs in an ascending list. */
  method InsertKeyed(keyed: seq<(OrderKey, Oid)>, key: OrderKey, o: Oid) returns (keyed': seq<(OrderKey, Oid)>)
    requires key == KeyOf(o) && Keyed(keyed)
    ensures Keyed(keyed') && multiset(Seconds(keyed')) == multiset(Seconds(keyed)) + multiset{o}
  {
    hide KeyOf, KeyLess;
    var at := |keyed|;
    while at > 0 && KeyLess(key, keyed[at - 1].0)
      invariant 0 <= at <= |keyed|
      invariant forall j :: at <= j < |keyed| ==> KeyLess(key, keyed[j].0)
    {
      at := at - 1;
    }
    forall j | 0 <= j < at
      ensures !KeyLess(key, keyed[j].0)
    {
      if j < at - 1 && KeyLess(key, keyed[j].0) {
        KeyTotal(keyed[at - 1].0, keyed[j].0);
        if keyed[j].0 != keyed[at - 1].0 {
          KeyTransitive(key, keyed[j].0, keyed[at - 1].0);
        }
        assert false;
      }
    }
    keyed' := keyed[..at] + [(key, o)] + keyed[at..];
    InsertedKeyed(keyed, at, key, o);
    InsertedSeconds(keyed, at, key, o);
  }

  lemma InsertedKeyed(keyed: seq<(OrderKey, Oid)>, at: nat, key: OrderKey, o: Oid)
    requires Keyed(keyed) && at <= |keyed| && key == KeyOf(o)
    requires forall j :: 0 <= j < at ==> !KeyLess(key, keyed[j].0)
    requires forall j :: at <= j < |keyed| ==> KeyLess(key, keyed[j].0)
    ensures Keyed(keyed[..at] + [(key, o)] + keyed[at..])
  {
    hide KeyOf, KeyLess;
    var k' := keyed[..at] + [(key, o)] + keyed[at..];
    assert forall j :: 0 <= j < |k'| ==> k'[j] == if j < at then keyed[j] else if j == at then (key, o) else keyed[j - 1];
    forall j | at <= j < |keyed|
      ensures !KeyLess(keyed[j].0, key)
    {
      KeyTotal(key, keyed[j].0);
    }
  }

  lemma InsertedSeconds(keyed: seq<(OrderKey, Oid)>, at: nat, key: OrderKey, o: Oid)
    requires at <= |keyed|
    ensures multiset(Seconds(keyed[..at] + [(key, o)] + keyed[at..])) == multiset(Seconds(keyed)) + multiset{o}
  {
    var s := Seconds(keyed);
    assert Seconds(keyed[..at] + [(key, o)] + keyed[at..]) == s[..at] + [o] + s[at..];
    assert s == s[..at] + s[at..];
  }

  /** The members of `known` the store holds. */
  ghost function Held(m: ObjectMap, known: seq<Oid>): set<Oid> {
    set o | o in known && o in m
  }

  /** The held primitives that the memoised check, on the store as it is, does not tell to be
      ghost-adds. */
  ghost function EffectiveOn(order: EntryOrder, m: ObjectMap, memo: Memo, known: set<Oid>): set<Oid> {
    set o | o in known && o in m && IsPrimitive(o) && Recalled(order, m, memo, o) != Some(true)
  }

  ghost function FrontierOn(order: EntryOrder, m: ObjectMap, memo: Memo, known: set<Oid>): seq<Oid> {
    Sorted(Maximal(EffectiveOn(order, m, memo, known)))
  }

  /** On a store without dangling references every answer is there, and is the true one, whatever
      stores filled the cache. */
  lemma ClosedTellsAll(order: EntryOrder, m: ObjectMap, memo: Memo, known: seq<Oid>)
    requires Addressed(m) && Closed(m) && True(memo)
    ensures EffectiveOn(order, m, memo, Elements(known)) == Effective(Held(m, known))
    ensures forall o :: o in m ==> Recalled(order, m, memo, o).Some?
  {
    hide Recalled, True, GhostAdd, Closed, Addressed, IsPrimitive;
    forall o | o in m
      ensures Recalled(order, m, memo, o) == Some(GhostAdd(o))
    {
      ClosedHoldsGhost(m, o);
      RecalledIsTrue(order, m, memo, o);
    }
  }

  /** Something on the way to the root of a commit to be folded is missing. */
  ghost predicate Cut(order: EntryOrder, m: ObjectMap, memo: Memo, known: set<Oid>) {
    exists o :: o in EffectiveOn(order, m, memo, known) && !Walkable(m, o)
  }

  /** On any store, any list and any cache: the maximal ones of the primitives that were not told to
      be ghost-adds, ascending, if and only if the history of none of them is cut off. Without
      repeats, and on a store without dangling references, it is there, and is the frontier of what
      is held of the set. */
  method Frontier(store: MemStore, caches: Caches, known: seq<Oid>) returns (r: Result<seq<Oid>>)
    requires store.Valid() && caches.Valid()
    modifies caches
    ensures caches.Valid()
    ensures r.Ok? ==> Ascending(r.value) && Elements(r.value) == Maximal(EffectiveOn(store.order, store.objs, old(caches.View()), Elements(known)))
    ensures r.Ok? && NoDuplicates(known) ==> r.value == FrontierOn(store.order, store.objs, old(caches.View()), Elements(known))
    ensures r.Ok? <==> !Cut(store.order, store.objs, old(caches.View()), Elements(known))
    ensures Closed(store.objs) ==> r.Ok? && (NoDuplicates(known) ==> r.value == FrontierOf(Held(store.objs, known)))
  {
    hide Recalled, True, GhostAdd, Closed, Ancestors, Ascending, Maximal;
    ghost var memo := caches.View();
    if Closed(store.objs) {
      ClosedTellsAll(store.order, store.objs, memo, known);
      ClosedIsUncut(store.order, store.objs, memo, Elements(known));
    }
    var effective, kept :- FilterKnown(store, caches, known);
    var prims, primFlags := PrimitivesOf(store, effective);
    PrimsAreEffective(store.order, store.objs, memo, known, kept, effective, primFlags, prims);
    var ancOf :- AncestorsOfEach(store, Elements(prims));
    var f := Undominated(prims, ancOf);
    FromPrims(store.objs, prims, f);
    var sorted := SortByKey(store, f);
    SortedFrontier(sorted, f);
    return Ok(sorted);
  }

  /** `EffectiveKnown`, with its error passed on. */
  method FilterKnown(store: MemStore, caches: Caches, known: seq<Oid>) returns (r: Result<seq<Oid>>, ghost kept: seq<bool>)
    requires store.Valid() && caches.Valid()
    modifies caches
    ensures caches.Valid()
    ensures r.Ok? ==> |kept| == |known| && r.value == Select(known, kept)
    ensures r.Ok? ==> forall i :: 0 <= i < |known| ==> kept[i] == (Recalled(store.order, store.objs, old(caches.View()), known[i]) != Some(true))
    ensures r.Err? ==> Cut(store.order, store.objs, old(caches.View()), Elements(known))
  {
    hide Verdict, GhostAdd, Walkable;
    ghost var memo := caches.View();
    r, kept := caches.EffectiveKnown(store, known);
    if r.Err? {
      ghost var o :| o in known && o in store.objs && Recalled(store.order, store.objs, memo, o) == None && !Walkable(store.objs, o);
      UntoldIsPrimitive(store.order, store.objs, memo.touch.Keys, o);
      assert o in EffectiveOn(store.order, store.objs, memo, Elements(known));
    }
  }

  lemma UntoldIsPrimitive(order: EntryOrder, m: ObjectMap, have: set<(Oid, Path)>, o: Oid)
    requires o in m && Verdict(order, m, have, o) == None
    ensures IsPrimitive(o)
  {
  }

  lemma ClosedIsUncut(order: EntryOrder, m: ObjectMap, memo: Memo, known: set<Oid>)
    requires Addressed(m) && Closed(m)
    ensures !Cut(order, m, memo, known)
  {
    hide Addressed, Closed, Recalled, Walkable;
    forall o | o in EffectiveOn(order, m, memo, known)
      ensures Walkable(m, o)
    {
      AddressedPreimage(m, o);
      ClosedIsWalkable(m, o);
    }
  }

  lemma FromPrims(m: ObjectMap, prims: seq<Oid>, f: seq<Oid>)
    requires Addressed(m) && (forall o :: o in prims ==> o in m && IsPrimitive(o)) && Elements(f) == Maximal(Elements(prims))
    ensures forall o :: o in f ==> HasCommit(m, o) && IsPrimitive(o)
  {
    hide Ancestors;
    forall o | o in f
      ensures HasCommit(m, o) && IsPrimitive(o)
    {
      assert o in Elements(f) && o in Elements(prims);
      AddressedPreimage(m, o);
    }
  }

  lemma SortedFrontier(sorted: seq<Oid>, f: seq<Oid>)
    requires Ascending(sorted) && multiset(sorted) == multiset(f)
    ensures Elements(sorted) == Elements(f) && (NoDuplicates(f) ==> sorted == Sorted(Elements(f)))
  {
    hide Ascending, Sorted;
    forall o
      ensures o in sorted <==> o in f
    {
      assert o in sorted <==> o in multiset(sorted);
      assert o in f <==> o in multiset(f);
    }
    if NoDuplicates(f) {
      CountsDetermine(f, sorted);
      AscendingIsSorted(sorted);
    }
  }

  lemma CountsDetermine(f: seq<Oid>, s: seq<Oid>)
    requires NoDuplicates(f) && multiset(s) == multiset(f)
    ensures NoDuplicates(s)
  {
    forall i, j | 0 <= i < j < |s|
      ensures s[i] != s[j]
    {
      if s[i] == s[j] {
        TwiceCounts(s, i, j);
        OnceCounts(f, s[i]);
        assert false;
      }
    }
  }

  lemma TwiceCounts(s: seq<Oid>, i: nat, j: nat)
    requires i < j < |s| && s[i] == s[j]
    ensures multiset(s)[s[i]] >= 2
  {
    assert s == s[..j] + [s[j]] + s[j + 1..];
    assert s[..j][i] == s[i] && s[i] in multiset(s[..j]);
  }

  lemma {:induction false} OnceCounts(f: seq<Oid>, o: Oid)
    requires NoDuplicates(f)
    ensures multiset(f)[o] <= 1
  {
    if f != [] {
      var n := |f| - 1;
      assert f == f[..n] + [f[n]];
      OnceCounts(f[..n], o);
      if f[n] == o {
        assert o !in f[..n];
        assert o !in multiset(f[..n]);
      }
    }
  }

  lemma PrimsAreEffective(order: EntryOrder, m: ObjectMap, memo: Memo, known: seq<Oid>, kept: seq<bool>,
      effective: seq<Oid>, primFlags: seq<bool>, prims: seq<Oid>)
    requires |kept| == |known| && effective == Select(known, kept)
    requires forall i :: 0 <= i < |known| ==> kept[i] == (Recalled(order, m, memo, known[i]) != Some(true))
    requires |primFlags| == |effective| && prims == Select(effective, primFlags)
    requires forall i :: 0 <= i < |effective| ==> primFlags[i] == (effective[i] in m && IsPrimitive(effective[i]))
    ensures Elements(prims) == EffectiveOn(order, m, memo, Elements(known))
    ensures forall o :: o in prims ==> o in m && IsPrimitive(o)
    ensures NoDuplicates(known) ==> NoDuplicates(prims)
  {
    hide Recalled, IsPrimitive;
    if NoDuplicates(known) {
      SelectNoDuplicates(known, kept);
      SelectNoDuplicates(effective, primFlags);
    }
    forall o
      ensures o in prims <==> o in EffectiveOn(order, m, memo, Elements(known))
    {
      SelectHas(known, kept, o);
      SelectHas(effective, primFlags, o);
    }
  }

  // ---- main ----

  /** On any store and with any cache: a result is the fold of the frontier as the two show it. For
      any list without repeats and any store that holds its history, there is one exactly when every
      step finds a common ancestor, and it is `MainOf` of the set: neither the order of the list nor
      the store nor the cache matters. */
  method ComputeMain(store: MemStore, caches: Caches, known: seq<Oid>) returns (r: Result<Oid>)
    requires store.Valid() && caches.Valid()
    modifies store, caches
    ensures Grown(old(store.objs), store.objs)
    ensures caches.Valid()
    ensures r.Ok? && NoDuplicates(known) ==> r.value == FoldTips(FrontierOn(store.order, old(store.objs), old(caches.View()), Elements(known)))
    ensures old(Cut(store.order, store.objs, caches.View(), Elements(known))) ==> r.Err? && store.objs == old(store.objs)
    ensures old(Closed(store.objs)) && NoDuplicates(known) ==>
      && (r.Ok? <==> Foldable(FrontierOf(old(Held(store.objs, known)))))
      && (r.Ok? ==> r.value == MainOf(old(Held(store.objs, known))))
    ensures r.Ok? ==> HasCommit(store.objs, r.value)
  {
    hide Recalled, True, GhostAdd, Closed, Addressed, Extends, Ascending, FoldTips, Foldable, FrontierOf, FrontierOn;
    hide Maximal, Cut;
    ghost var memo := caches.View();
    ExtendsItself(store.objs);
    var f :- Frontier(store, caches, known);
    TipsAreHeld(store.order, store.objs, memo, known, f);
    r := FoldFrontier(store, f);
  }

  lemma TipsAreHeld(order: EntryOrder, m: ObjectMap, memo: Memo, known: seq<Oid>, f: seq<Oid>)
    requires Addressed(m) && Elements(f) == Maximal(EffectiveOn(order, m, memo, Elements(known)))
    ensures forall o :: o in f ==> HasCommit(m, o)
  {
    hide Recalled, Ancestors;
    forall o | o in f
      ensures HasCommit(m, o)
    {
      assert o in Elements(f);
      AddressedPreimage(m, o);
    }
  }

  /** On any store, a result is the fold of the tips; without dangling references there is one
      exactly when every step finds a common ancestor. */
  method FoldFrontier(store: MemStore, f: seq<Oid>) returns (r: Result<Oid>)
    requires store.Valid()
    modifies store
    ensures Grown(old(store.objs), store.objs)
    ensures r.Ok? ==> Foldable(f) && r.value == FoldTips(f) && HasCommit(store.objs, r.value)
    ensures old(Closed(store.objs)) && (forall o :: o in f ==> old(HasCommit(store.objs, o))) ==> (r.Ok? <==> Foldable(f))
  {
    hide Closed, Addressed, Extends, HasCommit, MergeStep, Wrapper, Common, StepHeld;
    if |f| == 0 {
      var g := MakeGenesis(store);
      return Ok(g);
    }
    if |f| == 1 {
      r := ThinWrapper(store, f[0]);
      return;
    }
    ghost var whole := Closed(store.objs) && forall o :: o in f ==> HasCommit(store.objs, o);
    var acc := f[0];
    var i := 1;
    ExtendsItself(store.objs);
    while i < |f|
      invariant 1 <= i <= |f|
      invariant Grown(old(store.objs), store.objs)
      invariant whole ==> Closed(store.objs) && HasCommit(store.objs, acc) && forall o :: o in f ==> HasCommit(store.objs, o)
      invariant i > 1 ==> HasCommit(store.objs, acc)
      invariant FoldableFrom(acc, f[i..]) <==> Foldable(f)
      invariant FoldFrom(acc, f[i..]) == FoldTips(f)
    {
      ghost var before := store.objs;
      assert f[i..][0] == f[i] && f[i..][1..] == f[i + 1..];
      if whole {
        ClosedHoldsStep(store.objs, acc, f[i]);
      }
      var step := FoldStep(store, acc, f[i]);
      GrownTransitive(old(store.objs), before, store.objs);
      acc :- step;
      if whole {
        KeepsCommits(before, store.objs, f);
      }
      i := i + 1;
    }
    return Ok(acc);
  }

  lemma KeepsCommits(m: ObjectMap, m': ObjectMap, f: seq<Oid>)
    requires Extends(m, m') && forall o :: o in f ==> HasCommit(m, o)
    ensures forall o :: o in f ==> HasCommit(m', o)
  {
  }

  // ---- Recompute-verification ----

  /** A commit is what re-running the fold on its own parents gives; primitives are exempt. */
  ghost predicate Reproduces(o: Oid) {
    IsPrimitive(o) ||
    var ps := Parents(o);
    if |ps| == 0 then o == M0()
    else if |ps| == 1 then o == Wrapper(ps[0])
    else |ps| == 2 && Common(ps[0], ps[1]) != {} && o == MergeStep(ps[0], ps[1])
  }

  /** What is reached from `o` without going past a primitive. */
  ghost function Spine(o: Oid): set<Oid>
    decreases Rank(o)
  {
    {o} + if IsPrimitive(o) then {} else set p, c | p in Parents(o) && c in Spine(p) :: c
  }

  ghost predicate FoldValid(o: Oid) {
    forall c :: c in Spine(o) ==> Reproduces(c)
  }

  /** Visited commits with everything below them, down to primitives, visited too. */
  ghost predicate SpineClosed(seen: set<Oid>) {
    forall c, p :: c in seen && !IsPrimitive(c) && p in Parents(c) ==> p in seen
  }

  lemma {:induction false} SpineWithin(o: Oid, seen: set<Oid>)
    requires o in seen && SpineClosed(seen)
    ensures Spine(o) <= seen
    decreases Rank(o)
  {
    if !IsPrimitive(o) {
      forall p | p in Parents(o)
        ensures Spine(p) <= seen
      {
        SpineWithin(p, seen);
      }
    }
  }

  /** Everything newly visited reproduces, and nothing below it was left out. */
  ghost predicate Checked(seen: set<Oid>, seen': set<Oid>) {
    forall c :: c in seen' - seen ==> Reproduces(c) && (IsPrimitive(c) || forall p :: p in Parents(c) ==> p in seen')
  }

  lemma CheckedNothing(seen: set<Oid>)
    ensures Checked(seen, seen)
  {
  }

  lemma CheckedMore(a: set<Oid>, b: set<Oid>, c: set<Oid>)
    requires Checked(a, b) && Checked(b, c) && b <= c
    ensures Checked(a, c)
  {
  }

  lemma SpineOfParents(o: Oid)
    requires !IsPrimitive(o)
    ensures forall p :: p in Parents(o) ==> Spine(p) <= Spine(o)
  {
  }

  lemma {:induction false} SpineWithinLineage(o: Oid)
    ensures Spine(o) <= Lineage(o)
    decreases Rank(o)
  {
    if !IsPrimitive(o) {
      forall c | c in Spine(o) && c != o
        ensures c in Lineage(o)
      {
        var p :| p in Parents(o) && c in Spine(p);
        SpineWithinLineage(p);
        ParentIsAncestor(o, p);
      }
    }
  }

  /** The store holds what re-running the fold on everything on a commit's spine takes. */
  ghost predicate SpineHeld(m: ObjectMap, o: Oid) {
    forall c :: c in Spine(o) ==> StepsHeld(m, c)
  }

  ghost predicate StepsHeld(m: ObjectMap, c: Oid) {
    HasCommit(m, c) && (!IsPrimitive(c) && |Parents(c)| == 2 ==> StepHeld(m, Parents(c)[0], Parents(c)[1]))
  }

  lemma ClosedHoldsSpine(m: ObjectMap, o: Oid)
    requires Addressed(m) && Closed(m) && HasCommit(m, o)
    ensures SpineHeld(m, o)
  {
    hide Addressed, Closed, Ancestors, StepHeld;
    SpineWithinLineage(o);
    ClosedIsWalkable(m, o);
    forall c | c in Spine(o)
      ensures StepsHeld(m, c)
    {
      if |Parents(c)| == 2 {
        ClosedCommit(m, c);
        ClosedHoldsStep(m, Parents(c)[0], Parents(c)[1]);
      }
    }
  }

  lemma SpineHeldGrows(m: ObjectMap, m': ObjectMap, o: Oid)
    requires Includes(m, m') && SpineHeld(m, o)
    ensures SpineHeld(m', o)
  {
    hide StepHeld, Spine;
    forall c | c in Spine(o)
      ensures StepsHeld(m', c)
    {
      if |Parents(c)| == 2 && StepHeld(m, Parents(c)[0], Parents(c)[1]) {
        StepHeldGrows(m, m', Parents(c)[0], Parents(c)[1]);
      }
    }
  }

  lemma StepHeldGrows(m: ObjectMap, m': ObjectMap, acc: Oid, tip: Oid)
    requires Includes(m, m') && StepHeld(m, acc, tip)
    ensures StepHeld(m', acc, tip)
  {
    hide MergeBase, Ancestors;
    ReadableGrows(m, m', TreeOf(acc));
    ReadableGrows(m, m', TreeOf(tip));
    if Common(acc, tip) != {} {
      ReadableGrows(m, m', TreeOf(MergeBase(acc, tip)));
    }
  }

  lemma SpineHeldBelow(m: ObjectMap, o: Oid)
    requires SpineHeld(m, o) && !IsPrimitive(o)
    ensures StepsHeld(m, o) && forall p :: p in Parents(o) ==> SpineHeld(m, p) && HasCommit(m, p)
  {
    hide StepHeld;
    SpineOfParents(o);
    assert o in Spine(o);
    forall p | p in Parents(o)
      ensures SpineHeld(m, p) && HasCommit(m, p)
    {
      assert p in Spine(p);
      assert StepsHeld(m, p);
    }
  }

  /** On any store, a commit that is accepted is valid, and where all that its spine takes is there,
      exactly the valid ones are. Without dangling references that is the case for every held commit. */
  method VerifyFoldCommit(store: MemStore, o: Oid) returns (r: Result<()>)
    requires store.Valid()
    modifies store
    ensures Grown(old(store.objs), store.objs)
    ensures r.Ok? ==> old(HasCommit(store.objs, o)) && FoldValid(o)
    ensures old(SpineHeld(store.objs, o)) ==> (r.Ok? <==> FoldValid(o)) && (r.Err? ==> r.error == FoldVerify)
    ensures old(Closed(store.objs)) ==> (r.Ok? <==> old(HasCommit(store.objs, o)) && FoldValid(o))
    ensures old(Closed(store.objs)) && r.Err? ==>
      r.error == if old(HasCommit(store.objs, o)) then FoldVerify else if o in old(store.objs) then Malformed else ObjectNotFound(o)
  {
    hide Closed, Extends, StepsHeld;
    if Closed(store.objs) && HasCommit(store.objs, o) {
      ClosedHoldsSpine(store.objs, o);
    }
    var seen: set<Oid>;
    r, seen := VerifyInner(store, o, {});
    if r.Ok? {
      SpineWithin(o, seen);
    }
  }

  /** The commits visited by one call are on the spine, and when it succeeds they all reproduce
      and nothing below them was left out. */
  method VerifyInner(store: MemStore, o: Oid, seen: set<Oid>) returns (r: Result<()>, seen': set<Oid>)
    requires store.Valid()
    modifies store
    ensures Grown(old(store.objs), store.objs)
    ensures seen + {o} <= seen' <= seen + Spine(o)
    ensures r.Ok? ==> (o in seen || old(HasCommit(store.objs, o))) && Checked(seen, seen')
    ensures old(SpineHeld(store.objs, o)) && r.Err? ==> r.error == FoldVerify && exists c :: c in Spine(o) && !Reproduces(c)
    ensures r.Err? && !old(HasCommit(store.objs, o)) ==> r.error == if o in old(store.objs) then Malformed else ObjectNotFound(o)
    decreases Rank(o), 1
  {
    hide Closed, Addressed, Extends, MergeStep, Wrapper, Common, StepHeld, SpineHeld, Checked;
    ExtendsItself(store.objs);
    if o in seen {
      CheckedNothing(seen);
      return Ok(()), seen;
    }
    seen' := seen + {o};
    assert o in Spine(o);
    ghost var whole := SpineHeld(store.objs, o);
    if whole {
      SpineHoldsItself(store.objs, o);
    }
    var loaded := store.LoadCommit(o);
    if loaded.Err? {
      return Err(loaded.error), seen';
    }
    var c := loaded.value;
    if Primitive(c) {
      CheckedOne(seen, o);
      return Ok(()), seen';
    }
    if |c.parents| == 0 {
      var probe := new MemStore(store.order);
      var g := MakeGenesis(probe);
      CheckedOne(seen, o);
      return if g != o then Err(FoldVerify) else Ok(()), seen';
    }
    if whole {
      SpineHeldBelow(store.objs, o);
    }
    r, seen' := VerifyParents(store, o, c.parents, seen');
    if r.Err? {
      return;
    }
    ghost var checked := store.objs;
    if whole {
      KeepsCommits(old(store.objs), checked, c.parents);
      ExtendsIncludes(old(store.objs), checked);
    }
    var again: Result<Oid>;
    if |c.parents| == 1 {
      again := ThinWrapper(store, c.parents[0]);
    } else if |c.parents| == 2 {
      if whole {
        StepHeldGrows(old(store.objs), checked, c.parents[0], c.parents[1]);
      }
      again := FoldStep(store, c.parents[0], c.parents[1]);
    } else {
      return Err(FoldVerify), seen';
    }
    GrownTransitive(old(store.objs), checked, store.objs);
    if again.Err? {
      return Err(again.error), seen';
    }
    if again.value != o {
      return Err(FoldVerify), seen';
    }
    CheckedParents(seen, o, seen');
    r := Ok(());
  }

  lemma SpineHoldsItself(m: ObjectMap, o: Oid)
    requires SpineHeld(m, o)
    ensures StepsHeld(m, o)
  {
    hide StepsHeld;
    assert o in Spine(o);
  }

  lemma CheckedOne(seen: set<Oid>, o: Oid)
    ensures Reproduces(o) && (IsPrimitive(o) || Parents(o) == []) ==> Checked(seen, seen + {o})
  {
    hide Reproduces;
  }

  lemma CheckedParents(seen: set<Oid>, o: Oid, seen': set<Oid>)
    requires Checked(seen + {o}, seen') && o in seen' && Reproduces(o) && forall p :: p in Parents(o) ==> p in seen'
    ensures Checked(seen, seen')
  {
    hide Reproduces;
  }

  lemma NothingIsClosed()
    ensures Addressed(map[]) && Closed(map[])
  {
  }

  method VerifyParents(store: MemStore, ghost o: Oid, parents: seq<Oid>, seen: set<Oid>) returns (r: Result<()>, seen': set<Oid>)
    requires store.Valid()
    requires !IsPrimitive(o) && parents == Parents(o)
    modifies store
    ensures Grown(old(store.objs), store.objs)
    ensures seen <= seen' <= seen + Spine(o)
    ensures r.Ok? ==> forall p :: p in parents ==> p in seen'
    ensures r.Ok? ==> Checked(seen, seen')
    ensures old(SpineHeld(store.objs, o)) && r.Err? ==> r.error == FoldVerify && exists c :: c in Spine(o) && !Reproduces(c)
    decreases Rank(o), 0
  {
    hide Closed, Addressed, Extends, Reproduces, Checked, Spine, SpineHeld, StepsHeld;
    SpineOfParents(o);
    seen' := seen;
    CheckedNothing(seen);
    ExtendsItself(store.objs);
    ghost var whole := SpineHeld(store.objs, o);
    var i := 0;
    while i < |parents|
      invariant 0 <= i <= |parents|
      invariant Grown(old(store.objs), store.objs)
      invariant whole ==> SpineHeld(store.objs, o)
      invariant seen <= seen' <= seen + Spine(o)
      invariant forall j :: 0 <= j < i ==> parents[j] in seen'
      invariant Checked(seen, seen')
    {
      ghost var before := store.objs;
      ghost var seenBefore := seen';
      if whole {
        SpineHeldBelow(before, o);
      }
      r, seen' := VerifyInner(store, parents[i], seen');
      GrownTransitive(old(store.objs), before, store.objs);
      if r.Err? {
        return;
      }
      if whole {
        ExtendsIncludes(before, store.objs);
        SpineHeldGrows(before, store.objs, o);
      }
      CheckedMore(seen, seenBefore, seen');
      i := i + 1;
    }
    return Ok(()), seen';
  }
}
