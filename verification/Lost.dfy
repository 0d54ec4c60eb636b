/** A history, made by two engines, at the end of which a file that `main` has and the host has
    staged is gone from the staged files (engine.rs). */
module Lost {
  import opened Prelude
  import opened Objects
  import opened Store
  import opened Dag
  import opened Trees
  import opened TreeCodec
  import opened Order
  import opened Touch
  import opened GhostAdds
  import opened Fold
  import opened FoldLaws
  import opened State
  import opened Materialize
  import opened Engine
  import opened CommitLaws
  import opened Runs
  import opened Delivery
  import opened Scenarios

  // ---- What one step does ----

  /** What a primitive itself did to a path is the latest touch in the history of its fold. */
  lemma OwnToggleIsLatest(authored: set<Oid>, o: Oid, path: Path)
    requires HonestHistory(authored) && o in authored && Toggle(o, path).Some?
    ensures MostRecent(Wrapper(o), path) == Some((o, Toggle(o, path).value))
  {
    hide Ancestors, Wrapper, Sound, Visible;
    var s := Touchers(Wrapper(o), path);
    WrapperCommit(o);
    LineageOfOne(Wrapper(o), o);
    assert o in s;
    forall x | x in s && x != o
      ensures KeyLess(KeyOf(x), KeyOf(o))
    {
      assert x in PrimitivesBelow(o) && RisesTo(o, authored);
    }
    LatestUnique(s, o, Latest(s));
  }

  /** A node that hears everything another knows, by the one tip of its frontier. */
  lemma PassedOn(receiver: Node, sender: Node, authored: set<Oid>, o: Oid, after: Node, r: Result<nat>)
    requires HonestHistory(authored) && Honest(receiver, authored) && Honest(sender, authored) && Consistent(after)
    requires FrontierOf(Elements(sender.known)) == [o] && Elements(receiver.known) <= Elements(sender.known)
    requires IntegrateResult(receiver, ClosureOf([o]), after, r)
    ensures Honest(after, authored) && after.main == sender.main && Elements(after.known) <= Elements(sender.known)
    ensures after == receiver.(objs := after.objs, known := after.known, observed := after.observed, main := after.main)
  {
    hide HonestHistory, IntegrateResult, ClosureOf, FrontierOf, PrimitivesBelowAll, MainOf, GhostAdd, IsPrimitive;
    hide Consistent, AllKnown;
    FrontierIsKnown(Elements(sender.known));
    CatchUp(receiver, sender, authored, [o], after, r);
    EffectiveBelowFrontier(sender);
    assert Effective(Elements(after.known)) == Effective(Elements(sender.known));
    MainIgnoresGhostAdds(Elements(after.known), Elements(sender.known));
    IntegrateLeaves(receiver, ClosureOf([o]), after, r);
  }

  lemma IntegrateLeaves(n: Node, raws: Batch, n': Node, r: Result<nat>)
    requires IntegrateResult(n, raws, n', r)
    ensures n' == n.(objs := n'.objs, known := n'.known, observed := n'.observed, main := n'.main)
  {
    hide AllDecode, Spoiled, Grown, PutAll, Admit, ObserveAll, MainOf, FrontierOf, Foldable, HasCommit;
  }

  /** With nothing on disk and nothing recorded, everything in `main` is written and recorded. */
  lemma MaterializesAll(n: Node, planned: Node, ops: seq<MaterializeOp>)
    requires n.main.Some? && n.working == map[] && n.materialized == map[] && n.quarantines == []
    requires PlanResult(n, n.working, planned, ops)
    ensures ApplyOps(n.working, ops) == FilesAt(n.main.value)
    ensures planned == n.(materialized := HashesOf(FilesAt(n.main.value)))
  {
    hide Plans, ApplyOps, FilesAt;
    var want := FilesAt(n.main.value);
    assert ops[0..] == ops;
    var disk := ApplyOps(n.working, ops);
    forall p
      ensures State.At(disk, p) == State.At(want, p)
    {
      PlanAt(ops, n.materialized, n.working, want, p);
    }
    assert forall p :: p in disk <==> State.At(disk, p).Some?;
    assert forall p :: p in want <==> State.At(want, p).Some?;
    assert disk == want;
  }

  /** A commit that finds nothing to publish, once the stale paths are set aside, does no more. */
  lemma CommitOfUnchanged(n: Node, scoped: Files, node: NodeId, n': Node, r: Result<Option<Oid>>) returns (mid: Node)
    requires !n.bootstrapPending && CommitResult(n, scoped, node, 0, "", n', r)
    ensures SetAside(n, Quarantined(ParentFor(n), n.materialized, scoped), "", mid)
    ensures Unchanged(mid, Published(ParentFor(n), n.materialized, scoped)) ==> Grown(n.objs, n'.objs) && n' == mid.(objs := n'.objs)
  {
    hide Published, Quarantined, Undone, SetAside, Unchanged, Authors, Authored, Grown;
    var parent := ParentFor(n);
    var published, stale := Published(parent, n.materialized, scoped), Quarantined(parent, n.materialized, scoped);
    mid :| SetAside(n, stale, "", mid) &&
      if Unchanged(mid, published) then
        r == Ok(None) && Grown(n.objs, n'.objs) && n' == mid.(objs := n'.objs)
      else
        exists c :: Authors(c, node, n, published, Undone(parent, n.materialized, scoped), 0) && Authored(mid, published, c, n', r);
  }

  /** A file still on disk as it was put there, deleted from `main` by the latest edit: a commit of it
      publishes nothing, forgets the file, and queues it. */
  lemma SetsAside(n: Node, authored: set<Oid>, o: Oid, p: Path, content: Bytes, node: NodeId, n': Node, r: Result<Option<Oid>>)
    requires HonestHistory(authored) && o in authored && Honest(n, authored) && Consistent(n') && n.main == Some(Wrapper(o))
    requires Toggle(o, p) == Some(Delete) && !Visible(TreeOf(o), p)
    requires !n.bootstrapPending && n.quarantines == [] && n.working == map[p := content] && n.materialized == HashesOf(n.working)
    requires CommitResult(n, n.working, node, 0, "", n', r)
    ensures p in Quarantined(ParentFor(n), n.materialized, n.working)
    ensures n' == n.(objs := n'.objs, working := map[], materialized := map[], quarantines := n'.quarantines) && Honest(n', authored)
    ensures forall op :: op in n'.quarantines ==> op.Quarantine?
  {
    hide Wrapper, MostRecent, Toggle, Undone, Authors, Authored, MainOf, Consistent, HonestHistory, AllKnown;
    OwnToggleIsLatest(authored, o, p);
    WrapperCommit(o);
    var parent := ParentFor(n);
    var published, stale := Published(parent, n.materialized, n.working), Quarantined(parent, n.materialized, n.working);
    assert Undoes(parent, p) == Some(o);
    assert stale == {p} && published == map[];
    var mid := CommitOfUnchanged(n, n.working, node, n', r);
    assert mid.materialized == map[] == HashesOf(published) && mid.working == map[];
    assert mid.quarantines[0..] == mid.quarantines;
    GrowthKeepsHonest(n, authored, n');
  }

  lemma AloneInTree(p: Path, content: Bytes)
    requires CleanPath(p)
    ensures Visible(TreeId(map[p := content]), p) && !Visible(TreeId(map[]), p)
    ensures Contents(TreeId(map[p := content])) == map[p := content]
  {
    hide TreeId, Visible, CleanPath;
    var one: map<Path, Bytes> := map[p := content];
    assert PrefixFree(one) by {
      assert forall q :: |p + "/" + q| > |p|;
    }
    WrittenIsVisible(one, p);
    ReadBack(one);
    var none: map<Path, Bytes> := map[];
    if Visible(TreeId(none), p) {
      VisibleWasWritten(none, p);
    }
  }

  lemma DeletesIt(o: Oid, o': Oid, p: Path, content: Bytes)
    requires CleanPath(p) && TreeOf(o) == TreeId(map[p := content])
    requires IsPrimitive(o') && Parents(o') == [Wrapper(o)] && TreeOf(o') == TreeId(map[])
    ensures Toggle(o', p) == Some(Delete) && !Visible(TreeOf(o'), p)
  {
    hide TreeId, Visible, Wrapper;
    AloneInTree(p, content);
    WrapperCommit(o);
  }

  // ---- Two engines ----

  /** Two honest nodes, the second of which knows nothing the first does not. */
  ghost predicate Pair(a: MemEngine, b: MemEngine, authored: set<Oid>)
    reads a, a.store, a.caches, a.state, b, b.store, b.caches, b.state
  {
    && a.Valid() && b.Valid() && a != b && a.store != b.store && a.state != b.state
    && HonestHistory(authored) && Honest(a.View(), authored) && Honest(b.View(), authored)
    && Elements(b.state.known) <= Elements(a.state.known)
    && !a.state.bootstrapPending && !b.state.bootstrapPending
  }

  /** An honest node publishes some files. */
  method Publish(a: MemEngine, scoped: Files, ghost authored: set<Oid>) returns (o: Oid, ghost authored': set<Oid>)
    requires a.Valid() && HonestHistory(authored) && Honest(a.View(), authored) && !a.state.bootstrapPending
    requires (forall p :: p in scoped ==> !Stale(ParentFor(a.View()), a.state.materialized, p)) && a.state.materialized != HashesOf(scoped)
    modifies a, a.store, a.caches, a.state
    ensures a.Valid() && HonestHistory(authored') && Honest(a.View(), authored') && !a.state.bootstrapPending
    ensures authored <= authored' && o in authored' && o in a.state.known && old(Elements(a.state.known)) <= Elements(a.state.known)
    ensures FrontierOf(Elements(a.state.known)) == [o] && a.main == Some(Wrapper(o)) && a.state.materialized == HashesOf(scoped)
    ensures IsPrimitive(o) && !GhostAdd(o) && Parents(o) == [ParentFor(old(a.View()))] && TreeOf(o) == TreeId(scoped)
  {
    hide Stale, HashesOf, FrontierOf, MainOf, CommitResult, Honest, HonestHistory, Consistent, Published, Wrapper;
    ghost var n := a.View();
    var r := a.CommitScoped(scoped, 0, "");
    EngineIsConsistent(a);
    Publishes(n, authored, scoped, a.node, a.View(), r);
    o := r.value.value;
    authored' := authored + Elements(a.state.known);
  }

  /** The first publishes some files, and the second hears of it. */
  method PublishAndPass(a: MemEngine, b: MemEngine, scoped: Files, ghost authored: set<Oid>) returns (o: Oid, ghost authored': set<Oid>)
    requires Pair(a, b, authored)
    requires (forall p :: p in scoped ==> !Stale(ParentFor(a.View()), a.state.materialized, p)) && a.state.materialized != HashesOf(scoped)
    modifies a, a.store, a.caches, a.state, b`main, b.store, b.caches, b.state`known, b.state`observed
    ensures Pair(a, b, authored') && o in authored'
    ensures IsPrimitive(o) && Parents(o) == [ParentFor(old(a.View()))] && TreeOf(o) == TreeId(scoped)
    ensures a.main == b.main == Some(Wrapper(o)) && a.state.materialized == HashesOf(scoped)
    ensures b.View() == old(b.View()).(objs := b.store.objs, known := b.state.known, observed := b.state.observed, main := b.main)
  {
    hide Stale, HashesOf, FrontierOf, MainOf, CommitResult, IntegrateResult, Honest, HonestHistory, Workable, Closed;
    hide ClosureOf, FilesAt, Published, Wrapper;
    o, authored' := Publish(a, scoped, authored);
    MoreAuthored(b.View(), authored, authored');
    ghost var m := b.View();
    var raws, got := Deliver(a, b, o, authored');
    EngineIsConsistent(a);
    EngineIsConsistent(b);
    PassedOn(m, a.View(), authored', o, b.View(), got);
  }

  lemma Publishes(n: Node, authored: set<Oid>, scoped: Files, node: NodeId, n': Node, r: Result<Option<Oid>>)
    requires HonestHistory(authored) && Honest(n, authored) && Consistent(n') && !n.bootstrapPending
    requires (forall p :: p in scoped ==> !Stale(ParentFor(n), n.materialized, p)) && n.materialized != HashesOf(scoped)
    requires CommitResult(n, scoped, node, 0, "", n', r)
    ensures r.Ok? && r.value.Some? && !n'.bootstrapPending
    ensures HonestHistory(authored + Elements(n'.known)) && Honest(n', authored + Elements(n'.known))
    ensures Elements(n.known) <= Elements(n'.known) && FrontierOf(Elements(n'.known)) == [r.value.value]
    ensures r.value.value in n'.known && n'.main == Some(Wrapper(r.value.value)) && n'.materialized == HashesOf(scoped)
    ensures var o := r.value.value;
      IsPrimitive(o) && !GhostAdd(o) && Parents(o) == [ParentFor(n)] && TreeOf(o) == TreeId(scoped)
  {
    hide Stale, HashesOf, FrontierOf, MainOf, CommitResult, HonestHistory, Consistent, Published, Wrapper, AllKnown;
    hide GhostAdd, TreeId;
    PublishHappens(n, scoped, node, 0, "", n', r);
    CommitKeepsHonest(n, authored, scoped, node, 0, "", n', r);
    AfterCommit(n, scoped, node, 0, "", n', r);
    CommitMade(n, scoped, node, 0, "", n', r);
    FrontierIsKnown(Elements(n'.known));
    assert r.value.value in FrontierOf(Elements(n'.known));
  }

  method NewPair(a: NodeId, b: NodeId, order: EntryOrder, thread: Caches) returns (x: MemEngine, y: MemEngine)
    requires thread.Valid()
    ensures fresh(x) && fresh(x.store) && fresh(x.state) && fresh(y) && fresh(y.store) && fresh(y.state)
    ensures x.caches == y.caches == thread && Pair(x, y, {})
    ensures x.state.materialized == map[] && y.state.materialized == map[] && y.working == map[] && y.quarantines == []
  {
    hide Honest, HonestHistory, Consistent, Grown, HasCommit, M0;
    x := FreshNode(a, order, thread);
    y := FreshNode(b, order, thread);
    FreshHonest(x.View(), {});
    FreshHonest(y.View(), {});
    NothingAuthored();
  }

  /** A host with nothing on disk brings it to `main`. */
  method PutOnDisk(b: MemEngine, ghost authored: set<Oid>)
    requires b.Valid() && Honest(b.View(), authored) && b.main.Some?
    requires b.working == map[] && b.state.materialized == map[] && b.quarantines == []
    modifies b`quarantines, b`working, b.state`materialized
    ensures b.Valid() && Honest(b.View(), authored)
    ensures b.View() == old(b.View()).(working := FilesAt(b.main.value), materialized := HashesOf(FilesAt(b.main.value)))
  {
    hide Honest, Consistent, PlanResult, FilesAt, HashesOf, ApplyOps;
    ghost var n := b.View();
    var ops := b.MaterializeStaged();
    ghost var planned :| PlanResult(n, n.working, planned, ops) && b.View() == planned.(working := b.working);
    MaterializesAll(n, planned, ops);
    LocalKeepsHonest(n, authored, b);
  }

  /** A peer publishes one file, and the host puts it on its disk. */
  method Seed(host: NodeId, peer: NodeId, order: EntryOrder, thread: Caches, p: Path, content: Bytes)
    returns (a: MemEngine, b: MemEngine, o: Oid, ghost authored: set<Oid>)
    requires thread.Valid() && CleanPath(p)
    modifies thread
    ensures fresh(a) && fresh(a.store) && fresh(a.state) && fresh(b) && fresh(b.store) && fresh(b.state)
    ensures a.caches == b.caches == thread && Pair(a, b, authored)
    ensures TreeOf(o) == TreeId(map[p := content]) && a.main == b.main == Some(Wrapper(o))
    ensures a.state.materialized == HashesOf(map[p := content])
    ensures b.working == map[p := content] && b.state.materialized == HashesOf(b.working) && b.quarantines == []
  {
    hide Honest, HonestHistory, Workable, Closed, Wrapper, CleanPath, TreeId, FilesAt;
    var files := map[p := content];
    a, b := NewPair(peer, host, order, thread);
    assert p in HashesOf(files);
    o, authored := PublishAndPass(a, b, files, {});
    WrapperHas(o, p, content);
    PutOnDisk(b, authored);
  }

  lemma WrapperHas(o: Oid, p: Path, content: Bytes)
    requires CleanPath(p) && TreeOf(o) == TreeId(map[p := content])
    ensures FilesAt(Wrapper(o)) == map[p := content]
  {
    hide Wrapper, TreeId, CleanPath;
    WrapperCommit(o);
    AloneInTree(p, content);
  }

  lemma LocalKeepsHonest(n: Node, authored: set<Oid>, e: MemEngine)
    requires Honest(n, authored) && e.Valid()
    requires e.View() == n.(working := e.working, quarantines := e.quarantines, materialized := e.state.materialized)
    ensures Honest(e.View(), authored)
  {
    hide Consistent, MainOf;
  }

  /** The peer deletes the file while the host still has it; the host's next commit sets it aside, and
      queues it. */
  method DeleteAndSetAside(a: MemEngine, b: MemEngine, o: Oid, p: Path, content: Bytes, ghost authored: set<Oid>)
    returns (ghost n: Node, ghost r: Result<Option<Oid>>, ghost authored': set<Oid>)
    requires Pair(a, b, authored) && CleanPath(p)
    requires TreeOf(o) == TreeId(map[p := content]) && a.main == b.main == Some(Wrapper(o))
    requires a.state.materialized == HashesOf(map[p := content])
    requires b.working == map[p := content] && b.state.materialized == HashesOf(b.working) && b.quarantines == []
    modifies a, a.store, a.caches, a.state, b, b.store, b.caches, b.state
    ensures Pair(a, b, authored') && a.state.materialized == map[] && b.working == map[]
    ensures !n.bootstrapPending && CommitResult(n, n.working, b.node, 0, "", b.View(), r)
    ensures p in Quarantined(ParentFor(n), n.materialized, n.working) && forall op :: op in b.quarantines ==> op.Quarantine?
  {
    hide Honest, HonestHistory, Workable, Closed, Wrapper, CleanPath, TreeId, CommitResult, Toggle, Visible, Quarantined;
    assert p in HashesOf(map[p := content]);
    var deleted;
    deleted, authored' := PublishAndPass(a, b, map[], authored);
    DeletesIt(o, deleted, p, content);
    n := b.View();
    r := b.CommitScoped(b.working, 0, "");
    EngineIsConsistent(b);
    SetsAside(n, authored', deleted, p, content, b.node, b.View(), r);
  }

  /** The host stages again what `main` has, and materialises. */
  method RestageAndMaterialize(b: MemEngine, p: Path, content: Bytes, ghost n: Node, ghost n': Node, ghost r: Result<Option<Oid>>)
    returns (staged: Option<Bytes>, left: Option<Bytes>, record: Option<Oid>)
    requires b.Valid() && b.main.Some? && FilesAt(b.main.value) == map[p := content]
    requires !n.bootstrapPending && CommitResult(n, n.working, b.node, 0, "", n', r)
    requires p in Quarantined(ParentFor(n), n.materialized, n.working)
    requires b.quarantines == n'.quarantines && forall op :: op in b.quarantines ==> op.Quarantine?
    modifies b, b.state`materialized
    ensures b.Valid() && b.main == old(b.main) && staged == Some(content) && left == None && record == Some(BlobHash(content))
  {
    hide Workable, Closed, PlanResult, FilesAt, CommitResult, Quarantined, ApplyOps;
    b.StageWrite(p, content);
    ghost var later := b.View();
    staged := State.At(b.working, p);
    var ops := b.MaterializeStaged();
    ghost var planned :| PlanResult(later, later.working, planned, ops) && b.View() == planned.(working := b.working);
    RequarantinedFileIsLost(n, n.working, b.node, 0, "", n', r, p, later, planned, ops);
    PlanKeepsMain(later, later.working, planned, ops);
    left, record := State.At(b.working, p), State.At(b.state.materialized, p);
  }

  lemma PlanKeepsMain(n: Node, onDisk: Files, n': Node, ops: seq<MaterializeOp>)
    requires PlanResult(n, onDisk, n', ops)
    ensures n'.main == n.main
  {
    hide Plans, Recorded, FilesAt;
  }

  /** A file is deleted by a peer, set aside by the host, brought back by the peer, and staged again by
      the host. Materialising then takes it away for good, although `main` has it and the record says
      it is there. */
  method RestagedFileIsLost(host: NodeId, peer: NodeId, order: EntryOrder, thread: Caches, p: Path, content: Bytes)
    returns (main: Option<Oid>, staged: Option<Bytes>, left: Option<Bytes>, record: Option<Oid>)
    requires thread.Valid() && CleanPath(p)
    modifies thread
    ensures main.Some? && FilesAt(main.value) == map[p := content] && staged == Some(content)
    ensures left == None && record == Some(BlobHash(content))
  {
    hide Honest, HonestHistory, Workable, Closed, Wrapper, CleanPath, TreeId, FilesAt, CommitResult, Quarantined;
    var a, b, o1;
    ghost var authored;
    a, b, o1, authored := Seed(host, peer, order, thread, p, content);
    ghost var n, r;
    n, r, authored := DeleteAndSetAside(a, b, o1, p, content, authored);
    ghost var n' := b.View();
    var o3;
    assert p in HashesOf(map[p := content]);
    o3, authored := PublishAndPass(a, b, map[p := content], authored);
    WrapperHas(o3, p, content);
    staged, left, record := RestageAndMaterialize(b, p, content, n, n', r);
    main := b.main;
  }
}
