/** Concrete histories, made by the engine and the session themselves: the runs and sessions the laws
    speak of are there, and get somewhere. */
module Scenarios {
  import opened Prelude
  import opened Objects
  import opened Store
  import opened Dag
  import opened TreeCodec
  import opened Merge
  import opened MergeLaws
  import opened Order
  import opened Touch
  import opened GhostAdds
  import opened Fold
  import opened FoldLaws
  import opened Reach
  import opened State
  import opened Materialize
  import opened Engine
  import opened CommitLaws
  import opened Concurrent
  import opened Runs
  import opened Delivery
  import Scope
  import Session
  import opened Convergence
  import opened Conversation

  // ---- First steps of a node ----

  lemma IsFresh(n: Node, objs: ObjectMap)
    requires Grown(map[], objs) && HasCommit(objs, M0()) && n == Node(objs, [], 0, 0, map[], map[], false, Some(M0()), map[], [])
    ensures Fresh(n)
  {
    hide Grown, M0, HasCommit;
  }

  /** Files none of which is stale, and which are not what was last put on disk, are committed. */
  lemma PublishHappens(n: Node, scoped: Files, node: NodeId, now: nat, bucket: string, n': Node, r: Result<Option<Oid>>)
    requires Current(n) && !n.bootstrapPending && CommitResult(n, scoped, node, now, bucket, n', r)
    requires (forall p :: p in scoped ==> !Stale(ParentFor(n), n.materialized, p)) && n.materialized != HashesOf(scoped)
    ensures Committed(n, scoped, node, now, bucket, n', r) && r.Ok? && r.value.Some? && !n'.bootstrapPending
    ensures Published(ParentFor(n), n.materialized, scoped) == scoped
    ensures n'.known == AddOne(n.known, r.value.value) && FrontierOf(Elements(n'.known)) == [r.value.value]
  {
    hide Stale, Undone, Authors, MainOf, FrontierOf, Foldable, Grown, GhostAdd, Wrapper, HashesOf;
    var parent := ParentFor(n);
    var published, stale := Published(parent, n.materialized, scoped), Quarantined(parent, n.materialized, scoped);
    assert published == scoped && stale == {};
    var mid: Node :| SetAside(n, stale, bucket, mid) &&
      if Unchanged(mid, published) then
        r == Ok(None) && Grown(n.objs, n'.objs) && n' == mid.(objs := n'.objs)
      else
        exists c :: Authors(c, node, n, published, Undone(parent, n.materialized, scoped), now) && Authored(mid, published, c, n', r);
    SetAsideKeeps(n, stale, bucket, mid);
    assert mid.materialized == n.materialized;
    var c :| Authors(c, node, n, published, Undone(parent, n.materialized, scoped), now) && Authored(mid, published, c, n', r);
    KnownAfter(mid, published, c, n', r);
    AfterCommit(n, scoped, node, now, bucket, n', r);
  }

  /** The first commit of a node with anything to publish makes a primitive. */
  lemma FirstCommitHappens(n: Node, scoped: Files, node: NodeId, now: nat, bucket: string, n': Node, r: Result<Option<Oid>>)
    requires Fresh(n) && scoped != map[] && CommitResult(n, scoped, node, now, bucket, n', r)
    ensures Committed(n, scoped, node, now, bucket, n', r) && r.Ok? && r.value.Some? && !n'.bootstrapPending
    ensures n'.known == [r.value.value] && FrontierOf(Elements(n'.known)) == n'.known
  {
    hide Undoes, CommitResult, MainOf, FrontierOf, Grown;
    FreshIsHonest(n);
    var p :| p in scoped;
    assert p in HashesOf(scoped);
    PublishHappens(n, scoped, node, now, bucket, n', r);
  }

  /** A new engine whose first commit publishes some files. */
  method CommittingNode(node: NodeId, order: EntryOrder, thread: Caches, scoped: Files) returns (e: MemEngine, o: Oid, ghost n: Node)
    requires thread.Valid() && scoped != map[]
    modifies thread
    ensures e.Valid() && fresh(e) && fresh(e.store) && fresh(e.state) && e.caches == thread
    ensures Fresh(n) && e.View().known == [o] && FrontierOf({o}) == [o] && !e.View().bootstrapPending
    ensures exists r :: CommitResult(n, scoped, node, 0, "", e.View(), r)
    ensures HonestHistory({o}) && Honest(e.View(), {o})
  {
    hide FrontierOf, CommitResult, Honest, HonestHistory, Fresh, Consistent, Grown, M0;
    e := new MemEngine(node, Scope.EVERYTHING, order, thread);
    n := e.View();
    IsFresh(n, e.store.objs);
    FreshIsHonest(n);
    var r := e.CommitScoped(scoped, 0, "");
    FirstCommitHappens(n, scoped, node, 0, "", e.View(), r);
    o := r.value.value;
    NothingAuthored();
    ValidMeans(e);
    CommitKeepsHonest(n, {}, scoped, node, 0, "", e.View(), r);
    assert {} + Elements([o]) == {o} && Elements([o]) == {o};
  }

  lemma ValidMeans(e: MemEngine)
    requires e.Valid()
    ensures Consistent(e.View())
  {
  }

  lemma NothingAuthored()
    ensures HonestHistory({})
  {
  }

  method FreshNode(node: NodeId, order: EntryOrder, thread: Caches) returns (e: MemEngine)
    requires thread.Valid()
    ensures e.Valid() && fresh(e) && fresh(e.store) && fresh(e.state) && e.caches == thread
    ensures e.node == node && Fresh(e.View()) && e.store.objs == map[Sha(EMPTY_TREE) := EMPTY_TREE, M0() := Genesis()]
  {
    hide Fresh, Grown, M0, Consistent;
    e := new MemEngine(node, Scope.EVERYTHING, order, thread);
    IsFresh(e.View(), e.store.objs);
  }

  // ---- A run ----

  /** One node commits, another receives: a run of three states, after which both know the same
      primitive and have the same `main`. Both run on one thread, so one cache serves both, and it
      may hold anything learned before. */
  method CommitAndDeliver(a: NodeId, b: NodeId, order: EntryOrder, thread: Caches, scoped: Files)
    returns (o: Oid, mainA: Option<Oid>, mainB: Option<Oid>, ghost states: seq<System>)
    requires a != b && thread.Valid() && scoped != map[]
    modifies thread
    ensures mainA == mainB == Some(Wrapper(o))
    ensures Run(states) && |states| == 3 && states[2].nodes.Keys == {a, b} && states[2].authored == {o}
    ensures states[2].nodes[a].node.known == states[2].nodes[b].node.known == [o]
    ensures states[2].nodes[a].node.main == mainA && states[2].nodes[b].node.main == mainB
  {
    hide FrontierOf, MainOf, CommitResult, IntegrateResult, Honest, HonestHistory, Fresh, Consistent, ClosureOf;
    hide Wrapper, Run, FromNodes, ClosedBatch, GhostAdd, Verdict, TouchHeld;
    var sender: MemEngine;
    ghost var n0: Node;
    sender, o, n0 := CommittingNode(a, order, thread, scoped);
    var receiver := FreshNode(b, order, thread);
    ghost var n1, m0 := sender.View(), receiver.View();
    FreshHonest(m0, {o});
    var raws, r := Deliver(sender, receiver, o, {o});
    ghost var m1 := receiver.View();
    EngineIsConsistent(sender);
    EngineIsConsistent(receiver);
    Learns(m0, n1, {o}, o, m1, r);
    mainA, mainB := sender.main, receiver.main;
    OneKnown(n1, o);
    states := RunFrom(a, b, n0, n1, m0, m1, scoped, raws, r, {o});
  }

  lemma OneKnown(n: Node, o: Oid)
    requires n.known == [o]
    ensures Elements(n.known) == {o}
  {
  }

  /** The closure of a tip one engine knows, integrated by another. */
  method Deliver(sender: MemEngine, receiver: MemEngine, o: Oid, ghost authored: set<Oid>) returns (raws: Batch, r: Result<nat>)
    requires sender.Valid() && receiver.Valid() && sender != receiver
    requires sender.store != receiver.store && sender.state != receiver.state
    requires Honest(sender.View(), authored) && Honest(receiver.View(), authored) && o in sender.View().known
    modifies receiver`main, receiver.store, receiver.caches, receiver.state`known, receiver.state`observed
    ensures sender.Valid() && receiver.Valid() && sender.View() == old(sender.View())
    ensures raws == ClosureOf([o]) && ClosedBatch(old(receiver.View()), raws) && FromNodes(raws, authored)
    ensures IntegrateResult(old(receiver.View()), raws, receiver.View(), r)
  {
    hide Honest, Workable, ClosureOf, ClosedBatch, FromNodes, PutAll, Closed, IntegrateResult, ReachableFrom, AllHeld;
    KnownIsServed(sender, authored, o);
    var exported := sender.ExportClosure([o]);
    raws := exported.value;
    ExportedIsClosure(raws, o);
    TipDelivers(sender.View(), receiver.View(), authored, o);
    r := receiver.Integrate(raws);
  }

  lemma ExportedIsClosure(raws: Batch, o: Oid)
    requires raws == RawsOf(ReachableFrom(Elements([o])))
    ensures raws == ClosureOf([o])
  {
  }

  lemma RunFrom(a: NodeId, b: NodeId, n0: Node, n1: Node, m0: Node, m1: Node, scoped: Files, raws: Batch, r: Result<nat>, authored: set<Oid>)
    returns (states: seq<System>)
    requires a != b && Fresh(n0) && Fresh(m0) && Consistent(n1) && Consistent(m1)
    requires (exists c :: CommitResult(n0, scoped, a, 0, "", n1, c)) && authored == Elements(n1.known)
    requires ClosedBatch(m0, raws) && FromNodes(raws, authored) && IntegrateResult(m0, raws, m1, r)
    ensures Run(states) && |states| == 3 && states[2].nodes.Keys == {a, b} && states[2].authored == authored
    ensures states[2].nodes[a].node == n1 && states[2].nodes[b].node == m1
  {
    hide CommitResult, IntegrateResult, Fresh, Consistent, ClosedBatch, FromNodes, NodeStep;
    var s0 := System(map[a := Tracked(n0, map[]), b := Tracked(m0, map[])], {});
    var s1 := System(s0.nodes[a := Tracked(n1, map[])], authored);
    var s2 := System(s1.nodes[b := Tracked(m1, map[])], authored);
    CommitsStep(a, n0, n1, scoped, authored);
    DeliversStep(b, m0, m1, raws, r, authored);
    states := [s0, s1, s2];
    RunOfThree(s0, s1, s2, a, b);
  }

  lemma FreshHonest(n: Node, authored: set<Oid>)
    requires Fresh(n)
    ensures Honest(n, authored) && n.known == [] && !n.bootstrapPending
  {
    hide Consistent;
    FreshIsHonest(n);
    MoreAuthored(n, {}, authored);
  }

  lemma EngineIsConsistent(e: MemEngine)
    requires e.Valid()
    ensures Consistent(e.View())
  {
  }

  lemma KnownIsServed(e: MemEngine, authored: set<Oid>, o: Oid)
    requires e.Valid() && Honest(e.View(), authored) && o in e.View().known
    ensures AllHeld(e.store.objs, ReachableFrom(Elements([o])))
  {
    hide ReachableFrom;
    ReachIsHeld(e.store.objs, [o]);
  }

  lemma TipDelivers(sender: Node, receiver: Node, authored: set<Oid>, o: Oid)
    requires Honest(sender, authored) && Honest(receiver, authored) && o in sender.known
    ensures ClosedBatch(receiver, ClosureOf([o])) && FromNodes(ClosureOf([o]), authored)
    ensures AllDecode(ClosureOf([o])) && Closed(PutAll(receiver.objs, ClosureOf([o])))
  {
    hide ClosureOf, PutAll;
    ClosureIsClosed(receiver.objs, sender.objs, [o]);
    ClosureIsFromNodes(sender, authored, [o]);
  }

  lemma Learns(receiver: Node, sender: Node, authored: set<Oid>, o: Oid, after: Node, r: Result<nat>)
    requires HonestHistory(authored) && Honest(receiver, authored) && Honest(sender, authored) && Consistent(after)
    requires receiver.known == [] && sender.known == [o] && authored == {o} && FrontierOf({o}) == [o]
    requires IntegrateResult(receiver, ClosureOf([o]), after, r)
    ensures after.known == [o] && after.main == Some(Wrapper(o)) == sender.main && Honest(after, authored)
  {
    hide HonestHistory, IntegrateResult, ClosureOf, FrontierOf, Wrapper, PrimitivesBelowAll, Effective;
    CatchUp(receiver, sender, authored, [o], after, r);
    EffectiveBelowFrontier(sender);
    var known := Elements(after.known);
    assert Elements([o]) == {o} && Elements(receiver.known) == {};
    OnlyItself(o);
    assert known == {o};
    OneElement(after.known, o);
  }

  lemma OnlyItself(o: Oid)
    requires FrontierOf({o}) == [o]
    ensures MainOf({o}) == Wrapper(o)
    ensures o in PrimitivesBelowAll([o])
  {
    FrontierMembers({o});
    assert o in PrimitivesBelow(o);
  }

  lemma OneElement(known: seq<Oid>, o: Oid)
    requires NoDuplicates(known) && Elements(known) == {o}
    ensures known == [o]
  {
    DistinctCount(known);
    assert o in known;
  }

  lemma {:induction false} DistinctCount(s: seq<Oid>)
    requires NoDuplicates(s)
    ensures |Elements(s)| == |s|
  {
    if s != [] {
      var n := |s| - 1;
      assert s == s[..n] + [s[n]];
      DistinctCount(s[..n]);
      assert Elements(s) == Elements(s[..n]) + {s[n]};
    }
  }

  lemma CommitsStep(id: NodeId, n: Node, n': Node, scoped: Files, authored: set<Oid>)
    requires Consistent(n') && (exists r :: CommitResult(n, scoped, id, 0, "", n', r)) && authored == Elements(n'.known)
    ensures NodeStep(id, Tracked(n, map[]), {}, Tracked(n', map[]), authored)
  {
    hide CommitResult, Consistent;
    assert {} + authored == authored;
  }

  lemma DeliversStep(id: NodeId, n: Node, n': Node, raws: Batch, r: Result<nat>, authored: set<Oid>)
    requires Consistent(n') && ClosedBatch(n, raws) && FromNodes(raws, authored) && IntegrateResult(n, raws, n', r)
    ensures NodeStep(id, Tracked(n, map[]), authored, Tracked(n', map[]), authored)
  {
    hide IntegrateResult, Consistent, ClosedBatch, FromNodes;
  }

  lemma RunOfThree(s0: System, s1: System, s2: System, a: NodeId, b: NodeId)
    requires a in s0.nodes && b in s1.nodes && Init(s0) && a in s1.nodes && b in s2.nodes
    requires NodeStep(a, s0.nodes[a], s0.authored, s1.nodes[a], s1.authored) && s1.nodes == s0.nodes[a := s1.nodes[a]]
    requires NodeStep(b, s1.nodes[b], s1.authored, s2.nodes[b], s2.authored) && s2.nodes == s1.nodes[b := s2.nodes[b]]
    ensures Run([s0, s1, s2])
  {
    hide NodeStep, Init;
    assert Next(s0, s1) && Next(s1, s2);
  }

  // ---- Two commits at the same time ----

  /** Two new nodes publish some files without hearing of each other; then the second hears of the
      first. */
  method CommitBoth(a: NodeId, b: NodeId, order: EntryOrder, thread: Caches, filesA: Files, filesB: Files)
    returns (main: Option<Oid>, oa: Oid, ob: Oid)
    requires a != b && thread.Valid() && filesA != map[] && filesB != map[]
    modifies thread
    ensures PublishedAs({}, filesA, oa) && KeyOf(oa).node == a && KeyOf(oa).counter == 1
    ensures PublishedAs({}, filesB, ob) && KeyOf(ob).node == b && KeyOf(ob).counter == 1
    ensures main == Some(MainOf({oa, ob})) && thread.Valid()
  {
    hide FrontierOf, MainOf, CommitResult, IntegrateResult, Honest, HonestHistory, Fresh, Consistent, ClosureOf;
    hide PublishedAs;
    var sender, receiver: MemEngine;
    ghost var na, nb;
    sender, oa, na := CommittingNode(a, order, thread, filesA);
    receiver, ob, nb := CommittingNode(b, order, thread, filesB);
    FirstIsPublished(na, filesA, a, sender.View(), oa);
    FirstIsPublished(nb, filesB, b, receiver.View(), ob);
    BothHonest(sender.View(), receiver.View(), oa, ob);
    ghost var before := receiver.View();
    var raws, r := Deliver(sender, receiver, oa, {oa, ob});
    EngineIsConsistent(receiver);
    KnowsBoth(before, sender.View(), oa, ob, receiver.View(), r);
    main := receiver.main;
  }

  /** If the files are different ones, `main` has the files of both, and nothing else. */
  method CommitApart(a: NodeId, b: NodeId, order: EntryOrder, thread: Caches, filesA: Files, filesB: Files) returns (main: Option<Oid>)
    requires a != b && thread.Valid() && filesA != map[] && filesB != map[] && filesA.Keys !! filesB.Keys
    modifies thread
    ensures main.Some? && FilesAt(main.value) == Clean(filesA + filesB)
  {
    hide MainOf, FilesAt, Clean, PublishedAs, KeyOf;
    var oa, ob;
    main, oa, ob := CommitBoth(a, b, order, thread, filesA, filesB);
    FilesOfBoth(filesA, filesB, oa, ob);
  }

  /** If both add one and the same path, `main` has the file of the node whose id has the greater byte
      where the two ids first differ, whichever of them heard of the other. */
  method CommitClash(a: NodeId, b: NodeId, order: EntryOrder, thread: Caches, p: Path, x: Bytes, y: Bytes, ghost i: nat)
    returns (mainA: Option<Oid>, mainB: Option<Oid>)
    requires FirstAt(a, b, i) && a != b && thread.Valid() && CleanPath(p)
    modifies thread
    ensures mainA.Some? && FilesAt(mainA.value) == map[p := y]
    ensures mainB.Some? && FilesAt(mainB.value) == map[p := y]
  {
    hide MainOf, FilesAt, PublishedAs, KeyOf, FirstAt, CleanPath;
    var oa, ob;
    var filesA, filesB: Files := map[p := x], map[p := y];
    assert p in filesA && p in filesB;
    mainB, oa, ob := CommitBoth(a, b, order, thread, filesA, filesB);
    Clash(p, x, y, oa, ob, i);
    mainA, ob, oa := CommitBoth(b, a, order, thread, filesB, filesA);
    Clash(p, x, y, oa, ob, i);
    assert {ob, oa} == {oa, ob};
  }

  lemma Clash(p: Path, x: Bytes, y: Bytes, oa: Oid, ob: Oid, i: nat)
    requires CleanPath(p) && PublishedAs({}, map[p := x], oa) && PublishedAs({}, map[p := y], ob)
    requires KeyOf(oa).counter == KeyOf(ob).counter && FirstAt(KeyOf(oa).node, KeyOf(ob).node, i)
    ensures FilesAt(MainOf({oa, ob})) == map[p := y]
  {
    hide PublishedAs, MainOf, FrontierOf, FilesAt, KeyOf, KeyLess, Foldable, CleanPath, FirstAt, GhostAdd, IsPrimitive, Clean;
    var known: set<Oid>, tips, files: seq<Files> := {}, [oa, ob], [map[p := x], map[p := y]];
    PublishedIsSibling(known, files[0], oa);
    PublishedIsSibling(known, files[1], ob);
    NothingToStartFrom();
    OneFileIsClean(p, x);
    OneFileIsClean(p, y);
    assert known + {oa, ob} == {oa, ob} && Elements(tips) == {oa, ob};
    GreaterNodeWins(known, oa, ob, p, i);
    KeysCompare(KeyOf(oa), KeyOf(ob));
    SortedSiblings(known, oa, ob);
    var main := FilesAt(MainOf({oa, ob}));
    forall q
      ensures Lookup(main, q) == Lookup(map[p := y], q)
    {
      if q != p {
        if CleanPath(q) {
          ConcurrentCommits(known, tips, files, q, None);
        } else {
          ConcurrentAreClean(known, tips, files, q);
        }
      }
    }
    SameLookups(main, map[p := y]);
  }

  lemma OneFileIsClean(p: Path, x: Bytes)
    requires CleanPath(p)
    ensures Clean(map[p := x]) == map[p := x]
  {
  }

  lemma FirstIsPublished(n: Node, files: Files, node: NodeId, n': Node, o: Oid)
    requires Fresh(n) && files != map[] && n'.known == [o] && exists r :: CommitResult(n, files, node, 0, "", n', r)
    ensures PublishedAs({}, files, o) && KeyOf(o).node == node && KeyOf(o).counter == 1
  {
    hide FrontierOf, MainOf, GhostAdd, CommitResult, Consistent, PublishedAs;
    var r :| CommitResult(n, files, node, 0, "", n', r);
    FreshIsHonest(n);
    FirstCommitHappens(n, files, node, 0, "", n', r);
    CommitMade(n, files, node, 0, "", n', r);
    FreshPublishesAll(n, files);
    IsPublished({}, n, files, node, 0, "", n', r);
  }

  lemma FreshPublishesAll(n: Node, files: Files)
    requires Fresh(n)
    ensures Published(ParentFor(n), n.materialized, files) == files && Elements(n.known) == {} && n.observed == 0
  {
    hide Undoes, Grown;
  }

  lemma IsPublished(known: set<Oid>, n: Node, scoped: Files, node: NodeId, now: nat, bucket: string, n': Node, r: Result<Option<Oid>>)
    requires Current(n) && Elements(n.known) == known && Committed(n, scoped, node, now, bucket, n', r) && r.Ok? && r.value.Some?
    ensures PublishedAs(known, Published(ParentFor(n), n.materialized, scoped), r.value.value)
  {
    hide Committed, Published, MainOf;
  }

  lemma BothHonest(n: Node, m: Node, oa: Oid, ob: Oid)
    requires HonestHistory({oa}) && Honest(n, {oa}) && HonestHistory({ob}) && Honest(m, {ob})
    ensures HonestHistory({oa, ob}) && Honest(n, {oa, ob}) && Honest(m, {oa, ob})
  {
    hide Consistent, Sound, PrimitivesBelow, CounterOf, MainOf;
    assert RisesTo(oa, {oa}) && RisesTo(ob, {ob});
    assert RisesTo(oa, {oa, ob}) && RisesTo(ob, {oa, ob});
  }

  lemma KnowsBoth(receiver: Node, sender: Node, oa: Oid, ob: Oid, after: Node, r: Result<nat>)
    requires HonestHistory({oa, ob}) && Honest(receiver, {oa, ob}) && Honest(sender, {oa, ob}) && Consistent(after)
    requires receiver.known == [ob] && sender.known == [oa] && IntegrateResult(receiver, ClosureOf([oa]), after, r)
    ensures after.main == Some(MainOf({oa, ob}))
  {
    hide HonestHistory, IntegrateResult, ClosureOf, MainOf, Consistent, PrimitivesBelow;
    CatchUp(receiver, sender, {oa, ob}, [oa], after, r);
    KnownIsClosed(sender, oa);
    TipIsBelow(sender, oa);
    assert Elements(sender.known) == {oa} && Elements(receiver.known) == {ob};
    assert Elements(after.known) == {oa, ob};
  }

  lemma TipIsBelow(n: Node, o: Oid)
    requires Consistent(n) && o in n.known
    ensures o in PrimitivesBelowAll([o]) && PrimitivesBelowAll([o]) == PrimitivesBelow(o)
  {
    hide Ancestors;
    assert o in PrimitivesBelow(o);
  }

  lemma FilesOfBoth(filesA: Files, filesB: Files, oa: Oid, ob: Oid)
    requires PublishedAs({}, filesA, oa) && PublishedAs({}, filesB, ob) && KeyOf(oa).node != KeyOf(ob).node
    requires filesA.Keys !! filesB.Keys
    ensures FilesAt(MainOf({oa, ob})) == Clean(filesA + filesB)
  {
    hide PublishedAs, MainOf, FrontierOf, FilesAt, KeyOf, KeyLess, Foldable, CleanPath;
    KeyOfTotal(oa, ob);
    var first := KeyLess(KeyOf(oa), KeyOf(ob));
    var tips, files := if first then [oa, ob] else [ob, oa], if first then [filesA, filesB] else [filesB, filesA];
    assert {} + Elements(tips) == {oa, ob};
    NothingToStartFrom();
    var both := FilesAt(MainOf({oa, ob}));
    forall p
      ensures Lookup(both, p) == Lookup(Clean(filesA + filesB), p)
    {
      if CleanPath(p) {
        var v := Lookup(filesA + filesB, p);
        assert forall i :: 0 <= i < 2 ==> files[i] == filesA || files[i] == filesB;
        assert files[0] == filesA || files[1] == filesA;
        assert files[0] == filesB || files[1] == filesB;
        ConcurrentCommits({}, tips, files, p, v);
      } else {
        ConcurrentAreClean({}, tips, files, p);
      }
    }
    SameLookups(both, Clean(filesA + filesB));
  }

  lemma NothingToStartFrom()
    ensures FilesAt(MainOf({})) == map[]
  {
    NoFrontier();
    GenesisCommit();
  }

  // ---- A session ----

  function AdmitAll(): (Session.SshKey, bool) -> bool {
    (k, e) => true
  }

  /** The two ends of a session of one vault, between a listener that lets everyone in and a
      connector, on nodes given by their ids. */
  method TwoEnds(vault: string, a: NodeId, b: NodeId) returns (x: Session.Session, y: Session.Session)
    ensures fresh(x) && fresh(y) && x != y
    ensures x.profile == Session.Profile(vault, "", a, AdmitAll()) && y.profile == Session.Profile(vault, "", b, AdmitAll())
    ensures x.View() == Session.Link(Session.Listener, [], [1], Session.AwaitHello, None, false, [])
    ensures y.View() == Session.Link(Session.Connector, [], [2], Session.AwaitHello, None, false, [])
  {
    x := new Session.Session(Session.Listener, [], [1], Session.Profile(vault, "", a, AdmitAll()));
    y := new Session.Session(Session.Connector, [], [2], Session.Profile(vault, "", b, AdmitAll()));
  }

  lemma EndsMeet(x: Party, y: Party, vault: string, a: NodeId, b: NodeId, authored: set<Oid>)
    requires x.profile == Session.Profile(vault, "", a, AdmitAll()) && y.profile == Session.Profile(vault, "", b, AdmitAll())
    requires x.link == Session.Link(Session.Listener, [], [1], Session.AwaitHello, None, false, [])
    requires y.link == Session.Link(Session.Connector, [], [2], Session.AwaitHello, None, false, [])
    requires HonestHistory(authored) && Honest(x.node, authored) && Honest(y.node, authored)
    ensures Ready(x, y, authored)
  {
    hide Honest, HonestHistory;
  }

  /** A node that has committed and a fresh one meet, under any schedule: the session hears at
      least the six opening messages, and both end with the committed files as `main`. */
  method CommitAndMeet(vault: string, a: NodeId, b: NodeId, order: EntryOrder, thread: Caches, scoped: Files, schedule: nat -> bool)
    returns (o: Oid, heard: nat, mainA: Option<Oid>, mainB: Option<Oid>)
    requires thread.Valid() && scoped != map[]
    modifies thread
    ensures heard >= 6 && mainA == mainB == Some(Wrapper(o))
  {
    hide FrontierOf, MainOf, Honest, HonestHistory, Fresh, Consistent, Wrapper, Ready, Exchange, CommitResult;
    var va: MemEngine;
    ghost var n0: Node;
    va, o, n0 := CommittingNode(a, order, thread, scoped);
    var vb := FreshNode(b, order, thread);
    FreshHonest(vb.View(), {o});
    var x, y := TwoEnds(vault, a, b);
    EndsMeet(PartyOf(x, va), PartyOf(y, vb), vault, a, b, {o});
    ghost var p, q := PartyOf(x, va), PartyOf(y, vb);
    ghost var states: seq<Net>, reports: seq<Result<Session.Step>>;
    heard, states, reports := Converse(x, va, y, vb, schedule, {o});
    mainA, mainB := va.main, vb.main;
    SessionHears(states, reports, {o});
    KnowsOne(states, reports, o);
  }

  lemma SessionHears(states: seq<Net>, reports: seq<Result<Session.Step>>, authored: set<Oid>)
    requires Exchange(states, reports, authored) && states[|reports|].toA == [] && states[|reports|].toB == []
    ensures |reports| >= 6
  {
    hide NetInit, NetNext, Request, Answer;
    ExchangeConverges(states, reports, authored);
  }

  lemma KnowsOne(states: seq<Net>, reports: seq<Result<Session.Step>>, o: Oid)
    requires Exchange(states, reports, {o}) && states[|reports|].toA == [] && states[|reports|].toB == []
    requires states[0].a.node.known == [o] && states[0].b.node.known == [] && FrontierOf({o}) == [o]
    ensures states[|reports|].a.node.main == Some(Wrapper(o))
  {
    hide NetInit, NetNext, Says, Said, PartyAt, Honest, HonestHistory, FrontierOf, MainOf, Wrapper;
    hide PrimitivesBelowAll, Ready;
    var w, w0 := states[|reports|], states[0];
    ExchangeIsReady(states, reports, {o});
    var i, j := ExchangeGoesWell(states, reports, {o}, |reports|);
    QuietMeansDone(w, w0, {o}, i, j);
    AtTheEnd(w.a, w0.a, w0.b, {o});
    HonestIsConsistent(w.a.node, {o});
    NoFrontier();
    assert Elements(w0.b.node.known) == {} && Elements(w0.a.node.known) == {o};
    OnlyItself(o);
    assert Elements(w.a.node.known) == {o};
  }

  lemma ExchangeIsReady(states: seq<Net>, reports: seq<Result<Session.Step>>, authored: set<Oid>)
    requires Exchange(states, reports, authored)
    ensures Ready(states[0].a, states[0].b, authored)
  {
    hide Ready, NetNext;
  }

  lemma NoFrontier()
    ensures FrontierOf({}) == [] && PrimitivesBelowAll([]) == {}
  {
    assert Effective({}) == {};
  }

  // ---- A bootstrap mark that stays ----

  /** A marked node that lacks nothing of its peer's frontier asks for nothing, keeps its mark, and
      commits nothing afterwards. */
  lemma MarkStays(states: seq<Net>, reports: seq<Result<Session.Step>>, authored: set<Oid>, scoped: Files, node: NodeId, now: nat, bucket: string,
      n': Node, r: Result<Option<Oid>>)
    requires Exchange(states, reports, authored) && states[|reports|].toA == [] && states[|reports|].toB == []
    requires states[0].a.node.bootstrapPending && Wants(states[0].a, states[0].b) == []
    requires CommitResult(states[|reports|].a.node, scoped, node, now, bucket, n', r)
    ensures n' == states[|reports|].a.node && r == Ok(None)
  {
    hide NetInit, NetNext, Says, Said, PartyAt, Ready, Honest, HonestHistory, FrontierOf, PrimitivesBelowAll, Wants;
    var w, w0 := states[|reports|], states[0];
    ExchangeIsReady(states, reports, authored);
    var i, j := ExchangeGoesWell(states, reports, authored, |reports|);
    QuietMeansDone(w, w0, authored, i, j);
    AtTheEnd(w.a, w0.a, w0.b, authored);
  }

  lemma FreshWantsNothing(x: Party, y: Party)
    requires y.node.known == []
    ensures Wants(x, y) == []
  {
    NoFrontier();
    assert Elements(y.node.known) == {};
  }

  /** The smallest case: a marked fresh node meets a fresh one, and then cannot commit anything. */
  method FreshNodeStaysMarked(vault: string, a: NodeId, b: NodeId, order: EntryOrder, thread: Caches, scoped: Files, schedule: nat -> bool)
    returns (marked: bool, committed: Result<Option<Oid>>)
    requires thread.Valid()
    modifies thread
    ensures marked && committed == Ok(None)
  {
    hide FrontierOf, Honest, HonestHistory, Fresh, Consistent, Ready, Exchange, CommitResult;
    var va := FreshNode(a, order, thread);
    var vb := FreshNode(b, order, thread);
    FreshHonest(va.View(), {});
    FreshHonest(vb.View(), {});
    NothingAuthored();
    ghost var n := va.View();
    va.MarkBootstrapPending();
    MarkIsHonest(n);
    var x, y := TwoEnds(vault, a, b);
    EndsMeet(PartyOf(x, va), PartyOf(y, vb), vault, a, b, {});
    FreshWantsNothing(PartyOf(x, va), PartyOf(y, vb));
    var heard: nat;
    ghost var states: seq<Net>, reports: seq<Result<Session.Step>>;
    heard, states, reports := Converse(x, va, y, vb, schedule, {});
    ghost var before := va.View();
    committed := va.CommitScoped(scoped, 0, "");
    MarkStays(states, reports, {}, scoped, va.node, 0, "", va.View(), committed);
    marked := va.state.bootstrapPending;
    MarkIsKept(states, reports, {});
  }

  lemma MarkIsHonest(n: Node)
    requires Honest(n, {})
    ensures Honest(n.(bootstrapPending := true), {})
  {
    hide Consistent, MainOf;
    ConsistentElsewhere(n, n.(bootstrapPending := true));
  }

  lemma MarkIsKept(states: seq<Net>, reports: seq<Result<Session.Step>>, authored: set<Oid>)
    requires Exchange(states, reports, authored) && states[|reports|].toA == [] && states[|reports|].toB == []
    requires states[0].a.node.bootstrapPending && Wants(states[0].a, states[0].b) == []
    ensures states[|reports|].a.node.bootstrapPending
  {
    hide NetInit, NetNext, Says, Said, PartyAt, Ready, Honest, HonestHistory, FrontierOf, PrimitivesBelowAll, Wants;
    var w, w0 := states[|reports|], states[0];
    ExchangeIsReady(states, reports, authored);
    var i, j := ExchangeGoesWell(states, reports, authored, |reports|);
    QuietMeansDone(w, w0, authored, i, j);
    AtTheEnd(w.a, w0.a, w0.b, authored);
  }
}
