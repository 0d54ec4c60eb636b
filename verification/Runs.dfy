/** Runs of any number of nodes: commits, deliveries in any order, with loss and repetition,
    snapshots, and local changes. What holds of every state such a run can reach. */
module Runs {
  import opened Prelude
  import opened Objects
  import opened Store
  import opened Dag
  import opened Order
  import opened Touch
  import opened Fold
  import opened FoldLaws
  import opened Signing
  import opened State
  import opened Materialize
  import opened Engine
  import opened CommitLaws

  /** All primitives authored so far: honest histories in which counters rise along ancestry. */
  ghost predicate HonestHistory(authored: set<Oid>) {
    forall p :: p in authored ==> IsPrimitive(p) && Sound(p) && RisesTo(p, authored)
  }

  ghost predicate RisesTo(p: Oid, authored: set<Oid>) {
    forall q :: q in PrimitivesBelow(p) ==> q in authored && (q != p ==> CounterOf(q) < CounterOf(p))
  }

  /** Every primitive in the store is known. */
  ghost predicate AllKnown(n: Node) {
    forall o :: o in n.objs && IsEdit(n.objs[o]) ==> o in n.known
  }

  /** A node that knows only authored primitives, all it holds of them, and is up to date. */
  ghost predicate Honest(n: Node, authored: set<Oid>) {
    Consistent(n) && Current(n) && AllKnown(n) && Elements(n.known) <= authored
  }

  /** The known set is closed under primitive ancestors. */
  lemma KnownIsClosed(n: Node, o: Oid)
    requires Consistent(n) && AllKnown(n) && o in n.known
    ensures PrimitivesBelow(o) <= Elements(n.known)
  {
    hide Ancestors, Closed, Addressed;
    AddressedPreimage(n.objs, o);
    ClosedIsWalkable(n.objs, o);
    forall q | q in PrimitivesBelow(o)
      ensures q in n.known
    {
      assert HasCommit(n.objs, q);
      AddressedPreimage(n.objs, q);
    }
  }

  // ---- Committing ----

  /** `main` is honest, every primitive below it is known, and its counter has been observed. */
  lemma MainIsHonest(n: Node, authored: set<Oid>)
    requires HonestHistory(authored) && Honest(n, authored)
    ensures Sound(MainOf(Elements(n.known))) && Foldable(FrontierOf(Elements(n.known)))
    ensures forall q :: q in PrimitivesBelow(MainOf(Elements(n.known))) ==> q in n.known && CounterOf(q) <= n.observed
  {
    hide Sound, Consistent, IsPrimitive, FrontierOf, MainOf, Foldable, PrimitivesBelow, AllKnown, CounterOf;
    var known := Elements(n.known);
    MainIsSound(known);
    MainPrimitives(known);
    FrontierIsKnown(known);
    forall q | q in PrimitivesBelow(MainOf(known))
      ensures q in n.known && CounterOf(q) <= n.observed
    {
      var tip :| tip in FrontierOf(known) && q in PrimitivesBelow(tip);
      KnownIsClosed(n, tip);
      CounterIsObserved(n, q);
    }
  }

  lemma CounterIsObserved(n: Node, o: Oid)
    requires Consistent(n) && o in n.known
    ensures CounterOf(o) <= n.observed
  {
  }

  /** A primitive authored on `main` extends the honest history. */
  lemma CommitExtendsHistory(n: Node, authored: set<Oid>, o: Oid, c: CommitObj)
    requires HonestHistory(authored) && Honest(n, authored)
    requires CommitAt(o) == Some(c) && IsPrimitive(o) && VerifyPrimitive(c)
    requires Parents(o) == [MainOf(Elements(n.known))] && CounterOf(o) == n.observed + 1
    ensures HonestHistory(authored + {o})
  {
    hide Ancestors, IsPrimitive, MainOf, CounterOf, Current, Consistent, AllKnown, VerifyPrimitive;
    var m := MainOf(Elements(n.known));
    MainIsHonest(n, authored);
    LineageOfOne(o, m);
    BelowOneMore(o, m);
    assert SoundCommit(o);
    assert Sound(o);
    assert RisesTo(o, authored + {o});
  }

  lemma BelowOneMore(o: Oid, m: Oid)
    requires Lineage(o) == {o} + Lineage(m) && IsPrimitive(o)
    ensures PrimitivesBelow(o) == {o} + PrimitivesBelow(m)
  {
  }

  lemma CommitKeepsHonest(n: Node, authored: set<Oid>, scoped: Files, node: NodeId, now: nat, bucket: string, n': Node, r: Result<Option<Oid>>)
    requires HonestHistory(authored) && Honest(n, authored) && Consistent(n')
    requires CommitResult(n, scoped, node, now, bucket, n', r)
    ensures HonestHistory(authored + Elements(n'.known)) && Honest(n', authored + Elements(n'.known))
    ensures n'.snapshots == n.snapshots
  {
    hide HonestHistory, Consistent, AllKnown, Current, Published, Quarantined, Undone, SetAside, Authors, Authored;
    hide MainOf, IsPrimitive, VerifyPrimitive;
    if n.bootstrapPending {
      assert authored + Elements(n'.known) == authored;
      return;
    }
    var parent := ParentFor(n);
    var published := Published(parent, n.materialized, scoped);
    var stale := Quarantined(parent, n.materialized, scoped);
    var mid: Node :| SetAside(n, stale, bucket, mid) &&
      if Unchanged(mid, published) then
        r == Ok(None) && Grown(n.objs, n'.objs) && n' == mid.(objs := n'.objs)
      else
        exists c :: Authors(c, node, n, published, Undone(parent, n.materialized, scoped), now) && Authored(mid, published, c, n', r);
    SetAsideKeeps(n, stale, bucket, mid);
    if Unchanged(mid, published) {
      assert authored + Elements(n'.known) == authored;
      GrowthKeepsHonest(n, authored, n');
    } else {
      var c :| Authors(c, node, n, published, Undone(parent, n.materialized, scoped), now) && Authored(mid, published, c, n', r);
      KnownAfter(mid, published, c, n', r);
      AuthoringKeepsHonest(n, authored, scoped, node, now, bucket, n', r, mid, c);
    }
  }

  lemma AuthoringKeepsHonest(n: Node, authored: set<Oid>, scoped: Files, node: NodeId, now: nat, bucket: string, n': Node,
      r: Result<Option<Oid>>, mid: Node, c: CommitObj)
    requires HonestHistory(authored) && Honest(n, authored) && Consistent(n')
    requires Committed(n, scoped, node, now, bucket, n', r)
    requires mid.known == n.known && mid.objs == n.objs && mid.observed == n.observed && mid.snapshots == n.snapshots
    requires Authors(c, node, n, Published(ParentFor(n), n.materialized, scoped), Undone(ParentFor(n), n.materialized, scoped), now)
    requires Authored(mid, Published(ParentFor(n), n.materialized, scoped), c, n', r)
    ensures HonestHistory(authored + Elements(n'.known)) && Honest(n', authored + Elements(n'.known))
    ensures n'.snapshots == n.snapshots
  {
    hide HonestHistory, Consistent, AllKnown, Published, Undone, Authors, Authored, MainOf, IsPrimitive;
    hide VerifyPrimitive, CommitResult, Grown;
    var published := Published(ParentFor(n), n.materialized, scoped);
    var o := Sha(Commit(c));
    AfterCommit(n, scoped, node, now, bucket, n', r);
    AuthoredCommit(c, node, n, published, Undone(ParentFor(n), n.materialized, scoped), now);
    KnownAfter(mid, published, c, n', r);
    CommitExtendsHistory(n, authored, o, c);
    assert authored + Elements(n'.known) == authored + {o};
    CommitKeepsAllKnown(n, c, n');
  }

  lemma CommitKeepsAllKnown(n: Node, c: CommitObj, n': Node)
    requires AllKnown(n) && Grown(n.objs[Sha(Commit(c)) := Commit(c)], n'.objs)
    requires Elements(n'.known) == Elements(n.known) + {Sha(Commit(c))}
    ensures AllKnown(n')
  {
    forall o | o in n'.objs && IsEdit(n'.objs[o])
      ensures o in Elements(n'.known)
    {
    }
  }

  /** Work that stores no primitive, and leaves what is known alone. */
  lemma GrowthKeepsHonest(n: Node, authored: set<Oid>, n': Node)
    requires Honest(n, authored) && Consistent(n')
    requires Extends(n.objs, n'.objs) && n'.known == n.known && n'.main == n.main
    ensures Honest(n', authored)
  {
  }

  // ---- Deliveries ----

  /** Every commit of a batch belongs to the history of something a node authored. */
  ghost predicate FromNodes(raws: Batch, authored: set<Oid>) {
    forall obj :: Some(obj) in raws && obj.Commit? ==> exists p :: p in authored && Sha(obj) in Lineage(p)
  }

  /** A batch nothing is missing from, once the receiver's own store is counted. */
  ghost predicate ClosedBatch(n: Node, raws: Batch) {
    AllDecode(raws) && Closed(PutAll(n.objs, raws))
  }

  lemma BatchCommit(raws: Batch, authored: set<Oid>, obj: GitObject)
    requires HonestHistory(authored) && FromNodes(raws, authored) && Some(obj) in raws && obj.Commit?
    ensures Sound(Sha(obj)) && CommitAt(Sha(obj)) == Some(obj.commit)
    ensures Primitive(obj.commit) ==> Sha(obj) in authored && VerifyPrimitive(obj.commit)
  {
    hide Ancestors;
    var p :| p in authored && Sha(obj) in Lineage(p);
    SoundBelow(p, Sha(obj));
    PreimageOfSha(obj);
    assert Sha(obj) in Lineage(Sha(obj));
    if Primitive(obj.commit) {
      assert RisesTo(p, authored);
      assert Sha(obj) in PrimitivesBelow(p);
    }
  }

  /** Honest batches are never spoiled, and all their primitives are admitted. */
  lemma BatchIsAdmitted(raws: Batch, authored: set<Oid>)
    requires HonestHistory(authored) && FromNodes(raws, authored)
    ensures !Spoiled(raws)
    ensures forall obj :: Some(obj) in raws && IsEdit(obj) ==> Admissible(Some(obj)) && Sha(obj) in authored
  {
    hide FromNodes, HonestHistory, Sound, FoldValid, VerifyPrimitive;
    forall obj | Some(obj) in raws && obj.Commit?
      ensures FoldValid(Sha(obj)) && (Primitive(obj.commit) ==> VerifyPrimitive(obj.commit) && Sha(obj) in authored)
    {
      BatchCommit(raws, authored, obj);
      SoundVerifies(Sha(obj));
    }
  }

  lemma {:induction false} PutAllHas(m: ObjectMap, raws: Batch, o: Oid)
    requires AllDecode(raws) && o in PutAll(m, raws)
    ensures (o in m && PutAll(m, raws)[o] == m[o]) || (Some(PutAll(m, raws)[o]) in raws && Sha(PutAll(m, raws)[o]) == o)
    decreases |raws|
  {
    if raws != [] {
      assert raws[0] in raws;
      var obj := raws[0].value;
      assert forall r :: r in raws[1..] ==> r in raws;
      PutAllHas(m[Sha(obj) := obj], raws[1..], o);
    }
  }

  lemma DeliveryKeepsHonest(n: Node, authored: set<Oid>, raws: Batch, n': Node, r: Result<nat>)
    requires HonestHistory(authored) && Honest(n, authored) && Consistent(n')
    requires ClosedBatch(n, raws) && FromNodes(raws, authored) && IntegrateResult(n, raws, n', r)
    ensures Honest(n', authored) && n'.snapshots == n.snapshots
    ensures r.Ok? && forall o :: o in n'.known <==> o in n.known || exists obj :: Some(obj) in raws && IsEdit(obj) && o == Sha(obj)
  {
    hide HonestHistory, FromNodes, Consistent, Spoiled, Admit, ObserveAll, MainOf, FrontierOf, Foldable, Sound;
    hide Closed, Addressed, IsPrimitive, VerifyPrimitive;
    BatchIsAdmitted(raws, authored);
    AdmitOnlyAdds(n.known, raws);
    AdmittedAreEdits(raws, authored);
    IntegrateKnown(n, raws, n', r);
    assert Elements(n'.known) <= authored;
    HonestIsFoldable(authored, Elements(n'.known));
    DeliveryKeepsAllKnown(n, raws, n');
  }

  lemma IntegrateKnown(n: Node, raws: Batch, n': Node, r: Result<nat>)
    requires AllDecode(raws) && !Spoiled(raws) && IntegrateResult(n, raws, n', r)
    ensures n'.known == Admit(n.known, raws) && n'.snapshots == n.snapshots
    ensures Grown(PutAll(n.objs, raws), n'.objs)
    ensures n'.known == n.known ==> r.Ok? && n'.main == n.main
    ensures n'.known != n.known ==> (r.Ok? <==> Foldable(FrontierOf(Elements(n'.known)))) && (r.Ok? ==> n'.main == Some(MainOf(Elements(n'.known))))
  {
    hide Grown, Spoiled, Admit, ObserveAll, MainOf, FrontierOf, Foldable, HasCommit;
  }

  lemma AdmittedAreEdits(raws: Batch, authored: set<Oid>)
    requires forall obj :: Some(obj) in raws && IsEdit(obj) ==> Admissible(Some(obj)) && Sha(obj) in authored
    ensures forall r :: r in raws && Admissible(r) ==> IsEdit(r.value) && Sha(r.value) in authored
  {
    forall r | r in raws && Admissible(r)
      ensures IsEdit(r.value) && Sha(r.value) in authored
    {
      VerifiedIsPrimitive(r.value.commit);
      assert r == Some(r.value);
    }
  }

  lemma HonestIsFoldable(authored: set<Oid>, known: set<Oid>)
    requires HonestHistory(authored) && known <= authored
    ensures Foldable(FrontierOf(known))
  {
    MainIsSound(known);
  }

  lemma DeliveryKeepsAllKnown(n: Node, raws: Batch, n': Node)
    requires AllKnown(n) && AllDecode(raws) && Grown(PutAll(n.objs, raws), n'.objs)
    requires forall o :: o in n.known ==> o in n'.known
    requires forall obj :: Some(obj) in raws && IsEdit(obj) ==> Sha(obj) in n'.known
    ensures AllKnown(n')
  {
    forall o | o in n'.objs && IsEdit(n'.objs[o])
      ensures o in n'.known
    {
      assert o in PutAll(n.objs, raws);
      PutAllHas(n.objs, raws, o);
    }
  }

  // ---- Runs ----

  /** A node, and for each saved name the `main` it had when it was saved. */
  datatype Tracked = Tracked(node: Node, saved: map<string, Oid>)

  datatype System = System(nodes: map<NodeId, Tracked>, authored: set<Oid>)

  ghost predicate SnapshotsStand(t: Tracked) {
    && t.saved.Keys == t.node.snapshots.Keys
    && forall name :: name in t.saved ==>
         var tips := Elements(t.node.snapshots[name]);
         MainOf(tips) == t.saved[name] && Foldable(FrontierOf(tips))
  }

  ghost predicate Invariant(s: System) {
    HonestHistory(s.authored) && forall id :: id in s.nodes ==> Honest(s.nodes[id].node, s.authored) && SnapshotsStand(s.nodes[id])
  }

  ghost predicate Fresh(n: Node) {
    exists objs :: Grown(map[], objs) && HasCommit(objs, M0()) && n == Node(objs, [], 0, 0, map[], map[], false, Some(M0()), map[], [])
  }

  ghost predicate Init(s: System) {
    s.authored == {} && forall id :: id in s.nodes ==> Fresh(s.nodes[id].node) && s.nodes[id].saved == map[]
  }

  ghost predicate CommitStep(id: NodeId, t: Tracked, authored: set<Oid>, t': Tracked, authored': set<Oid>) {
    && t'.saved == t.saved && authored' == authored + Elements(t'.node.known)
    && exists scoped, now, bucket, r :: CommitResult(t.node, scoped, id, now, bucket, t'.node, r)
  }

  /** Any honest closed batch, however old, whoever sent it, and however often. */
  ghost predicate DeliverStep(t: Tracked, authored: set<Oid>, t': Tracked) {
    t'.saved == t.saved && exists raws, r :: ClosedBatch(t.node, raws) && FromNodes(raws, authored) && IntegrateResult(t.node, raws, t'.node, r)
  }

  ghost predicate SavesAs(t: Tracked, name: string, t': Tracked) {
    && t.node.main.Some?
    && t'.node == t.node.(snapshots := t.node.snapshots[name := FrontierOf(Elements(t.node.known))])
    && t'.saved == t.saved[name := t.node.main.value]
  }

  ghost predicate SnapshotStep(t: Tracked, t': Tracked) {
    exists name :: SavesAs(t, name, t')
  }

  /** Staging, planning, restoring and bootstrap marks: anything that knows no new primitive. */
  ghost predicate LocalStep(t: Tracked, t': Tracked) {
    && t'.saved == t.saved && Extends(t.node.objs, t'.node.objs)
    && t'.node.known == t.node.known && t'.node.main == t.node.main && t'.node.snapshots == t.node.snapshots
  }

  /** Every operation keeps `Consistent`, whatever it is called with. */
  ghost predicate NodeStep(id: NodeId, t: Tracked, authored: set<Oid>, t': Tracked, authored': set<Oid>) {
    Consistent(t'.node) &&
    (CommitStep(id, t, authored, t', authored')
      || (authored' == authored && (DeliverStep(t, authored, t') || SnapshotStep(t, t') || LocalStep(t, t'))))
  }

  ghost predicate Next(s: System, s': System) {
    exists id, t' :: id in s.nodes && NodeStep(id, s.nodes[id], s.authored, t', s'.authored) && s'.nodes == s.nodes[id := t']
  }

  ghost predicate Run(states: seq<System>) {
    states != [] && Init(states[0]) && forall i :: 0 <= i < |states| - 1 ==> Next(states[i], states[i + 1])
  }

  lemma FreshIsHonest(n: Node)
    requires Fresh(n)
    ensures Honest(n, {})
  {
    assert Effective({}) == {};
    assert FrontierOf({}) == [];
    assert Elements(n.known) == {};
  }

  lemma StepKeepsHonest(id: NodeId, t: Tracked, authored: set<Oid>, t': Tracked, authored': set<Oid>)
    requires HonestHistory(authored) && Honest(t.node, authored) && SnapshotsStand(t)
    requires NodeStep(id, t, authored, t', authored')
    ensures HonestHistory(authored') && Honest(t'.node, authored') && SnapshotsStand(t') && authored <= authored'
  {
    hide HonestHistory, Consistent, CommitResult, IntegrateResult, AllKnown, MainOf, FrontierOf, Foldable, FromNodes;
    hide ClosedBatch, Extends;
    if CommitStep(id, t, authored, t', authored') {
      var scoped, now, bucket, r :| CommitResult(t.node, scoped, id, now, bucket, t'.node, r);
      CommitKeepsHonest(t.node, authored, scoped, id, now, bucket, t'.node, r);
    } else if DeliverStep(t, authored, t') {
      var raws, r :| ClosedBatch(t.node, raws) && FromNodes(raws, authored) && IntegrateResult(t.node, raws, t'.node, r);
      DeliveryKeepsHonest(t.node, authored, raws, t'.node, r);
    } else if SnapshotStep(t, t') {
      SnapshotStands(t, authored, t');
    } else {
      GrowthKeepsHonest(t.node, authored, t'.node);
    }
  }

  /** What is saved folds to `main` as it is now. */
  lemma SnapshotStands(t: Tracked, authored: set<Oid>, t': Tracked)
    requires HonestHistory(authored) && Honest(t.node, authored) && SnapshotsStand(t) && SnapshotStep(t, t') && Consistent(t'.node)
    ensures Honest(t'.node, authored) && SnapshotsStand(t')
  {
    hide HonestHistory, Consistent, MainOf, FrontierOf, Foldable;
    var known := Elements(t.node.known);
    FrontierStandsForAll(known);
    HonestIsFoldable(authored, known);
  }

  lemma MoreAuthored(n: Node, authored: set<Oid>, authored': set<Oid>)
    requires Honest(n, authored) && authored <= authored'
    ensures Honest(n, authored')
  {
  }

  lemma NextKeepsInvariant(s: System, s': System)
    requires Invariant(s) && Next(s, s')
    ensures Invariant(s') && s.authored <= s'.authored
  {
    hide NodeStep, Honest, SnapshotsStand, HonestHistory;
    var id, t' :| id in s.nodes && NodeStep(id, s.nodes[id], s.authored, t', s'.authored) && s'.nodes == s.nodes[id := t'];
    StepKeepsHonest(id, s.nodes[id], s.authored, t', s'.authored);
    forall other | other in s'.nodes && other != id
      ensures Honest(s'.nodes[other].node, s'.authored)
    {
      MoreAuthored(s.nodes[other].node, s.authored, s'.authored);
    }
  }

  /** Every state of every run. */
  lemma {:induction false} RunKeepsInvariant(states: seq<System>, i: nat)
    requires Run(states) && i < |states|
    ensures Invariant(states[i])
  {
    hide Next;
    if i == 0 {
      forall id | id in states[0].nodes
        ensures Honest(states[0].nodes[id].node, {})
      {
        FreshIsHonest(states[0].nodes[id].node);
      }
    } else {
      RunKeepsInvariant(states, i - 1);
      assert Next(states[i - 1], states[i - 1 + 1]);
      NextKeepsInvariant(states[i - 1], states[i]);
    }
  }

  // ---- What every reachable state satisfies ----

  /** The strict total order extends ancestry: nothing is folded before what it was built on. */
  lemma OrderExtendsAncestry(states: seq<System>, i: nat, p: Oid, q: Oid)
    requires Run(states) && i < |states|
    requires p in states[i].authored && q in states[i].authored && p in Ancestors(q)
    ensures KeyLess(KeyOf(p), KeyOf(q))
  {
    hide Ancestors, IsPrimitive;
    RunKeepsInvariant(states, i);
    assert RisesTo(q, states[i].authored);
    AncestorRank(q, p);
    assert p in PrimitivesBelow(q);
  }

  /** Every node's known set is closed under primitive ancestors, its clock bounds every known
      counter, `main` is the fold of the known set, and every effective primitive is below it. */
  lemma ReachableNodes(states: seq<System>, i: nat, id: NodeId, o: Oid)
    requires Run(states) && i < |states| && id in states[i].nodes && o in states[i].nodes[id].node.known
    ensures var n := states[i].nodes[id].node;
      && PrimitivesBelow(o) <= Elements(n.known) && CounterOf(o) <= n.observed
      && n.main == Some(MainOf(Elements(n.known))) && Foldable(FrontierOf(Elements(n.known)))
      && (!GhostAdd(o) ==> o in Ancestors(n.main.value))
  {
    hide MainOf, FrontierOf, Foldable, GhostAdd, Ancestors, HonestHistory, AllKnown;
    RunKeepsInvariant(states, i);
    var n := states[i].nodes[id].node;
    KnownIsClosed(n, o);
    HonestIsFoldable(states[i].authored, Elements(n.known));
    if !GhostAdd(o) {
      EffectiveBelowMain(Elements(n.known), o);
    }
  }

  /** Two nodes that know the same effective primitives have the same `main`, in any reachable
      state, whatever order they learned them in and whatever else each of them knows. */
  lemma ReachableNodesAgree(states: seq<System>, i: nat, a: NodeId, b: NodeId)
    requires Run(states) && i < |states| && a in states[i].nodes && b in states[i].nodes
    requires Effective(Elements(states[i].nodes[a].node.known)) == Effective(Elements(states[i].nodes[b].node.known))
    ensures states[i].nodes[a].node.main == states[i].nodes[b].node.main
  {
    hide MainOf, Effective;
    RunKeepsInvariant(states, i);
    MainIgnoresGhostAdds(Elements(states[i].nodes[a].node.known), Elements(states[i].nodes[b].node.known));
  }

  /** Restoring a snapshot, however much later, returns the files `main` had when it was saved. */
  lemma RestoreIsExact(states: seq<System>, i: nat, id: NodeId, name: string)
    requires Run(states) && i < |states| && id in states[i].nodes && name in states[i].nodes[id].node.snapshots
    ensures var t := states[i].nodes[id];
      && name in t.saved && Foldable(FrontierOf(Elements(t.node.snapshots[name])))
      && FilesAt(MainOf(Elements(t.node.snapshots[name]))) == FilesAt(t.saved[name])
  {
    hide MainOf, FrontierOf, Foldable, Honest, HonestHistory;
    RunKeepsInvariant(states, i);
  }
}
