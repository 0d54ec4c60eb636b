/** The in-memory engine (engine.rs): commit the working set, integrate received objects, plan what
    to put on disk, and take and restore snapshots. */
module Engine {
  import opened Prelude
  import opened Objects
  import opened Store
  import opened Dag
  import opened Trees
  import opened TreeCodec
  import opened Order
  import opened Touch
  import opened GhostAdds
  import opened Fold
  import opened Signing
  import opened State
  import opened Materialize
  import opened Reach
  import Scope

  /** All of a node's state that another call can observe. */
  datatype Node = Node(
    objs: ObjectMap,
    known: seq<Oid>,
    counter: nat,
    observed: nat,
    materialized: Hashes,
    snapshots: map<string, seq<Oid>>,
    bootstrapPending: bool,
    main: Option<Oid>,
    working: Files,
    quarantines: seq<MaterializeOp>)

  ghost function CounterOf(o: Oid): nat {
    KeyOf(o).counter
  }

  /** What every operation keeps, whatever batches the node is sent. */
  ghost predicate Workable(n: Node) {
    && Addressed(n.objs)
    && NoDuplicates(n.known)
    && (forall o :: o in n.known ==> o in n.objs && IsPrimitive(o) && CounterOf(o) <= n.observed)
    && (n.main.Some? ==> HasCommit(n.objs, n.main.value))
    && (forall name :: name in n.snapshots ==> SavedTips(n.objs, n.snapshots[name]))
  }

  /** The same, and no object it refers to is missing. */
  ghost predicate Consistent(n: Node) {
    Workable(n) && Closed(n.objs)
  }

  ghost predicate SavedTips(m: ObjectMap, tips: seq<Oid>) {
    NoDuplicates(tips) && forall o :: o in tips ==> o in m
  }

  // ---- Commit ----

  /** The commit a new primitive is authored on. */
  ghost function ParentFor(n: Node): Oid {
    if n.main.Some? then n.main.value else M0()
  }

  /** The delete that bringing `path` back would undo, if its latest touch is one. */
  ghost function Undoes(parent: Oid, path: Path): Option<Oid> {
    if Visible(TreeOf(parent), path) then None
    else
      match MostRecent(parent, path)
      case Some((d, Delete)) => Some(d)
      case _ => None
  }

  /** A deleted path that this device still had on disk is stale, not a new file. */
  ghost predicate Stale(parent: Oid, materialized: Hashes, path: Path) {
    Undoes(parent, path).Some? && path in materialized
  }

  ghost function Published(parent: Oid, materialized: Hashes, scoped: Files): Files {
    map p | p in scoped && !Stale(parent, materialized, p) :: scoped[p]
  }

  ghost function Quarantined(parent: Oid, materialized: Hashes, scoped: Files): set<Path> {
    set p | p in scoped && Stale(parent, materialized, p)
  }

  /** The deletes that the published paths undo. */
  ghost function Undone(parent: Oid, materialized: Hashes, scoped: Files): set<Oid> {
    set p | p in Published(parent, materialized, scoped) && Undoes(parent, p).Some? :: Undoes(parent, p).value
  }

  /** `n` with the stale paths forgotten and queued for the host to move aside. */
  ghost predicate SetAside(n: Node, stale: set<Path>, bucket: string, n': Node) {
    && n'.working == n.working - stale
    && n'.materialized == n.materialized - stale
    && n.quarantines <= n'.quarantines
    && (forall op :: op in n'.quarantines[|n.quarantines|..] <==> exists p :: p in stale && op == QuarantineOp(bucket, p))
    && n' == n.(working := n'.working, materialized := n'.materialized, quarantines := n'.quarantines)
  }

  /** Nothing to publish: the published set is what was last put on disk. */
  ghost predicate Unchanged(n: Node, published: Files) {
    n.materialized == HashesOf(published)
  }

  /** The primitive a node authors over `published`. */
  ghost predicate Authors(c: CommitObj, node: NodeId, n: Node, published: Files, undone: set<Oid>, now: nat) {
    exists readds :: Elements(readds) == undone &&
      c == BuildPrimitive(node, TreeId(published), ParentFor(n), n.observed + 1, now, readds)
  }

  /** A new primitive `c` was stored, made known, and folded into `main`. */
  ghost predicate Authored(mid: Node, published: Files, c: CommitObj, n': Node, r: Result<Option<Oid>>) {
    var o := Sha(Commit(c));
    var known := AddOne(mid.known, o);
    var folded := MainOf(Elements(known));
    var authored := mid.(objs := n'.objs, known := known, counter := mid.observed + 1, observed := mid.observed + 1);
    && Grown(mid.objs[o := Commit(c)], n'.objs) && Closed(n'.objs)
    && (r.Ok? <==> Foldable(FrontierOf(Elements(known))))
    && (r.Ok? ==> r.value == Some(o) && HasCommit(n'.objs, folded))
    && n' == if r.Ok? then authored.(main := Some(folded), materialized := HashesOf(published)) else authored
  }

  ghost predicate CommitResult(n: Node, scoped: Files, node: NodeId, now: nat, bucket: string, n': Node, r: Result<Option<Oid>>) {
    if n.bootstrapPending then
      n' == n && r == Ok(None)
    else
      var parent := ParentFor(n);
      var published := Published(parent, n.materialized, scoped);
      exists mid: Node ::
        && SetAside(n, Quarantined(parent, n.materialized, scoped), bucket, mid)
        && if Unchanged(mid, published) then
             r == Ok(None) && Grown(n.objs, n'.objs) && n' == mid.(objs := n'.objs)
           else
             exists c :: Authors(c, node, n, published, Undone(parent, n.materialized, scoped), now) && Authored(mid, published, c, n', r)
  }

  // ---- Integrate ----

  /** Objects off the wire; `None` is one that does not decode. */
  type Batch = seq<Option<GitObject>>

  predicate AllDecode(raws: Batch) {
    forall r | r in raws :: r.Some?
  }

  /** Everything up to the first object that does not decode goes into the store. */
  function PutAll(m: ObjectMap, raws: Batch): ObjectMap
    decreases |raws|
  {
    if raws == [] || raws[0].None? then m
    else PutAll(m[Sha(raws[0].value) := raws[0].value], raws[1..])
  }

  /** A received fold commit that does not reproduce spoils the whole batch. */
  ghost predicate Spoiled(raws: Batch) {
    exists obj :: Some(obj) in raws && IsFold(obj) && !FoldValid(Sha(obj))
  }

  predicate Admissible(r: Option<GitObject>) {
    r.Some? && r.value.Commit? && VerifyPrimitive(r.value.commit)
  }

  /** The known list after every primitive of the batch whose signature holds was added. */
  function Admit(known: seq<Oid>, raws: Batch): seq<Oid> {
    if raws == [] then known
    else
      var before := Admit(known, raws[..|raws| - 1]);
      var r := raws[|raws| - 1];
      if Admissible(r) then AddOne(before, Sha(r.value)) else before
  }

  function ObserveAll(observed: nat, raws: Batch): nat {
    if raws == [] then observed
    else
      var before := ObserveAll(observed, raws[..|raws| - 1]);
      var r := raws[|raws| - 1];
      if Admissible(r) then Max(before, r.value.commit.message.counter) else before
  }

  ghost predicate IntegrateResult(n: Node, raws: Batch, n': Node, r: Result<nat>) {
    if !AllDecode(raws) then
      r.Err? && n' == n.(objs := PutAll(n.objs, raws))
    else if Spoiled(raws) then
      r == Ok(0) && Grown(PutAll(n.objs, raws), n'.objs) && n' == n.(objs := n'.objs)
    else
      var known, observed := Admit(n.known, raws), ObserveAll(n.observed, raws);
      && Grown(PutAll(n.objs, raws), n'.objs)
      && |n.known| <= |known|
      && var admitted := n.(objs := n'.objs, known := known, observed := observed);
         if known == n.known then r == Ok(0) && n' == admitted
         else
           var folded := MainOf(Elements(known));
           && (r.Ok? <==> Foldable(FrontierOf(Elements(known))))
           && (r.Ok? ==> r.value == |known| - |n.known| && HasCommit(n'.objs, folded))
           && n' == if r.Ok? then admitted.(main := Some(folded)) else admitted
  }

  // ---- Integrating what is not complete ----

  predicate IsFold(obj: GitObject) {
    obj.Commit? && !Primitive(obj.commit)
  }

  /** Among the batch is a fold commit that does not reproduce, or that cannot be re-run because
      something is missing. */
  ghost predicate Refusable(m: ObjectMap, raws: Batch) {
    exists obj :: Some(obj) in raws && IsFold(obj) && !(FoldValid(Sha(obj)) && SpineHeld(m, Sha(obj)))
  }

  /** Every primitive of the batch became known; `main` is the fold of what is known as the store shows
      it, or stays as it was if there is no such fold. */
  ghost predicate AdmitsPartly(order: EntryOrder, memo: Memo, n: Node, raws: Batch, n': Node, r: Result<nat>) {
    var known := Admit(n.known, raws);
    var admitted := n.(objs := n'.objs, known := known, observed := ObserveAll(n.observed, raws));
    if known == n.known then r == Ok(0) && n' == admitted
    else
      && (exists m :: FoldsOver(order, memo, PutAll(n.objs, raws), m, raws, known, n', r))
      && n' == (if r.Ok? then admitted.(main := n'.main) else admitted)
      && (r.Ok? ==> r.value == |known| - |n.known|)
  }

  /** `m` is the store the fold is computed on: what was put, and what re-running received folds made. */
  ghost predicate FoldsOver(order: EntryOrder, memo: Memo, put: ObjectMap, m: ObjectMap, raws: Batch, known: seq<Oid>, n': Node, r: Result<nat>) {
    && Extends(put, m) && Extends(m, n'.objs) && ((forall obj :: Some(obj) in raws ==> !IsFold(obj)) ==> m == put)
    && (r.Ok? ==> n'.main == Some(FoldTips(FrontierOn(order, m, memo, Elements(known)))) && HasCommit(n'.objs, n'.main.value))
    && (Cut(order, m, memo, Elements(known)) ==> r.Err? && n'.objs == m)
  }

  /** What a batch does to a node, whether or not anything is missing afterwards. */
  ghost predicate IntegratePartly(order: EntryOrder, memo: Memo, n: Node, raws: Batch, n': Node, r: Result<nat>) {
    if !AllDecode(raws) then
      r.Err? && n' == n.(objs := PutAll(n.objs, raws))
    else
      && Grown(PutAll(n.objs, raws), n'.objs)
      && ((r == Ok(0) && n' == n.(objs := n'.objs) && Refusable(PutAll(n.objs, raws), raws))
          || (!Spoiled(raws) && AdmitsPartly(order, memo, n, raws, n', r)))
  }

  /** The frontier as the store shows it, if and only if the history of none of its candidates is
      cut off. */
  ghost predicate TipsSeen(order: EntryOrder, memo: Memo, n: Node, r: Result<seq<Oid>>) {
    if Cut(order, n.objs, memo, Elements(n.known)) then r.Err? else r == Ok(FrontierOn(order, n.objs, memo, Elements(n.known)))
  }

  // ---- Materialize ----

  ghost predicate PlanResult(n: Node, onDisk: Files, n': Node, ops: seq<MaterializeOp>) {
    n.quarantines <= ops &&
    if n.main.None? then
      ops == n.quarantines && n' == n.(quarantines := [])
    else
      var want := FilesAt(n.main.value);
      && Plans(ops[|n.quarantines|..], n.materialized, onDisk, want)
      && n' == n.(quarantines := [], materialized := Recorded(n.materialized, onDisk, want))
  }

  // ---- The engine ----

  class MemEngine {
    const node: NodeId
    const store: MemStore
    const caches: Caches
    const state: EngineState
    var scope: Scope.ScopeRules
    var main: Option<Oid>
    var working: Files
    var quarantines: seq<MaterializeOp>

    ghost function View(): Node
      reads this, store, state
    {
      Node(store.objs, state.known, state.counter, state.observed, state.materialized, state.snapshots,
           state.bootstrapPending, main, working, quarantines)
    }

    ghost predicate Valid()
      reads this, store, caches, state
    {
      Consistent(View()) && caches.Valid()
    }

    /** As after a batch that left something missing. */
    ghost predicate Usable()
      reads this, store, caches, state
    {
      Workable(View()) && caches.Valid()
    }

    /** The caches are those of the thread, and may already hold what other engines learned. */
    constructor (node: NodeId, scope: Scope.ScopeRules, order: EntryOrder, caches: Caches)
      requires caches.Valid()
      ensures Valid() && fresh(store) && fresh(state)
      ensures this.node == node && this.scope == scope && store.order == order && this.caches == caches
      ensures Grown(map[], store.objs) && store.objs == map[Sha(EMPTY_TREE) := EMPTY_TREE, M0() := Genesis()]
      ensures View() == Node(store.objs, [], 0, 0, map[], map[], false, Some(M0()), map[], [])
    {
      this.node, this.scope := node, scope;
      var s := new MemStore(order);
      var st := new EngineState();
      NothingIsClosed();
      var m0 := MakeGenesis(s);
      store, this.caches, state := s, caches, st;
      main, working, quarantines := Some(m0), map[], [];
    }

    method StageWrite(path: Path, content: Bytes)
      requires Valid()
      modifies this`working
      ensures Valid() && View() == old(View()).(working := old(working)[path := content])
    {
      working := working[path := content];
    }

    method StageRemove(path: Path)
      requires Valid()
      modifies this`working
      ensures Valid() && View() == old(View()).(working := old(working) - {path})
    {
      working := working - {path};
    }

    method MarkBootstrapPending()
      requires Valid()
      modifies state`bootstrapPending
      ensures Valid() && View() == old(View()).(bootstrapPending := true)
    {
      state.bootstrapPending := true;
    }

    method MarkBootstrapComplete()
      requires Usable()
      modifies state`bootstrapPending
      ensures Usable() && View() == old(View()).(bootstrapPending := false)
    {
      state.bootstrapPending := false;
    }

    /** Recompute `main` from the known set. */
    method Recompute() returns (r: Result<()>)
      requires Usable()
      modifies this`main, store, caches
      ensures Usable() && Grown(old(store.objs), store.objs)
      ensures View() == old(View()).(objs := store.objs, main := if r.Ok? then main else old(main))
      ensures r.Ok? ==> main.Some? && HasCommit(store.objs, main.value)
      ensures r.Ok? ==> main.value == FoldTips(FrontierOn(store.order, old(store.objs), old(caches.View()), Elements(state.known)))
      ensures old(Cut(store.order, store.objs, caches.View(), Elements(state.known))) ==> r.Err? && store.objs == old(store.objs)
      ensures old(Closed(store.objs)) ==>
        && (r.Ok? <==> Foldable(FrontierOf(Elements(state.known))))
        && (r.Ok? ==> main == Some(MainOf(Elements(state.known))))
    {
      hide Closed, Addressed, Extends, MainOf, FrontierOf, Foldable, FrontierOn, FoldTips, Cut, GhostAdd, MostRecent;
      hide Workable;
      WorkableMeans(View());
      KnownIsHeld(View());
      assert Held(store.objs, state.known) == Elements(state.known);
      var m := ComputeMain(store, caches, state.known);
      WorkableGrows(old(View()), store.objs);
      if m.Err? {
        return Err(m.error);
      }
      ghost var n := View();
      main := Some(m.value);
      MainMoves(n, m.value);
      return Ok(());
    }

    // ---- Commit ----

    /** The delete that publishing `path` on `parent` would undo. */
    method ProbeUndoes(parent: Oid, tree: Oid, path: Path) returns (d: Option<Oid>)
      requires Valid() && HasCommit(store.objs, parent) && tree == TreeOf(parent)
      modifies caches
      ensures Valid() && d == Undoes(parent, path)
    {
      hide Closed, Addressed;
      ClosedCommit(store.objs, parent);
      ClosedHoldsPath(store.objs, tree, path);
      var present := PathPresentInTree(store, tree, path);
      if present.value {
        return None;
      }
      ClosedHoldsTouch(store.objs, parent, path);
      var touched := caches.MostRecentTouch(store, parent, path);
      match touched.value
      case Some((delete, Delete)) => return Some(delete);
      case _ => return None;
    }

    /** Sort the scoped paths into those to publish and those to set aside. */
    method Classify(parent: Oid, tree: Oid, scoped: Files, bucket: string)
      returns (published: Files, readds: seq<Oid>, aside: seq<MaterializeOp>)
      requires Valid() && HasCommit(store.objs, parent) && tree == TreeOf(parent)
      modifies caches
      ensures Valid()
      ensures published == Published(parent, state.materialized, scoped)
      ensures Elements(readds) == Undone(parent, state.materialized, scoped)
      ensures forall op :: op in aside <==> exists p :: p in Quarantined(parent, state.materialized, scoped) && op == QuarantineOp(bucket, p)
    {
      hide Undoes, Closed, Addressed, Consistent, QuarantineOp;
      published, readds, aside := map[], [], [];
      var done: set<Path>, todo := {}, scoped.Keys;
      NothingSorted(parent, state.materialized, scoped, bucket);
      while todo != {}
        invariant Valid()
        invariant done + todo == scoped.Keys && done !! todo
        invariant SortedInto(parent, state.materialized, Only(scoped, done), bucket, published, readds, aside)
      {
        var path := First(todo);
        var undoes := ProbeUndoes(parent, tree, path);
        SortOneMore(parent, state.materialized, scoped, done, path, bucket, published, readds, aside);
        if undoes.None? {
          published := published[path := scoped[path]];
        } else if path in state.materialized {
          aside := aside + [QuarantineOp(bucket, path)];
        } else {
          published := published[path := scoped[path]];
          readds := AddOne(readds, undoes.value);
        }
        done, todo := done + {path}, todo - {path};
      }
      assert Only(scoped, done) == scoped;
    }

    /** Forget the paths set aside, and queue them for the host. */
    method DropStale(aside: seq<MaterializeOp>, ghost stale: set<Path>, ghost bucket: string)
      requires Valid()
      requires forall op :: op in aside <==> exists p :: p in stale && op == QuarantineOp(bucket, p)
      modifies this`working, this`quarantines, state`materialized
      ensures Valid() && SetAside(old(View()), stale, bucket, View())
    {
      hide Consistent, QuarantineOp, PathsOf, PathOf, True, SetAside;
      ghost var n := View();
      var i := 0;
      NoPaths();
      while i < |aside|
        invariant 0 <= i <= |aside|
        invariant working == old(working) - PathsOf(aside[..i])
        invariant state.materialized == old(state.materialized) - PathsOf(aside[..i])
        invariant quarantines == old(quarantines) && store.objs == old(store.objs)
        invariant View() == n.(working := working, materialized := state.materialized)
      {
        OnePathMore(aside, i);
        working := working - {PathOf(aside[i])};
        state.materialized := state.materialized - {PathOf(aside[i])};
        i := i + 1;
      }
      assert aside[..i] == aside;
      quarantines := quarantines + aside;
      SetAsideIs(n, aside, stale, bucket);
      ConsistentElsewhere(n, View());
    }

    /** Does the published set differ from what was last put on disk? */
    method HasChanged(published: Files) returns (changed: bool)
      requires Valid()
      ensures changed <==> state.materialized != HashesOf(published)
    {
      changed := false;
      var todo := published.Keys;
      while todo != {} && !changed
        invariant todo <= published.Keys
        invariant changed ==> state.materialized != HashesOf(published)
        invariant !changed ==> forall p :: p in published && p !in todo ==> State.At(state.materialized, p) == Some(BlobHash(published[p]))
      {
        var p := First(todo);
        if State.At(state.materialized, p) != Some(BlobHash(published[p])) {
          assert State.At(HashesOf(published), p) == Some(BlobHash(published[p]));
          changed := true;
        }
        todo := todo - {p};
      }
      if changed {
        return;
      }
      todo := state.materialized.Keys;
      while todo != {} && !changed
        invariant todo <= state.materialized.Keys
        invariant changed ==> state.materialized != HashesOf(published)
        invariant !changed ==> forall p :: p in state.materialized && p !in todo ==> p in published
      {
        var p := First(todo);
        if p !in published {
          assert p !in HashesOf(published);
          changed := true;
        }
        todo := todo - {p};
      }
      if !changed {
        SameHashes(state.materialized, published);
      }
    }

    /** Write the tree, then sign, store and make known the primitive over it. */
    method StorePrimitive(published: Files, parent: Oid, readds: seq<Oid>, now: nat) returns (o: Oid)
      requires Valid() && HasCommit(store.objs, parent)
      modifies store, state`counter, state`observed, state`known
      ensures Valid()
      ensures var c := Commit(BuildPrimitive(node, TreeId(published), parent, old(state.observed) + 1, now, readds));
        o == Sha(c) && Grown(old(store.objs)[o := c], store.objs) && Closed(store.objs) && HasCommit(store.objs, o)
      ensures View() == old(View()).(objs := store.objs, known := AddOne(old(state.known), o),
        counter := old(state.observed) + 1, observed := old(state.observed) + 1)
    {
      hide Closed, Addressed, Extends, Includes, TreeId, Consistent, BuildPrimitive, RefsHeld, HasTree, HasCommit;
      hide TouchHeld, MostRecent, GhostAdd, Verdict, Elements, AddOne;
      ghost var n := View();
      ConsistentMeans(n);
      var tree := WriteTreeFromFiles(store, published);
      var c: CommitObj;
      c, o := StoreCommit(tree, parent, readds, now, n.objs);
      var counter := state.NextCounter();
      state.AddKnown(o);
      NewPrimitive(n, store.objs, c);
      assert counter == n.observed + 1;
    }

    /** Build the signed primitive for the next counter, and store it. */
    method StoreCommit(tree: Oid, parent: Oid, readds: seq<Oid>, now: nat, ghost before: ObjectMap) returns (c: CommitObj, o: Oid)
      requires store.Valid() && Closed(store.objs) && Extends(before, store.objs)
      requires HasTree(store.objs, tree) && HasCommit(before, parent)
      modifies store
      ensures Grown(before[o := Commit(c)], store.objs) && Closed(store.objs) && Includes(before, store.objs)
      ensures c == BuildPrimitive(node, tree, parent, state.observed + 1, now, readds)
      ensures Primitive(c) && c.message.counter == state.observed + 1
      ensures o == Sha(Commit(c)) && HasCommit(store.objs, o)
    {
      hide Closed, Addressed, Extends, Includes, BuildPrimitive, RefsHeld, HasTree;
      c := BuildPrimitive(node, tree, parent, state.observed + 1, now, readds);
      PrimitiveFields(node, tree, parent, state.observed + 1, now, readds);
      ghost var withTree := store.objs;
      CommitRefsHeld(before, withTree, c);
      InsertKeepsClosed(withTree, Commit(c));
      BothPut(before, withTree, Commit(c));
      o := store.Put(Commit(c));
    }

    method Author(published: Files, parent: Oid, readds: seq<Oid>, now: nat) returns (r: Result<Option<Oid>>)
      requires Valid() && HasCommit(store.objs, parent)
      modifies this`main, store, caches, state
      ensures Valid()
      ensures Authored(old(View()), published, BuildPrimitive(node, TreeId(published), parent, old(state.observed) + 1, now, readds), View(), r)
    {
      hide Closed, Addressed, Extends, MainOf, FrontierOf, Foldable, TreeId, Workable, BuildPrimitive, FoldTips;
      hide FrontierOn, Cut;
      ghost var c := BuildPrimitive(node, TreeId(published), parent, state.observed + 1, now, readds);
      var o := StorePrimitive(published, parent, readds, now);
      ghost var withCommit := store.objs;
      var folded := Recompute();
      GrownTransitive(old(store.objs)[o := Commit(c)], withCommit, store.objs);
      if folded.Err? {
        return Err(folded.error);
      }
      ghost var n := View();
      state.materialized := HashesOf(published);
      ConsistentElsewhere(n, View());
      return Ok(Some(o));
    }

    method CommitScoped(scoped: Files, now: nat, bucket: string) returns (r: Result<Option<Oid>>)
      requires Valid()
      modifies this, store, caches, state
      ensures Valid()
      ensures CommitResult(old(View()), scoped, node, now, bucket, View(), r)
    {
      hide Closed, Addressed, Extends, Consistent, Published, Quarantined, Undone, SetAside, Authored, Authors;
      hide CommitResult, BuildPrimitive, HashesOf;
      if state.bootstrapPending {
        CommitWaits(View(), scoped, node, now, bucket);
        return Ok(None);
      }
      ghost var n := View();
      var parent := HeldParent();
      ghost var objs := store.objs;
      var published, readds := SortOut(parent, scoped, bucket);
      ghost var mid := View().(objs := n.objs);
      SetAsideFrom(n, objs, Quarantined(parent, n.materialized, scoped), bucket, View());
      var changed := HasChanged(published);
      if !changed {
        CommitsNothing(n, scoped, node, now, bucket, mid, View());
        return Ok(None);
      }
      ghost var c := BuildPrimitive(node, TreeId(published), parent, state.observed + 1, now, readds);
      r := Author(published, parent, readds, now);
      AuthoredFrom(n, objs, mid, published, c, View(), r);
      AuthorsIs(c, node, n, published, Undone(parent, n.materialized, scoped), now, readds);
      CommitsOne(n, scoped, node, now, bucket, mid, c, View(), r);
    }

    /** The commit to author on; the root is made if there is none yet. */
    method HeldParent() returns (parent: Oid)
      requires Valid()
      modifies store
      ensures Valid() && Grown(old(store.objs), store.objs)
      ensures parent == ParentFor(old(View())) && HasCommit(store.objs, parent)
      ensures View() == old(View()).(objs := store.objs)
    {
      hide Closed, Addressed, Consistent;
      ConsistentMeans(View());
      ExtendsItself(store.objs);
      if main.Some? {
        return main.value;
      }
      ghost var n := View();
      parent := MakeGenesis(store);
      ConsistentGrows(n, store.objs);
      ExtendsIncludes(n.objs, store.objs);
    }

    /** Classify the scoped paths, and set the stale ones aside. */
    method SortOut(parent: Oid, scoped: Files, bucket: string) returns (published: Files, readds: seq<Oid>)
      requires Valid() && HasCommit(store.objs, parent)
      modifies caches, this`working, this`quarantines, state`materialized
      ensures Valid()
      ensures published == Published(parent, old(state.materialized), scoped)
      ensures Elements(readds) == Undone(parent, old(state.materialized), scoped)
      ensures SetAside(old(View()), Quarantined(parent, old(state.materialized), scoped), bucket, View())
    {
      hide Closed, Addressed, Extends, Consistent, Published, Quarantined, Undone, SetAside;
      ConsistentMeans(View());
      var parentCommit := store.LoadCommit(parent);
      ParentTree(parent, parentCommit.value);
      var aside: seq<MaterializeOp>;
      published, readds, aside := Classify(parent, parentCommit.value.tree, scoped, bucket);
      DropStale(aside, Quarantined(parent, state.materialized, scoped), bucket);
    }

    method CommitStaged(now: nat, bucket: string) returns (r: Result<Option<Oid>>)
      requires Valid()
      modifies this, store, caches, state
      ensures Valid()
      ensures CommitResult(old(View()), Scope.Canonical(old(working), old(scope)), node, now, bucket, View(), r)
    {
      var scoped := Scope.CanonicalizeKeeps(working, scope);
      r := CommitScoped(scoped, now, bucket);
    }

    // ---- Integrate ----

    /** Store a batch, up to the first object that does not decode. */
    method PutRaws(raws: Batch) returns (r: Result<()>)
      requires store.Valid()
      modifies store
      ensures store.Valid() && store.objs == PutAll(old(store.objs), raws) && Includes(old(store.objs), store.objs)
      ensures r.Ok? <==> AllDecode(raws)
    {
      hide Addressed;
      IncludesItself(store.objs);
      var i := 0;
      while i < |raws|
        invariant store.Valid() && Includes(old(store.objs), store.objs)
        invariant 0 <= i <= |raws|
        invariant forall j :: 0 <= j < i ==> raws[j].Some?
        invariant PutAll(store.objs, raws[i..]) == PutAll(old(store.objs), raws)
      {
        assert raws[i..][0] == raws[i] && raws[i..][1..] == raws[i + 1..];
        if raws[i].None? {
          assert raws[i] in raws;
          return Err(Malformed);
        }
        ghost var before := store.objs;
        var o := store.Put(raws[i].value);
        IncludesTransitive(old(store.objs), before, store.objs);
        i := i + 1;
      }
      return Ok(());
    }

    /** Does a received fold commit fail to reproduce, or to be re-run at all? */
    method FindSpoiled(raws: Batch) returns (spoiled: bool)
      requires store.Valid()
      requires forall r :: r in raws ==> r.Some? && Sha(r.value) in store.objs && store.objs[Sha(r.value)] == r.value
      modifies store
      ensures Grown(old(store.objs), store.objs)
      ensures spoiled ==> Refusable(old(store.objs), raws)
      ensures !spoiled ==> !Spoiled(raws)
      ensures old(Closed(store.objs)) ==> spoiled == Spoiled(raws)
      ensures (forall obj :: Some(obj) in raws ==> !IsFold(obj)) ==> store.objs == old(store.objs)
    {
      hide Closed, Addressed, Extends, FoldValid, SpineHeld;
      ghost var first := store.objs;
      ExtendsItself(first);
      if Closed(first) {
        ClosedRefuses(first, raws);
      }
      var i := 0;
      while i < |raws|
        invariant 0 <= i <= |raws|
        invariant Grown(first, store.objs)
        invariant (forall obj :: Some(obj) in raws ==> !IsFold(obj)) ==> store.objs == first
        invariant forall j :: 0 <= j < i && IsFold(raws[j].value) ==> FoldValid(Sha(raws[j].value))
      {
        var obj := raws[i].value;
        assert raws[i] in raws && raws[i] == Some(obj);
        if obj.Commit? && !Primitive(obj.commit) {
          ghost var before := store.objs;
          ExtendsIncludes(first, before);
          var verified := VerifyFoldCommit(store, Sha(obj));
          GrownTransitive(first, before, store.objs);
          if verified.Err? {
            if FoldValid(Sha(obj)) && SpineHeld(first, Sha(obj)) {
              SpineHeldGrows(first, before, Sha(obj));
              assert false;
            }
            return true;
          }
        }
        i := i + 1;
      }
      return false;
    }

    /** Make every primitive with a good signature known. */
    method AdmitAll(raws: Batch) returns (admitted: nat)
      requires forall r :: r in raws ==> r.Some?
      modifies state`known, state`observed
      ensures state.known == Admit(old(state.known), raws)
      ensures state.observed == ObserveAll(old(state.observed), raws)
      ensures |state.known| == |old(state.known)| + admitted
    {
      hide VerifyPrimitive;
      admitted := 0;
      var i := 0;
      while i < |raws|
        invariant 0 <= i <= |raws|
        invariant state.known == Admit(old(state.known), raws[..i])
        invariant state.observed == ObserveAll(old(state.observed), raws[..i])
        invariant |state.known| == |old(state.known)| + admitted
      {
        assert raws[i] in raws;
        assert raws[..i + 1][..i] == raws[..i];
        var obj := raws[i].value;
        if obj.Commit? && VerifyPrimitive(obj.commit) {
          VerifiedIsPrimitive(obj.commit);
          if Sha(obj) !in state.known {
            admitted := admitted + 1;
          }
          state.AddKnown(Sha(obj));
          state.Observe(obj.commit.message.counter);
        }
        i := i + 1;
      }
      assert raws[..i] == raws;
    }

    /** Any batch at all, on a store from which anything may be missing; with nothing missing
        afterwards, the exact outcome. */
    method Integrate(raws: Batch) returns (r: Result<nat>)
      requires Usable()
      modifies this`main, store, caches, state`known, state`observed
      ensures Usable()
      ensures AllDecode(raws) && Closed(PutAll(old(store.objs), raws)) ==> Valid()
      ensures !AllDecode(raws) || Closed(PutAll(old(store.objs), raws)) ==> IntegrateResult(old(View()), raws, View(), r)
      ensures IntegratePartly(store.order, old(caches.View()), old(View()), raws, View(), r)
    {
      hide Closed, Addressed, Extends, Workable, MainOf, FrontierOf, Foldable, AllDecode, Spoiled, Refusable, True;
      hide IntegrateResult, IntegratePartly, AdmitsPartly, PutAll, Admit, ObserveAll, Elements, FrontierOn, FoldTips;
      hide Cut;
      ghost var n, memo := View(), caches.View();
      WorkableMeans(n);
      var put := PutRaws(raws);
      WorkableIncluded(n, store.objs);
      if put.Err? {
        IntegrateFails(n, raws, View(), Err(put.error));
        PartlyFails(store.order, memo, n, raws, View(), Err(put.error));
        return Err(put.error);
      }
      ghost var all := store.objs;
      AllArePut(n.objs, raws);
      var spoiled := FindSpoiled(raws);
      ExtendsIncludes(all, store.objs);
      IncludesTransitive(n.objs, all, store.objs);
      WorkableIncluded(n, store.objs);
      if spoiled {
        if Closed(all) {
          IntegrateSpoils(n, raws, View());
        }
        PartlyRefuses(store.order, memo, n, raws, View());
        return Ok(0);
      }
      ghost var checked := View();
      StillPut(all, store.objs, raws);
      AdmitKeepsWorkable(checked, raws);
      AdmitOnlyAdds(n.known, raws);
      var admitted := AdmitAll(raws);
      if admitted == 0 {
        if Closed(all) {
          IntegrateLearnsNothing(n, raws, View());
        }
        PartlyLearnsNothing(store.order, memo, n, raws, View());
        return Ok(0);
      }
      ghost var grown := store.objs;
      var folded := Recompute();
      GrownTransitive(all, grown, store.objs);
      r := if folded.Err? then Err(folded.error) else Ok(admitted);
      if Closed(all) {
        IntegrateLearns(n, raws, View(), r);
      }
      PartlyLearns(store.order, memo, n, raws, grown, View(), r);
    }

    // ---- Materialize ----

    /** The operations the host must apply to bring its files to `main`, queued ones first. */
    method MaterializePlan(onDisk: Files) returns (ops: seq<MaterializeOp>)
      requires Valid()
      modifies this`quarantines, state`materialized
      ensures Valid() && PlanResult(old(View()), onDisk, View(), ops)
    {
      hide Closed, Addressed, Consistent, Plans, Verdict, TouchHeld, GhostAdd, MostRecent, PlanResult, Recorded;
      hide Readable, FilesAt, HasCommit, Extends;
      ghost var n := View();
      ConsistentMeans(n);
      ops := quarantines;
      quarantines := [];
      if main.None? {
        ConsistentElsewhere(n, View());
        PlansNothing(n, onDisk, View(), ops);
        return;
      }
      ClosedHoldsFiles(store.objs, main.value);
      var read := FilesOfCommit(store, main.value);  // cannot fail: nothing dangles
      var plan, recorded := PlanFor(state.materialized, onDisk, read.value);
      state.materialized := recorded;
      ConsistentElsewhere(n, View());
      ops := ops + plan;
      PlansMain(n, onDisk, View(), ops, plan);
    }

    /** Plan against the staged files, and keep them in step with what the host will do. */
    method MaterializeStaged() returns (ops: seq<MaterializeOp>)
      requires Valid()
      modifies this`quarantines, this`working, state`materialized
      ensures Valid() && working == ApplyOps(old(working), ops)
      ensures exists planned :: PlanResult(old(View()), old(working), planned, ops) && View() == planned.(working := working)
    {
      ops := MaterializePlan(working);
      ghost var planned := View();
      working := ApplyAll(working, ops);
      ConsistentElsewhere(planned, View());
    }

    // ---- Snapshots and export ----

    method FrontierTips() returns (r: Result<seq<Oid>>)
      requires Usable()
      modifies caches
      ensures Usable()
      ensures TipsSeen(store.order, old(caches.View()), View(), r)
      ensures Closed(store.objs) ==> r == Ok(FrontierOf(Elements(state.known)))
    {
      hide Closed, Addressed, FrontierOf, FrontierOn, Cut, Workable;
      WorkableMeans(View());
      KnownIsHeld(View());
      r := Frontier(store, caches, state.known);
    }

    /** Save the frontier under a name. */
    method Snapshot(name: string)
      requires Valid()
      modifies caches, state`snapshots
      ensures Valid()
      ensures View() == old(View()).(snapshots := old(state.snapshots)[name := FrontierOf(Elements(state.known))])
    {
      hide Closed, Addressed, FrontierOf, Workable;
      ghost var n := View();
      var tips := FrontierTips();  // cannot fail: nothing dangles
      TipsAreSaved(n);
      state.snapshots := state.snapshots[name := tips.value];
      SnapshotKeepsConsistent(n, name, tips.value);
    }

    /** The files of the fold of some commits. */
    method FoldSubset(subset: seq<Oid>) returns (r: Result<Files>)
      requires Valid() && SavedTips(store.objs, subset)
      modifies store, caches
      ensures Valid() && Grown(old(store.objs), store.objs)
      ensures View() == old(View()).(objs := store.objs)
      ensures r.Ok? <==> Foldable(FrontierOf(Elements(subset)))
      ensures r.Ok? ==> r.value == FilesAt(MainOf(Elements(subset)))
    {
      hide Closed, Addressed, Extends, FrontierOf, Consistent, MainOf, Foldable, FrontierOn, FoldTips, Verdict;
      hide TouchHeld, GhostAdd, MostRecent;
      ghost var n := View();
      ConsistentMeans(n);
      assert Held(store.objs, subset) == Elements(subset);
      var m := ComputeMain(store, caches, subset);
      ConsistentGrows(n, store.objs);
      if m.Err? {
        return Err(m.error);
      }
      ClosedHoldsFiles(store.objs, m.value);
      var read := FilesOfCommit(store, m.value);  // cannot fail: nothing dangles
      return Ok(read.value);
    }

    method RestoreSnapshot(name: string) returns (r: Result<Files>)
      requires Valid()
      modifies store, caches
      ensures Valid() && Grown(old(store.objs), store.objs)
      ensures View() == old(View()).(objs := store.objs)
      ensures name !in state.snapshots ==> r == Err(Other)
      ensures name in state.snapshots ==>
        var tips := Elements(state.snapshots[name]);
        (r.Ok? <==> Foldable(FrontierOf(tips))) && (r.Ok? ==> r.value == FilesAt(MainOf(tips)))
    {
      hide Closed, Addressed, Extends, FrontierOf, MainOf, Foldable;
      if name !in state.snapshots {
        ExtendsItself(store.objs);
        return Err(Other);
      }
      r := FoldSubset(state.snapshots[name]);
    }

    /** Every object reachable from `tips`. */
    method ExportClosure(tips: seq<Oid>) returns (r: Result<Batch>)
      requires Usable()
      ensures r.Ok? <==> AllHeld(store.objs, ReachableFrom(Elements(tips)))
      ensures r.Ok? ==> r.value == RawsOf(ReachableFrom(Elements(tips)))
    {
      hide ReachableFrom;
      var reached :- ReachableFromAll(store, tips);
      var raws := Export(store, reached);
      return Ok(raws);
    }

    /** A commit with what it adds over its parent's tree: what a live push sends. */
    method ExportPrimitive(o: Oid) returns (r: Result<Batch>)
      requires Valid()
      ensures r.Ok? <==> HasCommit(store.objs, o)
      ensures r.Ok? ==> r.value == [Preimage(o)] + RawsOf(NewUnder(o))
    {
      hide Reachable, Gathered, AllEntriesHeld, Closed;
      var c :- store.LoadCommit(o);
      ClosedCommit(store.objs, o);
      AddressedPreimage(store.objs, o);
      var parentObjects: set<Oid> := {};
      if c.parents != [] {
        ClosedCommit(store.objs, c.parents[0]);
        var p := store.LoadCommit(c.parents[0]);
        TreeIsGathered(store.objs, c.parents[0]);
        var below := TreeObjects(store, p.value.tree);  // cannot fail: nothing dangles
        parentObjects := below.value;
      }
      TreeIsGathered(store.objs, o);
      var objects := TreeObjects(store, c.tree);
      var raws := Export(store, objects.value - parentObjects);
      return Ok([Some(Commit(c))] + raws);
    }
  }

  lemma PlansNothing(n: Node, onDisk: Files, n': Node, ops: seq<MaterializeOp>)
    requires n.main.None? && ops == n.quarantines && n' == n.(quarantines := [])
    ensures PlanResult(n, onDisk, n', ops)
  {
  }

  lemma PlansMain(n: Node, onDisk: Files, n': Node, ops: seq<MaterializeOp>, plan: seq<MaterializeOp>)
    requires n.main.Some? && ops == n.quarantines + plan && Plans(plan, n.materialized, onDisk, FilesAt(n.main.value))
    requires n' == n.(quarantines := [], materialized := Recorded(n.materialized, onDisk, FilesAt(n.main.value)))
    ensures PlanResult(n, onDisk, n', ops)
  {
    hide Plans, Recorded, FilesAt;
    assert ops[|n.quarantines|..] == plan;
  }

  lemma TreeIsGathered(m: ObjectMap, o: Oid)
    requires Addressed(m) && Closed(m) && HasCommit(m, o)
    ensures AllEntriesHeld(m, Gathered(TreeOf(o))) && Gathered(TreeOf(o)) == Reachable(TreeOf(o)) && AllHeld(m, Reachable(TreeOf(o)))
  {
    ClosedCommit(m, o);
    AddressedPreimage(m, TreeOf(o));
    ClosedGathers(m, TreeOf(o));
  }

  lemma IntegrateFails(n: Node, raws: Batch, n': Node, r: Result<nat>)
    requires !AllDecode(raws) && r.Err? && n' == n.(objs := PutAll(n.objs, raws))
    ensures IntegrateResult(n, raws, n', r)
  {
    hide AllDecode, PutAll;
  }

  lemma IntegrateSpoils(n: Node, raws: Batch, n': Node)
    requires AllDecode(raws) && Spoiled(raws) && Grown(PutAll(n.objs, raws), n'.objs) && n' == n.(objs := n'.objs)
    ensures IntegrateResult(n, raws, n', Ok(0))
  {
    hide AllDecode, Spoiled, Grown, PutAll;
  }

  lemma IntegrateLearnsNothing(n: Node, raws: Batch, n': Node)
    requires AllDecode(raws) && !Spoiled(raws) && Grown(PutAll(n.objs, raws), n'.objs)
    requires n.known <= Admit(n.known, raws) && |Admit(n.known, raws)| == |n.known|
    requires n' == n.(objs := n'.objs, known := Admit(n.known, raws), observed := ObserveAll(n.observed, raws))
    ensures IntegrateResult(n, raws, n', Ok(0))
  {
    hide AllDecode, Spoiled, Grown, PutAll, Admit, ObserveAll, MainOf, FrontierOf, Foldable;
    assert Admit(n.known, raws) == n.known;
  }

  lemma IntegrateLearns(n: Node, raws: Batch, n': Node, r: Result<nat>)
    requires AllDecode(raws) && !Spoiled(raws) && Grown(PutAll(n.objs, raws), n'.objs)
    requires |n.known| < |Admit(n.known, raws)|
    requires r.Ok? <==> Foldable(FrontierOf(Elements(Admit(n.known, raws))))
    requires r.Ok? ==> r.value == |Admit(n.known, raws)| - |n.known| && HasCommit(n'.objs, MainOf(Elements(Admit(n.known, raws))))
    requires n' == n.(objs := n'.objs, known := Admit(n.known, raws), observed := ObserveAll(n.observed, raws),
                      main := if r.Ok? then Some(MainOf(Elements(Admit(n.known, raws)))) else n.main)
    ensures IntegrateResult(n, raws, n', r)
  {
    hide AllDecode, Spoiled, Grown, PutAll, Admit, ObserveAll, MainOf, FrontierOf, Foldable, HasCommit;
  }

  lemma MainMoves(n: Node, o: Oid)
    requires Workable(n) && HasCommit(n.objs, o)
    ensures Workable(n.(main := Some(o)))
  {
    hide Addressed;
  }

  lemma PartlyFails(order: EntryOrder, memo: Memo, n: Node, raws: Batch, n': Node, r: Result<nat>)
    requires !AllDecode(raws) && r.Err? && n' == n.(objs := PutAll(n.objs, raws))
    ensures IntegratePartly(order, memo, n, raws, n', r)
  {
    hide AllDecode, PutAll, Refusable, Spoiled, AdmitsPartly;
  }

  lemma PartlyRefuses(order: EntryOrder, memo: Memo, n: Node, raws: Batch, n': Node)
    requires AllDecode(raws) && Refusable(PutAll(n.objs, raws), raws) && Grown(PutAll(n.objs, raws), n'.objs) && n' == n.(objs := n'.objs)
    ensures IntegratePartly(order, memo, n, raws, n', Ok(0))
  {
    hide AllDecode, PutAll, Refusable, Spoiled, AdmitsPartly, Grown;
  }

  lemma PartlyLearnsNothing(order: EntryOrder, memo: Memo, n: Node, raws: Batch, n': Node)
    requires AllDecode(raws) && !Spoiled(raws) && Grown(PutAll(n.objs, raws), n'.objs)
    requires n.known <= Admit(n.known, raws) && |Admit(n.known, raws)| == |n.known|
    requires n' == n.(objs := n'.objs, known := Admit(n.known, raws), observed := ObserveAll(n.observed, raws))
    ensures IntegratePartly(order, memo, n, raws, n', Ok(0))
  {
    hide AllDecode, PutAll, Refusable, Spoiled, Grown, Admit, ObserveAll, FoldsOver;
    assert Admit(n.known, raws) == n.known;
  }

  lemma PartlyLearns(order: EntryOrder, memo: Memo, n: Node, raws: Batch, m: ObjectMap, n': Node, r: Result<nat>)
    requires AllDecode(raws) && !Spoiled(raws) && Grown(PutAll(n.objs, raws), n'.objs)
    requires |n.known| < |Admit(n.known, raws)| && (r.Ok? ==> r.value == |Admit(n.known, raws)| - |n.known|)
    requires FoldsOver(order, memo, PutAll(n.objs, raws), m, raws, Admit(n.known, raws), n', r)
    requires n' == n.(objs := n'.objs, known := Admit(n.known, raws), observed := ObserveAll(n.observed, raws),
                      main := if r.Ok? then n'.main else n.main)
    ensures IntegratePartly(order, memo, n, raws, n', r)
  {
    hide AllDecode, PutAll, Refusable, Spoiled, Grown, Admit, ObserveAll, FoldsOver;
  }

  /** With nothing missing, the only reason to refuse a fold is that it does not reproduce. */
  lemma ClosedRefuses(m: ObjectMap, raws: Batch)
    requires Addressed(m) && Closed(m) && forall r :: r in raws ==> r.Some? && Sha(r.value) in m && m[Sha(r.value)] == r.value
    ensures Refusable(m, raws) <==> Spoiled(raws)
  {
    hide Addressed, Closed, FoldValid, SpineHeld;
    forall obj | Some(obj) in raws && IsFold(obj)
      ensures SpineHeld(m, Sha(obj))
    {
      ClosedHoldsSpine(m, Sha(obj));
    }
  }

  lemma KnownIsHeld(n: Node)
    requires Workable(n)
    ensures Held(n.objs, n.known) == Elements(n.known)
  {
  }

  lemma TipsAreSaved(n: Node)
    requires Consistent(n)
    ensures SavedTips(n.objs, FrontierOf(Elements(n.known)))
  {
    hide Addressed, Closed, Maximal, Effective, IsPrimitive, CounterOf;
    FrontierIsKnown(Elements(n.known));
    SortedHasNoDuplicates(FrontierOf(Elements(n.known)));
  }

  lemma SnapshotKeepsConsistent(n: Node, name: string, tips: seq<Oid>)
    requires Consistent(n) && SavedTips(n.objs, tips)
    ensures Consistent(n.(snapshots := n.snapshots[name := tips]))
  {
  }

  lemma VerifiedIsPrimitive(c: CommitObj)
    requires VerifyPrimitive(c)
    ensures Primitive(c)
  {
  }

  lemma {:induction false} AllArePut(m: ObjectMap, raws: Batch)
    requires Addressed(m) && AllDecode(raws)
    ensures Addressed(PutAll(m, raws)) && Includes(m, PutAll(m, raws))
    ensures forall r :: r in raws ==> r.Some? && Sha(r.value) in PutAll(m, raws) && PutAll(m, raws)[Sha(r.value)] == r.value
    decreases |raws|
  {
    if raws != [] {
      var obj := raws[0].value;
      assert raws[0] in raws;
      var m' := m[Sha(obj) := obj];
      if Sha(obj) in m {
        ShaInjective(m[Sha(obj)], obj);
      }
      forall r | r in raws[1..]
        ensures r in raws
      {
      }
      AllArePut(m', raws[1..]);
      assert raws == [raws[0]] + raws[1..];
    }
  }

  lemma StillPut(m: ObjectMap, m': ObjectMap, raws: Batch)
    requires Includes(m, m')
    requires forall r :: r in raws ==> r.Some? && Sha(r.value) in m && m[Sha(r.value)] == r.value
    ensures forall r :: r in raws ==> r.Some? && Sha(r.value) in m' && m'[Sha(r.value)] == r.value
  {
  }

  lemma {:induction false} AdmitOnlyAdds(known: seq<Oid>, raws: Batch)
    ensures known <= Admit(known, raws)
    ensures NoDuplicates(known) ==> NoDuplicates(Admit(known, raws))
    ensures forall o :: o in Admit(known, raws) <==> o in known || exists r :: r in raws && Admissible(r) && o == Sha(r.value)
  {
    hide Admissible;
    if raws != [] {
      var n := |raws| - 1;
      assert raws == raws[..n] + [raws[n]];
      AdmitOnlyAdds(known, raws[..n]);
    }
  }

  lemma {:induction false} ObservedBounds(observed: nat, raws: Batch)
    ensures observed <= ObserveAll(observed, raws)
    ensures forall r :: r in raws && Admissible(r) ==> r.value.commit.message.counter <= ObserveAll(observed, raws)
  {
    if raws != [] {
      var n := |raws| - 1;
      assert raws == raws[..n] + [raws[n]];
      ObservedBounds(observed, raws[..n]);
    }
  }

  lemma AdmitKeepsWorkable(n: Node, raws: Batch)
    requires Workable(n)
    requires forall r :: r in raws ==> r.Some? && Sha(r.value) in n.objs && n.objs[Sha(r.value)] == r.value
    ensures Workable(n.(known := Admit(n.known, raws), observed := ObserveAll(n.observed, raws)))
  {
    hide Addressed;
    AdmitOnlyAdds(n.known, raws);
    ObservedBounds(n.observed, raws);
    forall o | o in Admit(n.known, raws)
      ensures o in n.objs && IsPrimitive(o) && CounterOf(o) <= ObserveAll(n.observed, raws)
    {
      if o !in n.known {
        var r :| r in raws && Admissible(r) && o == Sha(r.value);
        PreimageOfSha(r.value);
      }
    }
  }

  lemma SetAsideFrom(n: Node, objs: ObjectMap, stale: set<Path>, bucket: string, n': Node)
    requires SetAside(n.(objs := objs), stale, bucket, n')
    ensures SetAside(n, stale, bucket, n'.(objs := n.objs))
    ensures n'.objs == objs && n'.known == n.known && n'.observed == n.observed
    ensures n'.snapshots == n.snapshots && n'.bootstrapPending == n.bootstrapPending
  {
  }

  lemma AuthoredFrom(n: Node, objs: ObjectMap, mid: Node, published: Files, c: CommitObj, n': Node, r: Result<Option<Oid>>)
    requires Grown(n.objs, objs) && mid.objs == n.objs
    requires Authored(mid.(objs := objs), published, c, n', r)
    ensures Authored(mid, published, c, n', r)
  {
    hide Closed, Addressed, Extends, MainOf, FrontierOf, Foldable;
    BothPut(n.objs, objs, Commit(c));
    GrownTransitive(n.objs[Sha(Commit(c)) := Commit(c)], objs[Sha(Commit(c)) := Commit(c)], n'.objs);
  }

  lemma CommitWaits(n: Node, scoped: Files, node: NodeId, now: nat, bucket: string)
    requires n.bootstrapPending
    ensures CommitResult(n, scoped, node, now, bucket, n, Ok(None))
  {
  }

  lemma CommitsNothing(n: Node, scoped: Files, node: NodeId, now: nat, bucket: string, mid: Node, n': Node)
    requires !n.bootstrapPending && SetAside(n, Quarantined(ParentFor(n), n.materialized, scoped), bucket, mid)
    requires Unchanged(mid, Published(ParentFor(n), n.materialized, scoped))
    requires Grown(n.objs, n'.objs) && n' == mid.(objs := n'.objs)
    ensures CommitResult(n, scoped, node, now, bucket, n', Ok(None))
  {
    hide SetAside, Unchanged, Published, Quarantined, Undone, Authored, Authors, Grown;
  }

  lemma CommitsOne(n: Node, scoped: Files, node: NodeId, now: nat, bucket: string, mid: Node, c: CommitObj, n': Node, r: Result<Option<Oid>>)
    requires !n.bootstrapPending && SetAside(n, Quarantined(ParentFor(n), n.materialized, scoped), bucket, mid)
    requires !Unchanged(mid, Published(ParentFor(n), n.materialized, scoped))
    requires Authors(c, node, n, Published(ParentFor(n), n.materialized, scoped), Undone(ParentFor(n), n.materialized, scoped), now)
    requires Authored(mid, Published(ParentFor(n), n.materialized, scoped), c, n', r)
    ensures CommitResult(n, scoped, node, now, bucket, n', r)
  {
    hide SetAside, Unchanged, Published, Quarantined, Undone, Authored, Authors, Grown;
  }

  lemma AuthorsIs(c: CommitObj, node: NodeId, n: Node, published: Files, undone: set<Oid>, now: nat, readds: seq<Oid>)
    requires Elements(readds) == undone
    requires c == BuildPrimitive(node, TreeId(published), ParentFor(n), n.observed + 1, now, readds)
    ensures Authors(c, node, n, published, undone, now)
  {
  }

  lemma ParentTree(parent: Oid, c: CommitObj)
    requires CommitAt(parent) == Some(c)
    ensures TreeOf(parent) == c.tree
  {
  }

  lemma SetAsideIs(n: Node, aside: seq<MaterializeOp>, stale: set<Path>, bucket: string)
    requires forall op :: op in aside <==> exists p :: p in stale && op == QuarantineOp(bucket, p)
    ensures SetAside(n, stale, bucket,
              n.(working := n.working - PathsOf(aside), materialized := n.materialized - PathsOf(aside), quarantines := n.quarantines + aside))
  {
    hide PathsOf, QuarantineOp;
    AsidePaths(aside, stale, bucket);
    assert (n.quarantines + aside)[|n.quarantines|..] == aside;
  }

  lemma AsidePaths(aside: seq<MaterializeOp>, stale: set<Path>, bucket: string)
    requires forall op :: op in aside <==> exists p :: p in stale && op == QuarantineOp(bucket, p)
    ensures PathsOf(aside) == stale
  {
    forall p | p in stale
      ensures p in PathsOf(aside)
    {
      assert QuarantineOp(bucket, p) in aside;
      assert PathOf(QuarantineOp(bucket, p)) == p;
    }
  }

  lemma SameHashes(materialized: Hashes, published: Files)
    requires forall p :: p in published ==> State.At(materialized, p) == Some(BlobHash(published[p]))
    requires forall p :: p in materialized ==> p in published
    ensures materialized == HashesOf(published)
  {
    assert forall p :: p in published ==> State.At(materialized, p).Some?;
  }

  lemma WorkableMeans(n: Node)
    requires Workable(n)
    ensures Addressed(n.objs) && NoDuplicates(n.known)
  {
  }

  lemma ConsistentMeans(n: Node)
    requires Consistent(n)
    ensures Addressed(n.objs) && Closed(n.objs) && NoDuplicates(n.known)
    ensures n.main.Some? ==> HasCommit(n.objs, n.main.value)
  {
  }

  lemma PrimitiveFields(node: NodeId, tree: Oid, parent: Oid, counter: nat, now: nat, readds: seq<Oid>)
    ensures var c := BuildPrimitive(node, tree, parent, counter, now, readds);
      c.tree == tree && c.parents == [parent] && Primitive(c) && c.message.counter == counter && c.message.node == node && c.message.readds == readds
  {
  }

  lemma CommitRefsHeld(m: ObjectMap, m': ObjectMap, c: CommitObj)
    requires Extends(m, m') && HasTree(m', c.tree) && |c.parents| == 1 && HasCommit(m, c.parents[0])
    ensures RefsHeld(m', Commit(c))
  {
  }

  /** Storing and knowing a new primitive keeps a node consistent. */
  lemma NewPrimitive(n: Node, objs: ObjectMap, c: CommitObj)
    requires Consistent(n) && Addressed(objs) && Closed(objs) && Includes(n.objs, objs)
    requires Primitive(c) && c.message.counter == n.observed + 1 && HasCommit(objs, Sha(Commit(c)))
    ensures Consistent(n.(objs := objs, known := AddOne(n.known, Sha(Commit(c))), counter := n.observed + 1, observed := n.observed + 1))
  {
    hide Addressed, Closed;
    SavedTipsGrow(n, objs);
    PreimageOfSha(Commit(c));
    var o := Sha(Commit(c));
    assert IsPrimitive(o) && CounterOf(o) == n.observed + 1;
    if o in n.known {
      assert false;
    }
  }

  /** Consistency does not look at the working set, the disk record or the queue. */
  lemma ConsistentElsewhere(n: Node, n': Node)
    requires Consistent(n)
    requires n'.objs == n.objs && n'.known == n.known && n'.observed == n.observed && n'.main == n.main && n'.snapshots == n.snapshots
    ensures Consistent(n')
  {
  }

  // ---- Sorting the scoped paths ----

  function Only(files: Files, paths: set<Path>): Files {
    map p | p in files && p in paths :: files[p]
  }

  ghost predicate SortedInto(parent: Oid, materialized: Hashes, scoped: Files, bucket: string,
      published: Files, readds: seq<Oid>, aside: seq<MaterializeOp>) {
    && published == Published(parent, materialized, scoped)
    && Elements(readds) == Undone(parent, materialized, scoped)
    && forall op :: op in aside <==> exists p :: p in Quarantined(parent, materialized, scoped) && op == QuarantineOp(bucket, p)
  }

  lemma NothingSorted(parent: Oid, materialized: Hashes, scoped: Files, bucket: string)
    ensures SortedInto(parent, materialized, Only(scoped, {}), bucket, map[], [], [])
  {
  }

  lemma SortOneMore(parent: Oid, materialized: Hashes, scoped: Files, done: set<Path>, path: Path, bucket: string,
      published: Files, readds: seq<Oid>, aside: seq<MaterializeOp>)
    requires path in scoped && path !in done
    requires SortedInto(parent, materialized, Only(scoped, done), bucket, published, readds, aside)
    ensures var undoes := Undoes(parent, path);
      var more := published[path := scoped[path]];
      var scoped' := Only(scoped, done + {path});
      if undoes.None? then SortedInto(parent, materialized, scoped', bucket, more, readds, aside)
      else if path in materialized then SortedInto(parent, materialized, scoped', bucket, published, readds, aside + [QuarantineOp(bucket, path)])
      else SortedInto(parent, materialized, scoped', bucket, more, AddOne(readds, undoes.value), aside)
  {
    hide Undoes, QuarantineOp;
    var before, after := Only(scoped, done), Only(scoped, done + {path});
    assert after == before[path := scoped[path]];
    if Stale(parent, materialized, path) {
      assert Published(parent, materialized, after) == Published(parent, materialized, before);
      assert Quarantined(parent, materialized, after) == Quarantined(parent, materialized, before) + {path};
    } else {
      assert Published(parent, materialized, after) == Published(parent, materialized, before)[path := scoped[path]];
      assert Quarantined(parent, materialized, after) == Quarantined(parent, materialized, before);
    }
    UndoneOneMore(parent, materialized, before, after, path);
  }

  lemma UndoneOneMore(parent: Oid, materialized: Hashes, before: Files, after: Files, path: Path)
    requires path !in before && after.Keys == before.Keys + {path}
    ensures Undone(parent, materialized, after) == Undone(parent, materialized, before) +
      if Undoes(parent, path).Some? && path !in materialized then {Undoes(parent, path).value} else {}
  {
    hide Undoes;
    forall d
      ensures d in Undone(parent, materialized, after) <==>
        d in Undone(parent, materialized, before) || (Undoes(parent, path) == Some(d) && path !in materialized)
    {
      if p :| p in Published(parent, materialized, after) && Undoes(parent, p) == Some(d) {
        assert p == path || p in Published(parent, materialized, before);
      }
      if p :| p in Published(parent, materialized, before) && Undoes(parent, p) == Some(d) {
        assert p in Published(parent, materialized, after);
      }
      if Undoes(parent, path) == Some(d) && path !in materialized {
        assert path in Published(parent, materialized, after);
      }
    }
  }

  lemma ConsistentGrows(n: Node, objs: ObjectMap)
    requires Consistent(n) && Grown(n.objs, objs)
    ensures Consistent(n.(objs := objs))
  {
    WorkableIncluded(n, objs);
  }

  lemma WorkableGrows(n: Node, objs: ObjectMap)
    requires Workable(n) && Grown(n.objs, objs)
    ensures Workable(n.(objs := objs))
  {
    WorkableIncluded(n, objs);
  }

  lemma WorkableIncluded(n: Node, objs: ObjectMap)
    requires Workable(n) && Addressed(objs) && Includes(n.objs, objs)
    ensures Workable(n.(objs := objs))
  {
    hide Addressed, IsPrimitive;
    SavedTipsGrow(n, objs);
  }

  lemma SavedTipsGrow(n: Node, objs: ObjectMap)
    requires Includes(n.objs, objs)
    ensures forall name :: name in n.snapshots && SavedTips(n.objs, n.snapshots[name]) ==> SavedTips(objs, n.snapshots[name])
  {
  }
}
