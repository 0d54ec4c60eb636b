/** Ghost-adds (fold.rs): a primitive that brings back a path whose latest touch in its own
    history is a delete. The verdict is a fact about history alone, so every node that holds the
    history agrees, and a verdict drawn from a complete history can be cached for good. */
module Touch {
  import opened Prelude
  import opened Objects
  import opened Store
  import opened Dag
  import opened Trees
  import opened Order

  datatype TouchKind = Add | Delete

  /** How a commit toggled a path against its sole parent; commits that are not primitives with
      exactly one parent toggle nothing. */
  ghost function Toggle(o: Oid, path: Path): Option<TouchKind> {
    if IsPrimitive(o) && |Parents(o)| == 1 then
      var now, before := Visible(TreeOf(o), path), Visible(TreeOf(Parents(o)[0]), path);
      if now && !before then Some(Add) else if before && !now then Some(Delete) else None
    else None
  }

  ghost function Touchers(start: Oid, path: Path): set<Oid> {
    set o | o in Lineage(start) && Toggle(o, path).Some?
  }

  /** The latest commit in `start`'s history, itself included, that toggled the path. */
  ghost function MostRecent(start: Oid, path: Path): Option<(Oid, TouchKind)> {
    if Touchers(start, path) == {} then None
    else
      var o := Latest(Touchers(start, path));
      Some((o, Toggle(o, path).value))
  }

  ghost function ReaddsOf(o: Oid): seq<Oid> {
    match CommitAt(o)
    case Some(c) => if Primitive(c) then c.message.readds else []
    case None => []
  }

  /** `path` counts as resurrected by `o`: its latest touch before `o` is a delete that `o` does
      not name as one it means to undo. */
  ghost predicate Resurrects(o: Oid, parent: Oid, path: Path) {
    match MostRecent(parent, path)
    case Some((d, Delete)) => d !in ReaddsOf(o)
    case _ => false
  }

  ghost predicate GhostAdd(o: Oid) {
    IsPrimitive(o) && |Parents(o)| == 1 &&
    exists path :: path in Added(Some(TreeOf(Parents(o)[0])), TreeOf(o)) && Resurrects(o, Parents(o)[0], path)
  }

  // ---- What a ghost-add is ----

  /** The commit took the path away from, or gave it to, what its one parent shows. */
  ghost predicate Deletes(o: Oid, path: Path) {
    IsPrimitive(o) && |Parents(o)| == 1 && Visible(TreeOf(Parents(o)[0]), path) && !Visible(TreeOf(o), path)
  }

  ghost predicate Adds(o: Oid, path: Path) {
    IsPrimitive(o) && |Parents(o)| == 1 && !Visible(TreeOf(Parents(o)[0]), path) && Visible(TreeOf(o), path)
  }

  /** In the history that ends with `start`, `d` deleted the path, and nothing with a greater key touched
      it since. */
  ghost predicate DeletedLast(start: Oid, path: Path, d: Oid) {
    && d in Lineage(start) && Deletes(d, path)
    && forall x :: x in Lineage(start) && (Deletes(x, path) || Adds(x, path)) && x != d ==> KeyLess(KeyOf(x), KeyOf(d))
  }

  lemma DeletedLastIff(start: Oid, path: Path, d: Oid)
    ensures MostRecent(start, path) == Some((d, Delete)) <==> DeletedLast(start, path, d)
  {
    hide Visible, Ancestors, KeyOf, KeyLess;
    var s := Touchers(start, path);
    assert forall x :: x in s <==> x in Lineage(start) && (Deletes(x, path) || Adds(x, path));
    if DeletedLast(start, path, d) {
      assert IsLatest(d, s);
      LatestUnique(s, d, Latest(s));
    }
  }

  /** A commit is one exactly if it is a primitive with one parent that brings a path back whose last
      touch in that parent's history is a delete, and that very delete is not among those it says it
      undoes, whatever others are. */
  lemma GhostAddIff(o: Oid)
    ensures GhostAdd(o) <==> IsPrimitive(o) && exists parent, path, d :: Parents(o) == [parent] && BringsBack(o, parent, path, d)
  {
    hide MostRecent, DeletedLast, Added, Ancestors;
    if GhostAdd(o) {
      var parent := Parents(o)[0];
      var path :| path in Added(Some(TreeOf(parent)), TreeOf(o)) && Resurrects(o, parent, path);
      var d := MostRecent(parent, path).value.0;
      DeletedLastIff(parent, path, d);
      assert Parents(o) == [parent] && BringsBack(o, parent, path, d);
    }
    if parent, path, d :| IsPrimitive(o) && Parents(o) == [parent] && BringsBack(o, parent, path, d) {
      DeletedLastIff(parent, path, d);
      assert path in Added(Some(TreeOf(Parents(o)[0])), TreeOf(o)) && Resurrects(o, Parents(o)[0], path);
    }
  }

  /** It adds the path, over the delete `d`, without saying so. */
  ghost predicate BringsBack(o: Oid, parent: Oid, path: Path, d: Oid) {
    path in Added(Some(TreeOf(parent)), TreeOf(o)) && DeletedLast(parent, path, d) && d !in ReaddsOf(o)
  }

  // ---- What has to be in the store to tell ----

  ghost predicate ToggleHeld(m: ObjectMap, o: Oid, path: Path) {
    && HasCommit(m, o)
    && (IsPrimitive(o) && |Parents(o)| == 1 ==>
          HasCommit(m, Parents(o)[0]) && PathHeld(m, TreeOf(o), path) && PathHeld(m, TreeOf(Parents(o)[0]), path))
  }

  ghost predicate TouchHeld(m: ObjectMap, start: Oid, path: Path) {
    forall o :: o in Lineage(start) ==> ToggleHeld(m, o, path)
  }

  ghost predicate GhostHeld(m: ObjectMap, o: Oid) {
    && o in m
    && (IsPrimitive(o) && |Parents(o)| == 1 ==>
          var p := Parents(o)[0];
          && HasCommit(m, p)
          && DiffHeld(m, Some(TreeOf(p)), TreeOf(o))
          && forall path :: path in Added(Some(TreeOf(p)), TreeOf(o)) ==> TouchHeld(m, p, path))
  }

  /** The latest touch of a path is at hand: remembered, or to be found on the store. */
  ghost predicate Tells(m: ObjectMap, have: set<(Oid, Path)>, start: Oid, path: Path) {
    (start, path) in have || TouchHeld(m, start, path)
  }

  /** The verdict over some paths in turn: the first that cannot be told, or is resurrected,
      settles it. */
  ghost function Judge(m: ObjectMap, have: set<(Oid, Path)>, o: Oid, parent: Oid, paths: seq<Path>): Option<bool> {
    if paths == [] then Some(false)
    else if !Tells(m, have, parent, paths[0]) then None
    else if Resurrects(o, parent, paths[0]) then Some(true)
    else Judge(m, have, o, parent, paths[1..])
  }

  /** What the check makes of a store as it is, complete or not, with some touches remembered; the
      added paths are judged in the order the store's tree objects list them in. */
  ghost function Verdict(order: EntryOrder, m: ObjectMap, have: set<(Oid, Path)>, o: Oid): Option<bool> {
    if o !in m then None
    else if !IsPrimitive(o) || |Parents(o)| != 1 then Some(false)
    else
      var p := Parents(o)[0];
      if !HasCommit(m, p) || !DiffHeld(m, Some(TreeOf(p)), TreeOf(o)) then None
      else Judge(m, have, o, p, AddedList(order, Some(TreeOf(p)), TreeOf(o)))
  }

  // ---- When there is a verdict ----

  /** The first `k` paths can be told, and so can the next one, which is resurrected, if there is
      one. */
  ghost predicate SettledAt(m: ObjectMap, have: set<(Oid, Path)>, o: Oid, parent: Oid, paths: seq<Path>, k: nat) {
    && k <= |paths|
    && (forall i :: 0 <= i < k ==> Tells(m, have, parent, paths[i]))
    && (k < |paths| ==> Tells(m, have, parent, paths[k]) && Resurrects(o, parent, paths[k]))
  }

  /** What there has to be for a verdict: the commit, and if it is a primitive with one parent, the
      parent, the trees the comparison opens, and the touches up to the first resurrected path. */
  ghost predicate Told(order: EntryOrder, m: ObjectMap, have: set<(Oid, Path)>, o: Oid) {
    && o in m
    && (IsPrimitive(o) && |Parents(o)| == 1 ==>
          var p := Parents(o)[0];
          && HasCommit(m, p)
          && DiffHeld(m, Some(TreeOf(p)), TreeOf(o))
          && exists k :: SettledAt(m, have, o, p, AddedList(order, Some(TreeOf(p)), TreeOf(o)), k))
  }

  lemma {:induction false} JudgesIfSettled(m: ObjectMap, have: set<(Oid, Path)>, o: Oid, parent: Oid, paths: seq<Path>, k: nat)
    requires SettledAt(m, have, o, parent, paths, k)
    ensures Judge(m, have, o, parent, paths).Some?
    decreases |paths|
  {
    hide Tells, Resurrects;
    if paths != [] && !Resurrects(o, parent, paths[0]) {
      assert forall i :: 0 <= i < k - 1 ==> paths[1..][i] == paths[i + 1];
      JudgesIfSettled(m, have, o, parent, paths[1..], k - 1);
    }
  }

  lemma {:induction false} SettledIfJudges(m: ObjectMap, have: set<(Oid, Path)>, o: Oid, parent: Oid, paths: seq<Path>) returns (k: nat)
    requires Judge(m, have, o, parent, paths).Some?
    ensures SettledAt(m, have, o, parent, paths, k)
    decreases |paths|
  {
    hide Tells, Resurrects;
    k := 0;
    if paths != [] && !Resurrects(o, parent, paths[0]) {
      var rest := SettledIfJudges(m, have, o, parent, paths[1..]);
      k := rest + 1;
      assert forall i :: 0 < i < k ==> paths[i] == paths[1..][i - 1];
    }
  }

  /** There is a verdict exactly when there is what it takes. */
  lemma VerdictIfTold(order: EntryOrder, m: ObjectMap, have: set<(Oid, Path)>, o: Oid)
    ensures Verdict(order, m, have, o).Some? <==> Told(order, m, have, o)
  {
    hide Judge, SettledAt, DiffHeld, AddedList, IsPrimitive, HasCommit;
    if o in m && IsPrimitive(o) && |Parents(o)| == 1 {
      var p := Parents(o)[0];
      var paths := AddedList(order, Some(TreeOf(p)), TreeOf(o));
      if Verdict(order, m, have, o).Some? {
        var k := SettledIfJudges(m, have, o, p, paths);
      } else if k :| Told(order, m, have, o) && SettledAt(m, have, o, p, paths, k) {
        JudgesIfSettled(m, have, o, p, paths, k);
      }
    }
  }

  lemma {:induction false} JudgeIsTrue(m: ObjectMap, have: set<(Oid, Path)>, o: Oid, parent: Oid, paths: seq<Path>)
    ensures var v := Judge(m, have, o, parent, paths);
      && (v.Some? ==> v.value == exists path :: path in paths && Resurrects(o, parent, path))
      && ((forall path :: path in paths ==> TouchHeld(m, parent, path)) ==> v.Some?)
  {
    hide TouchHeld, Resurrects;
    if paths != [] {
      assert paths[0] in paths && forall path :: path in paths[1..] ==> path in paths;
      JudgeIsTrue(m, have, o, parent, paths[1..]);
    }
  }

  /** A verdict is never wrong, in whatever order paths are judged, and there is one whenever the
      whole history is held. */
  lemma VerdictIsTrue(order: EntryOrder, m: ObjectMap, have: set<(Oid, Path)>, o: Oid)
    ensures Verdict(order, m, have, o).Some? ==> Verdict(order, m, have, o).value == GhostAdd(o)
    ensures GhostHeld(m, o) ==> Verdict(order, m, have, o).Some?
  {
    hide Judge, TouchHeld, Resurrects, DiffHeld, AddedList, Added;
    if IsPrimitive(o) && |Parents(o)| == 1 {
      var parent, child := Some(TreeOf(Parents(o)[0])), TreeOf(o);
      JudgeIsTrue(m, have, o, Parents(o)[0], AddedList(order, parent, child));
      forall path
        ensures path in AddedList(order, parent, child) <==> path in Added(parent, child)
      {
        AddedListHas(order, parent, child, path);
      }
    }
  }

  lemma {:induction false} JudgeMeansSame(m: ObjectMap, have: set<(Oid, Path)>, have': set<(Oid, Path)>, o: Oid, parent: Oid, paths: seq<Path>)
    requires forall path :: Tells(m, have, parent, path) == Tells(m, have', parent, path)
    ensures Judge(m, have, o, parent, paths) == Judge(m, have', o, parent, paths)
    decreases |paths|
  {
    hide Tells, Resurrects;
    if paths != [] {
      JudgeMeansSame(m, have, have', o, parent, paths[1..]);
    }
  }

  /** Remembering what the store tells anyway changes no verdict. */
  lemma VerdictMeansSame(order: EntryOrder, m: ObjectMap, have: set<(Oid, Path)>, have': set<(Oid, Path)>, o: Oid)
    requires have <= have' && forall k :: k in have' ==> k in have || TouchHeld(m, k.0, k.1)
    ensures Verdict(order, m, have', o) == Verdict(order, m, have, o)
  {
    hide Judge, TouchHeld, DiffHeld, AddedList, IsPrimitive, HasCommit;
    if IsPrimitive(o) && |Parents(o)| == 1 {
      var p := Parents(o)[0];
      JudgeMeansSame(m, have, have', o, p, AddedList(order, Some(TreeOf(p)), TreeOf(o)));
    }
  }

  lemma {:induction false} DiffHeldGrows(m: ObjectMap, m': ObjectMap, parent: Option<Oid>, child: Oid)
    requires Includes(m, m') && DiffHeld(m, parent, child)
    ensures DiffHeld(m', parent, child)
    decreases Rank(child)
  {
    if parent != Some(child) && Preimage(child).Some? && Preimage(child).value.Tree? {
      forall d | d in DirsOf(child)
        ensures DiffHeld(m', SubTree(parent, d), DirsOf(child)[d])
      {
        DiffHeldGrows(m, m', SubTree(parent, d), DirsOf(child)[d]);
      }
    }
  }

  lemma {:induction false} JudgeGrows(m: ObjectMap, m': ObjectMap, have: set<(Oid, Path)>, o: Oid, parent: Oid, paths: seq<Path>)
    requires Includes(m, m') && Judge(m, have, o, parent, paths).Some?
    ensures Judge(m', have, o, parent, paths) == Judge(m, have, o, parent, paths)
  {
    hide TouchHeld, Resurrects, Includes;
    if paths != [] {
      if TouchHeld(m, parent, paths[0]) {
        TouchHeldGrows(m, m', parent, paths[0]);
      }
      if !Resurrects(o, parent, paths[0]) {
        JudgeGrows(m, m', have, o, parent, paths[1..]);
      }
    }
  }

  /** What was told once is told the same on every larger store. */
  lemma VerdictGrows(order: EntryOrder, m: ObjectMap, m': ObjectMap, have: set<(Oid, Path)>, o: Oid)
    requires Includes(m, m') && Verdict(order, m, have, o).Some?
    ensures Verdict(order, m', have, o) == Verdict(order, m, have, o)
  {
    hide Judge, DiffHeld, AddedList;
    if IsPrimitive(o) && |Parents(o)| == 1 {
      var p := Parents(o)[0];
      DiffHeldGrows(m, m', Some(TreeOf(p)), TreeOf(o));
      JudgeGrows(m, m', have, o, p, AddedList(order, Some(TreeOf(p)), TreeOf(o)));
    }
  }

  lemma {:induction false} PathHeldGrows(m: ObjectMap, m': ObjectMap, tree: Oid, p: Path)
    requires Includes(m, m') && PathHeld(m, tree, p)
    ensures PathHeld(m', tree, p)
    decreases |p|
  {
    if '/' in p && Head(p) !in FilesOf(tree) && Head(p) in DirsOf(tree) {
      PathHeldGrows(m, m', DirsOf(tree)[Head(p)], Rest(p));
    }
  }

  lemma TouchHeldGrows(m: ObjectMap, m': ObjectMap, start: Oid, path: Path)
    requires Includes(m, m') && TouchHeld(m, start, path)
    ensures TouchHeld(m', start, path)
  {
    forall o | o in Lineage(start)
      ensures ToggleHeld(m', o, path)
    {
      assert ToggleHeld(m, o, path);
      if IsPrimitive(o) && |Parents(o)| == 1 {
        PathHeldGrows(m, m', TreeOf(o), path);
        PathHeldGrows(m, m', TreeOf(Parents(o)[0]), path);
      }
    }
  }

  lemma {:induction false} ClosedHoldsPath(m: ObjectMap, tree: Oid, p: Path)
    requires Addressed(m) && Closed(m) && HasTree(m, tree)
    ensures PathHeld(m, tree, p)
    decreases |p|
  {
    AddressedPreimage(m, tree);
    assert RefsHeld(m, m[tree]);
    if '/' in p && Head(p) in DirsOf(tree) {
      ClosedHoldsPath(m, DirsOf(tree)[Head(p)], Rest(p));
    }
  }

  lemma ClosedCommit(m: ObjectMap, o: Oid)
    requires Addressed(m) && Closed(m) && HasCommit(m, o)
    ensures IsCommit(o) && HasTree(m, TreeOf(o))
    ensures forall p :: p in Parents(o) ==> HasCommit(m, p)
  {
    AddressedPreimage(m, o);
    assert RefsHeld(m, m[o]);
  }

  lemma ClosedHoldsTouch(m: ObjectMap, start: Oid, path: Path)
    requires Addressed(m) && Closed(m) && HasCommit(m, start)
    ensures TouchHeld(m, start, path)
  {
    ClosedIsWalkable(m, start);
    forall o | o in Lineage(start)
      ensures ToggleHeld(m, o, path)
    {
      ClosedCommit(m, o);
      ClosedHoldsPath(m, TreeOf(o), path);
      if |Parents(o)| == 1 {
        ClosedCommit(m, Parents(o)[0]);
        ClosedHoldsPath(m, TreeOf(Parents(o)[0]), path);
      }
    }
  }

  lemma {:induction false} ClosedHoldsDiff(m: ObjectMap, parent: Option<Oid>, child: Oid)
    requires Addressed(m) && Closed(m) && HasTree(m, child) && (parent.Some? ==> HasTree(m, parent.value))
    ensures DiffHeld(m, parent, child)
    decreases Rank(child)
  {
    AddressedPreimage(m, child);
    assert RefsHeld(m, m[child]);
    if parent.Some? {
      AddressedPreimage(m, parent.value);
      assert RefsHeld(m, m[parent.value]);
    }
    forall d | d in DirsOf(child)
      ensures DiffHeld(m, SubTree(parent, d), DirsOf(child)[d])
    {
      ClosedHoldsDiff(m, SubTree(parent, d), DirsOf(child)[d]);
    }
  }

  /** A store without dangling references always suffices. */
  lemma ClosedHoldsGhost(m: ObjectMap, o: Oid)
    requires Addressed(m) && Closed(m) && o in m
    ensures GhostHeld(m, o)
  {
    AddressedPreimage(m, o);
    if IsPrimitive(o) && |Parents(o)| == 1 {
      ClosedCommit(m, o);
      var p := Parents(o)[0];
      ClosedCommit(m, p);
      ClosedHoldsDiff(m, Some(TreeOf(p)), TreeOf(o));
      forall path | path in Added(Some(TreeOf(p)), TreeOf(o))
        ensures TouchHeld(m, p, path)
      {
        ClosedHoldsTouch(m, p, path);
      }
    }
  }

  // ---- The walk, uncached ----

  /** Either something the walk needs is missing, or some ancestor's id names a non-commit. */
  ghost predicate TouchError(m: ObjectMap, start: Oid, e: Error) {
    || (e.ObjectNotFound? && e.oid !in m)
    || (e == Malformed && exists o :: o in Lineage(start) && o in m && !m[o].Commit?)
  }

  /** How a commit toggled a path, read from the store. */
  method ToggleOf(store: MemStore, o: Oid, c: CommitObj, path: Path) returns (r: Result<Option<TouchKind>>)
    requires store.Valid() && HasCommit(store.objs, o) && CommitAt(o) == Some(c)
    ensures r.Ok? <==> ToggleHeld(store.objs, o, path)
    ensures r.Ok? ==> r.value == Toggle(o, path)
    ensures r.Err? ==> TouchError(store.objs, o, r.error)
  {
    if !Primitive(c) || |c.parents| != 1 {
      return Ok(None);
    }
    assert Parents(o) == c.parents && TreeOf(o) == c.tree;
    var now :- PathPresentInTree(store, c.tree, path);
    var loaded := store.LoadCommit(c.parents[0]);
    if loaded.Err? {
      ParentIsAncestor(o, c.parents[0]);
      assert c.parents[0] in Lineage(c.parents[0]);
      return Err(loaded.error);
    }
    var before :- PathPresentInTree(store, loaded.value.tree, path);
    return Ok(if now && !before then Some(Add) else if before && !now then Some(Delete) else None);
  }

  /** The best candidate among the commits looked at so far. */
  ghost predicate BestSoFar(done: set<Oid>, path: Path, best: Option<(OrderKey, Oid, TouchKind)>) {
    var touched := set o | o in done && Toggle(o, path).Some?;
    match best
    case None => touched == {}
    case Some((key, o, kind)) => IsLatest(o, touched) && key == KeyOf(o) && Toggle(o, path) == Some(kind)
  }

  method Better(best: Option<(OrderKey, Oid, TouchKind)>, o: Oid, c: CommitObj, kind: Option<TouchKind>, ghost done: set<Oid>, ghost path: Path)
    returns (best': Option<(OrderKey, Oid, TouchKind)>)
    requires CommitAt(o) == Some(c) && kind == Toggle(o, path) && BestSoFar(done, path, best)
    ensures BestSoFar(done + {o}, path, best')
  {
    best' := best;
    ghost var before := set x | x in done && Toggle(x, path).Some?;
    ghost var after := set x | x in done + {o} && Toggle(x, path).Some?;
    if kind.Some? {
      assert after == before + {o};
      var key := OrderKey(c.message.counter, c.message.node, o);
      if best.None? {
        best' := Some((key, o, kind.value));
      } else {
        KeyOfTotal(best.value.1, o);
        if KeyLess(best.value.0, key) {
          forall x | x in before && x != best.value.1
            ensures KeyLess(KeyOf(x), key)
          {
            KeyTransitive(KeyOf(x), best.value.0, key);
          }
          best' := Some((key, o, kind.value));
        }
      }
    } else {
      assert after == before;
    }
  }

  method MostRecentTouchUncached(store: MemStore, start: Oid, path: Path) returns (r: Result<Option<(Oid, TouchKind)>>)
    requires store.Valid()
    ensures r.Ok? <==> TouchHeld(store.objs, start, path)
    ensures r.Ok? ==> r.value == MostRecent(start, path)
    ensures r.Err? ==> TouchError(store.objs, start, r.error)
  {
    hide Ancestors, Parents, Toggle, BestSoFar;
    var best: Option<(OrderKey, Oid, TouchKind)> := None;
    NothingYet(path);
    var seen: set<Oid> := {};
    var stack := [start];
    while stack != []
      invariant seen <= Lineage(start)
      invariant forall o :: o in stack ==> o in Lineage(start)
      invariant start in seen || start in stack
      invariant Explored(store.objs, seen, stack)
      invariant forall o :: o in seen ==> ToggleHeld(store.objs, o, path)
      invariant BestSoFar(seen, path, best)
      decreases Lineage(start) - seen, |stack|
    {
      var o := stack[|stack| - 1];
      ghost var before := stack;
      stack := stack[..|stack| - 1];
      assert before == stack + [o];
      if o in seen {
        continue;
      }
      var loaded := store.LoadCommit(o);
      if loaded.Err? {
        assert o in Lineage(start) && !ToggleHeld(store.objs, o, path);
        return Err(loaded.error);
      }
      var c := loaded.value;
      var kind := ToggleOf(store, o, c, path);
      if kind.Err? {
        LineageNests(o, start);
        return Err(kind.error);
      }
      best := Better(best, o, c, kind.value, seen, path);
      seen := seen + {o};
      ParentsAreAncestors(start, o);
      stack := PushUnseen(stack, seen, c.parents);
    }
    LineageWithin(start, seen);
    BestOfAll(start, path, best);
    return Ok(if best.None? then None else Some((best.value.1, best.value.2)));
  }

  lemma NothingYet(path: Path)
    ensures BestSoFar({}, path, None)
  {
  }

  lemma LineageWithin(start: Oid, seen: set<Oid>)
    requires start in seen && ParentClosed(seen) && seen <= Lineage(start)
    ensures seen == Lineage(start)
  {
    AncestorsWithin(start, seen);
  }

  lemma BestOfAll(start: Oid, path: Path, best: Option<(OrderKey, Oid, TouchKind)>)
    requires BestSoFar(Lineage(start), path, best)
    ensures MostRecent(start, path) == if best.None? then None else Some((best.value.1, best.value.2))
  {
    assert Touchers(start, path) == set o | o in Lineage(start) && Toggle(o, path).Some?;
    if best.Some? {
      LatestUnique(Touchers(start, path), best.value.1, Latest(Touchers(start, path)));
    }
  }
}
