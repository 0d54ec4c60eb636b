/** Everything reachable from some roots, commits to trees to blobs (fold.rs, engine.rs): the unit
    of replication. */
module Reach {
  import opened Prelude
  import opened Objects
  import opened Store
  import opened Dag

  ghost function RefsAt(o: Oid): (refs: set<Oid>)
    ensures forall r :: r in refs ==> Rank(r) < Rank(o)
  {
    match Preimage(o)
    case Some(obj) =>
      PreimageSound(o);
      assert forall r :: r in Refs(obj) ==> Rank(r) < Rank(o) by {
        forall r | r in Refs(obj)
          ensures Rank(r) < Rank(o)
        {
          RefsRankBelow(obj, r);
        }
      }
      Refs(obj)
    case None => {}
  }

  ghost function Reachable(o: Oid): set<Oid>
    decreases Rank(o)
  {
    {o} + set r, x | r in RefsAt(o) && x in Reachable(r) :: x
  }

  ghost function ReachableFrom(roots: set<Oid>): set<Oid> {
    set r, x | r in roots && x in Reachable(r) :: x
  }

  ghost predicate RefClosed(s: set<Oid>) {
    forall o, r :: o in s && r in RefsAt(o) ==> r in s
  }

  lemma {:induction false} ReachableIsRefClosed(o: Oid)
    ensures RefClosed(Reachable(o))
    decreases Rank(o)
  {
    hide RefsAt;
    forall x, y | x in Reachable(o) && y in RefsAt(x)
      ensures y in Reachable(o)
    {
      if x == o {
        assert y in Reachable(y);
      } else {
        var r :| r in RefsAt(o) && x in Reachable(r);
        ReachableIsRefClosed(r);
        assert y in Reachable(r);
      }
    }
  }

  lemma {:induction false} ReachableWithin(o: Oid, s: set<Oid>)
    requires o in s && RefClosed(s)
    ensures Reachable(o) <= s
    decreases Rank(o)
  {
    forall r | r in RefsAt(o)
      ensures Reachable(r) <= s
    {
      ReachableWithin(r, s);
    }
  }

  /** Replicating a commit replicates its whole history. */
  lemma {:induction false} HistoryIsReachable(o: Oid)
    ensures Lineage(o) <= Reachable(o)
    decreases Rank(o)
  {
    forall p | p in Parents(o)
      ensures Lineage(p) <= Reachable(o)
    {
      HistoryIsReachable(p);
      assert p in RefsAt(o);
    }
  }

  /** The commits reached from a commit of a closed store are exactly its history. */
  lemma {:induction false} CommitsReachedAreHistory(m: ObjectMap, o: Oid)
    requires Addressed(m) && Closed(m) && o in m
    ensures forall x :: x in Reachable(o) ==> x in m
    ensures forall x :: x in Reachable(o) && IsCommit(x) ==> IsCommit(o) && x in Lineage(o)
    decreases Rank(o)
  {
    hide Addressed, Closed, RefsAt, IsCommit;
    forall x | x in Reachable(o) && x != o
      ensures x in m && (IsCommit(x) ==> IsCommit(o) && x in Lineage(o))
    {
      var r :| r in RefsAt(o) && x in Reachable(r);
      RefIsHeld(m, o, r);
      CommitsReachedAreHistory(m, r);
      if IsCommit(x) {
        ParentIsAncestor(o, r);
      }
    }
  }

  /** Only commits refer to commits, and then as to parents. */
  lemma RefIsHeld(m: ObjectMap, o: Oid, r: Oid)
    requires Addressed(m) && Closed(m) && o in m && r in RefsAt(o)
    ensures r in m && (IsCommit(r) ==> IsCommit(o) && r in Parents(o))
  {
    AddressedPreimage(m, o);
    assert RefsHeld(m, m[o]) && r in Refs(m[o]);
    AddressedPreimage(m, r);
  }

  ghost predicate AllHeld(m: ObjectMap, s: set<Oid>) {
    forall o :: o in s ==> o in m
  }

  /** All of it, or an error if any of it is missing. */
  method ReachableFromAll(store: MemStore, roots: seq<Oid>) returns (r: Result<set<Oid>>)
    requires store.Valid()
    ensures r.Ok? <==> AllHeld(store.objs, ReachableFrom(Elements(roots)))
    ensures r.Ok? ==> r.value == ReachableFrom(Elements(roots))
  {
    hide ReachableFrom, RefsAt, Explored;
    ghost var all := ReachableFrom(Elements(roots));
    RootsAreReached(roots);
    var out: set<Oid> := {};
    var stack := roots;
    NothingExplored(store.objs, stack);
    while stack != []
      invariant out <= all
      invariant forall o :: o in stack ==> o in all
      invariant forall o :: o in roots ==> o in out || o in stack
      invariant Explored(store.objs, out, stack)
      decreases all - out, |stack|
    {
      var o := stack[|stack| - 1];
      ghost var before := stack;
      stack := stack[..|stack| - 1];
      assert before == stack + [o];
      if o in out {
        ExploredAlready(store.objs, out, before, stack, o);
        continue;
      }
      var got := store.Get(o);
      if got.Err? {
        return Err(got.error);
      }
      RefsOfReached(store.objs, roots, o);
      ghost var rest := stack;
      stack := PushRefs(stack, got.value);
      ExploreOne(store.objs, out, before, rest, stack, o);
      out := out + {o};
    }
    AllExplored(store.objs, roots, out);
    return Ok(out);
  }

  /** Everything in `done` is held, and what it refers to is done or waiting. */
  ghost predicate Explored(m: ObjectMap, done: set<Oid>, waiting: seq<Oid>) {
    AllHeld(m, done) && forall o, x :: o in done && x in RefsAt(o) ==> x in done || x in waiting
  }

  lemma NothingExplored(m: ObjectMap, waiting: seq<Oid>)
    ensures Explored(m, {}, waiting)
  {
  }

  lemma ExploredAlready(m: ObjectMap, done: set<Oid>, before: seq<Oid>, after: seq<Oid>, o: Oid)
    requires Explored(m, done, before) && before == after + [o] && o in done
    ensures Explored(m, done, after)
  {
  }

  lemma ExploreOne(m: ObjectMap, done: set<Oid>, before: seq<Oid>, rest: seq<Oid>, after: seq<Oid>, o: Oid)
    requires Addressed(m) && o in m && Explored(m, done, before) && before == rest + [o]
    requires forall x :: x in after <==> x in rest || x in Refs(m[o])
    ensures Explored(m, done + {o}, after)
  {
    hide Addressed, RefsAt;
    RefsAtHeld(m, o);
    forall x, y | x in done + {o} && y in RefsAt(x)
      ensures y in done + {o} || y in after
    {
      if x in done && y !in done {
        assert y in before;
      }
    }
  }

  lemma RefsAtHeld(m: ObjectMap, o: Oid)
    requires Addressed(m) && o in m
    ensures forall x :: x in RefsAt(o) <==> x in Refs(m[o])
  {
    AddressedPreimage(m, o);
  }

  lemma AllExplored(m: ObjectMap, roots: seq<Oid>, out: set<Oid>)
    requires Explored(m, out, []) && out <= ReachableFrom(Elements(roots))
    requires forall o :: o in roots ==> o in out
    ensures out == ReachableFrom(Elements(roots)) && AllHeld(m, out)
  {
    hide Reachable, RefsAt;
    forall x | x in ReachableFrom(Elements(roots))
      ensures x in out
    {
      var r :| r in Elements(roots) && x in Reachable(r);
      ReachableWithin(r, out);
    }
  }

  lemma RootsAreReached(roots: seq<Oid>)
    ensures forall o :: o in roots ==> o in ReachableFrom(Elements(roots))
  {
    forall o | o in roots
      ensures o in ReachableFrom(Elements(roots))
    {
      assert o in Reachable(o) && o in Elements(roots);
    }
  }

  lemma RefsOfReached(m: ObjectMap, roots: seq<Oid>, o: Oid)
    requires Addressed(m) && o in m && o in ReachableFrom(Elements(roots))
    ensures forall x :: x in Refs(m[o]) ==> x in ReachableFrom(Elements(roots))
  {
    AddressedPreimage(m, o);
    var r :| r in Elements(roots) && o in Reachable(r);
    ReachableIsRefClosed(r);
    forall x | x in Refs(m[o])
      ensures x in ReachableFrom(Elements(roots))
    {
      assert x in RefsAt(o);
      assert x in Reachable(r);
    }
  }

  /** A commit's tree and parents, or a tree's entries, go onto the work list. */
  method PushRefs(stack: seq<Oid>, obj: GitObject) returns (grown: seq<Oid>)
    ensures forall x :: x in grown <==> x in stack || x in Refs(obj)
  {
    match obj
    case Blob(_) => return stack;
    case Commit(c) => return stack + [c.tree] + c.parents;
    case Tree(files, dirs) =>
      grown := PushSet(stack, files.Values + dirs.Values);
  }

  method PushSet(stack: seq<Oid>, s: set<Oid>) returns (grown: seq<Oid>)
    ensures forall x :: x in grown <==> x in stack || x in s
  {
    grown := stack;
    var todo := s;
    while todo != {}
      invariant todo <= s
      invariant forall x :: x in grown <==> x in stack || (x in s && x !in todo)
    {
      var x :| x in todo;
      grown := grown + [x];
      todo := todo - {x};
    }
  }

  // ---- Export ----

  /** The objects some ids address, in id order. */
  ghost function RawsOf(s: set<Oid>): seq<Option<GitObject>>
    decreases |s|
  {
    if s == {} then [] else [Preimage(Least(s))] + RawsOf(s - {Least(s)})
  }

  lemma {:induction false} RawsHas(s: set<Oid>, r: Option<GitObject>)
    ensures r in RawsOf(s) <==> exists o :: o in s && r == Preimage(o)
    decreases |s|
  {
    if s != {} {
      RawsHas(s - {Least(s)}, r);
    }
  }

  method Export(store: MemStore, s: set<Oid>) returns (raws: seq<Option<GitObject>>)
    requires store.Valid() && AllHeld(store.objs, s)
    ensures raws == RawsOf(s)
  {
    raws := [];
    var todo := s;
    while todo != {}
      invariant todo <= s
      invariant raws + RawsOf(todo) == RawsOf(s)
    {
      var o := Least(todo);
      AddressedPreimage(store.objs, o);
      todo := todo - {o};
      raws := raws + [Some(store.objs[o])];
    }
  }

  /** What a primitive adds over its parent's tree: the trees and blobs a peer that holds the
      parent does not need to be sent again. */
  ghost function NewUnder(o: Oid): set<Oid> {
    Reachable(TreeOf(o)) - if Parents(o) == [] then {} else Reachable(TreeOf(Parents(o)[0]))
  }

  ghost predicate IsTreeAt(o: Oid) {
    Preimage(o).Some? && Preimage(o).value.Tree?
  }

  /** An object and, if it is a tree, everything below it that is not below a commit. */
  ghost function Gathered(o: Oid): set<Oid>
    decreases Rank(o)
  {
    {o} + if IsTreeAt(o) then set r, x | r in RefsAt(o) && !IsCommit(r) && x in Gathered(r) :: x else {}
  }

  /** Everything in the set is held, and every entry of its trees. */
  ghost predicate AllEntriesHeld(m: ObjectMap, s: set<Oid>) {
    forall o :: o in s ==> o in m && (IsTreeAt(o) ==> forall r :: r in RefsAt(o) ==> r in m)
  }

  /** Everything newly collected is held, and its entries are held and, commits aside, collected. */
  ghost predicate Collected(m: ObjectMap, out: set<Oid>, out': set<Oid>) {
    forall o :: o in out' && o !in out ==>
      o in m && (IsTreeAt(o) ==> forall r :: r in RefsAt(o) ==> r in m && (IsCommit(r) || r in out'))
  }

  lemma CollectedMore(m: ObjectMap, a: set<Oid>, b: set<Oid>, c: set<Oid>)
    requires Collected(m, a, b) && Collected(m, b, c) && b <= c
    ensures Collected(m, a, c)
  {
  }

  lemma ReachableSteps(o: Oid)
    ensures {o} + RefsAt(o) <= Reachable(o)
    ensures forall r :: r in RefsAt(o) ==> Reachable(r) <= Reachable(o)
  {
    forall r | r in RefsAt(o)
      ensures r in Reachable(o)
    {
      assert r in Reachable(r);
    }
  }

  lemma {:induction false} GatheredWithin(m: ObjectMap, o: Oid, s: set<Oid>)
    requires o in s && Collected(m, {}, s)
    ensures Gathered(o) <= s && AllEntriesHeld(m, Gathered(o))
    decreases Rank(o)
  {
    if IsTreeAt(o) {
      forall r | r in RefsAt(o) && !IsCommit(r)
        ensures Gathered(r) <= s && AllEntriesHeld(m, Gathered(r))
      {
        GatheredWithin(m, r, s);
      }
    }
  }

  lemma GatheredSteps(m: ObjectMap, tree: Oid)
    requires IsTreeAt(tree)
    ensures tree in Gathered(tree)
    ensures forall r :: r in RefsAt(tree) && !IsCommit(r) ==> r in Gathered(r) && Gathered(r) <= Gathered(tree)
    ensures AllEntriesHeld(m, Gathered(tree)) ==> forall r :: r in RefsAt(tree) ==> r in m
    ensures AllEntriesHeld(m, Gathered(tree)) ==> forall r :: r in RefsAt(tree) && !IsCommit(r) ==> AllEntriesHeld(m, Gathered(r))
  {
    forall r | r in RefsAt(tree) && !IsCommit(r)
      ensures Gathered(r) <= Gathered(tree)
    {
    }
  }

  /** In a store without dangling references a tree is gathered whole. */
  lemma {:induction false} ClosedGathers(m: ObjectMap, o: Oid)
    requires Addressed(m) && Closed(m) && o in m && !IsCommit(o)
    ensures Gathered(o) == Reachable(o) && AllEntriesHeld(m, Gathered(o)) && AllHeld(m, Gathered(o))
    decreases Rank(o)
  {
    AddressedPreimage(m, o);
    assert RefsHeld(m, m[o]);
    if IsTreeAt(o) {
      forall r | r in RefsAt(o)
        ensures r in m && !IsCommit(r) && Gathered(r) == Reachable(r) && AllEntriesHeld(m, Gathered(r))
      {
        AddressedPreimage(m, r);
        ClosedGathers(m, r);
      }
    }
  }

  /** All trees and blobs of a tree, itself included, or an error exactly when an entry is missing. */
  method TreeObjects(store: MemStore, tree: Oid) returns (r: Result<set<Oid>>)
    requires store.Valid()
    ensures r.Ok? <==> AllEntriesHeld(store.objs, Gathered(tree))
    ensures r.Ok? ==> r.value == Gathered(tree)
  {
    hide RefsAt, Gathered;
    var out :- CollectTreeObjects(store, tree, {});
    GatheredWithin(store.objs, tree, out);
    assert {} + Gathered(tree) == Gathered(tree);
    return Ok(out);
  }

  method CollectTreeObjects(store: MemStore, tree: Oid, out: set<Oid>) returns (r: Result<set<Oid>>)
    requires store.Valid()
    ensures r.Ok? ==> out + {tree} <= r.value <= out + Gathered(tree) && Collected(store.objs, out, r.value)
    ensures r.Err? ==> !AllEntriesHeld(store.objs, Gathered(tree))
    decreases Rank(tree), 1
  {
    hide RefsAt;
    if tree in out {
      return Ok(out);
    }
    var got :- store.Get(tree);
    AddressedPreimage(store.objs, tree);
    if !got.Tree? {
      return Ok(out + {tree});
    }
    TreeRefs(tree, got);
    r := CollectEntries(store, tree, got.files.Values + got.dirs.Values, out, out + {tree});
  }

  lemma TreeRefs(tree: Oid, obj: GitObject)
    requires Preimage(tree) == Some(obj) && obj.Tree?
    ensures RefsAt(tree) == obj.files.Values + obj.dirs.Values && IsTreeAt(tree)
  {
  }

  /** Entry by entry: blobs are collected, trees gone into, commits passed over. */
  method CollectEntries(store: MemStore, ghost tree: Oid, refs: set<Oid>, ghost before: set<Oid>, out: set<Oid>) returns (r: Result<set<Oid>>)
    requires store.Valid() && IsTreeAt(tree) && tree in store.objs && refs == RefsAt(tree) && out == before + {tree}
    ensures r.Ok? ==> before + {tree} <= r.value <= before + Gathered(tree) && Collected(store.objs, before, r.value)
    ensures r.Err? ==> !AllEntriesHeld(store.objs, Gathered(tree))
    decreases Rank(tree), 0
  {
    hide RefsAt, Gathered, AllEntriesHeld, Collected;
    GatheredSteps(store.objs, tree);
    var all, todo := out, refs;
    NothingCollected(store.objs, all);
    while todo != {}
      invariant todo <= refs
      invariant before + {tree} <= all <= before + Gathered(tree)
      invariant Collected(store.objs, before + {tree}, all)
      invariant forall x :: x in refs && x !in todo ==> x in store.objs && (IsCommit(x) || x in all)
    {
      var x :| x in todo;
      todo := todo - {x};
      var got :- store.Get(x);
      AddressedPreimage(store.objs, x);
      ghost var sofar := all;
      match got {
        case Blob(_) =>
          OneBlob(store.objs, all, x);
          all := all + {x};
        case Tree(_, _) =>
          all :- CollectTreeObjects(store, x, all);
        case Commit(_) =>
          NothingCollected(store.objs, all);
      }
      CollectedMore(store.objs, before + {tree}, sofar, all);
    }
    TreeCollected(store.objs, before, tree, all);
    return Ok(all);
  }

  lemma NothingCollected(m: ObjectMap, out: set<Oid>)
    ensures Collected(m, out, out)
  {
  }

  lemma OneBlob(m: ObjectMap, out: set<Oid>, o: Oid)
    requires o in m && !IsTreeAt(o)
    ensures Collected(m, out, out + {o})
  {
  }

  lemma TreeCollected(m: ObjectMap, before: set<Oid>, tree: Oid, all: set<Oid>)
    requires tree in m && Collected(m, before + {tree}, all)
    requires forall x :: x in RefsAt(tree) ==> x in m && (IsCommit(x) || x in all)
    ensures Collected(m, before, all)
  {
  }
}
