/** The commit graph: ancestry, and the merge base of two commits (fold.rs). Because ids are
    content addresses, ancestry is a property of an id alone; a store only has to hold it. */
module Dag {
  import opened Prelude
  import opened Objects
  import opened Store

  /** All commits strictly before `o`. */
  ghost function Ancestors(o: Oid): set<Oid>
    decreases Rank(o)
  {
    set p, a | p in Parents(o) && a in {p} + Ancestors(p) :: a
  }

  /** `o` and everything before it. */
  ghost function Lineage(o: Oid): set<Oid> {
    {o} + Ancestors(o)
  }

  ghost predicate ParentClosed(s: set<Oid>) {
    forall o, p :: o in s && p in Parents(o) ==> p in s
  }

  lemma ParentIsAncestor(o: Oid, p: Oid)
    requires p in Parents(o)
    ensures Lineage(p) <= Ancestors(o)
  {
  }

  lemma {:induction false} AncestorRank(o: Oid, a: Oid)
    requires a in Ancestors(o)
    ensures Rank(a) < Rank(o)
    decreases Rank(o)
  {
    var p :| p in Parents(o) && a in {p} + Ancestors(p);
    if a != p {
      AncestorRank(p, a);
    }
  }

  lemma {:induction false} AncestorTransitive(a: Oid, b: Oid, c: Oid)
    requires a in Ancestors(b) && b in Ancestors(c)
    ensures a in Ancestors(c)
    decreases Rank(c)
  {
    var p :| p in Parents(c) && b in {p} + Ancestors(p);
    if b != p {
      AncestorTransitive(a, b, p);
    }
  }

  lemma ParentsAreAncestors(start: Oid, o: Oid)
    requires o in Lineage(start)
    ensures forall p :: p in Parents(o) ==> p in Ancestors(start)
  {
    forall p | p in Parents(o)
      ensures p in Ancestors(start)
    {
      ParentIsAncestor(o, p);
      if o != start {
        AncestorTransitive(p, o, start);
      }
    }
  }

  lemma LineageNests(a: Oid, b: Oid)
    requires a in Lineage(b)
    ensures Lineage(a) <= Lineage(b)
  {
    forall x | x in Lineage(a)
      ensures x in Lineage(b)
    {
      if x != a && a != b {
        AncestorTransitive(x, a, b);
      }
    }
  }

  lemma {:induction false} AncestorsWithin(o: Oid, s: set<Oid>)
    requires forall p :: p in Parents(o) ==> p in s
    requires ParentClosed(s)
    ensures Ancestors(o) <= s
    decreases Rank(o)
  {
    forall p | p in Parents(o)
      ensures Ancestors(p) <= s
    {
      AncestorsWithin(p, s);
    }
  }

  // ---- Walking a store ----

  /** The store holds `o` and all of its history as commits. */
  ghost predicate Walkable(m: ObjectMap, o: Oid) {
    forall a :: a in Lineage(o) ==> HasCommit(m, a)
  }

  lemma {:induction false} ClosedIsWalkable(m: ObjectMap, o: Oid)
    requires Addressed(m) && Closed(m) && HasCommit(m, o)
    ensures Walkable(m, o)
    decreases Rank(o)
  {
    AddressedPreimage(m, o);
    assert RefsHeld(m, m[o]);
    forall p | p in Parents(o)
      ensures Walkable(m, p)
    {
      ClosedIsWalkable(m, p);
    }
    forall a | a in Ancestors(o)
      ensures HasCommit(m, a)
    {
      var p :| p in Parents(o) && a in {p} + Ancestors(p);
      assert a in Lineage(p);
    }
  }

  /** Why a walk of `start`'s history fails: some commit of it is missing, or is no commit. */
  ghost predicate WalkError(m: ObjectMap, start: Oid, e: Error) {
    exists o :: o in Lineage(start) && !HasCommit(m, o) && e == if o in m then Malformed else ObjectNotFound(o)
  }

  /** Push the commits not seen yet onto a work list. */
  method PushUnseen(stack: seq<Oid>, seen: set<Oid>, parents: seq<Oid>) returns (grown: seq<Oid>)
    ensures forall x :: x in grown <==> x in stack || (x in parents && x !in seen)
  {
    grown := stack;
    var i := 0;
    while i < |parents|
      invariant 0 <= i <= |parents|
      invariant forall x :: x in grown <==> x in stack || (x in parents[..i] && x !in seen)
    {
      assert parents[..i + 1] == parents[..i] + [parents[i]];
      if parents[i] !in seen {
        grown := grown + [parents[i]];
      }
      i := i + 1;
    }
    assert parents[..i] == parents;
  }

  /** Everything in `done` is a commit of `m` whose parents are done or still waiting. */
  ghost predicate Explored(m: ObjectMap, done: set<Oid>, waiting: seq<Oid>) {
    forall o :: o in done ==> HasCommit(m, o) && forall p :: p in Parents(o) ==> p in done || p in waiting
  }

  method AncestorsOf(store: MemStore, start: Oid) returns (r: Result<set<Oid>>)
    requires store.Valid()
    ensures r.Ok? <==> Walkable(store.objs, start)
    ensures r.Ok? ==> r.value == Ancestors(start)
    ensures r.Err? ==> WalkError(store.objs, start, r.error)
  {
    hide Ancestors, Parents;
    var loaded := store.LoadCommit(start);
    if loaded.Err? {
      assert start in Lineage(start);
      return Err(loaded.error);
    }
    var seen: set<Oid> := {};
    var stack := PushUnseen([], seen, loaded.value.parents);
    assert forall p :: p in Parents(start) ==> p in stack;
    ParentsAreAncestors(start, start);
    while stack != []
      invariant seen <= Ancestors(start)
      invariant forall o :: o in stack ==> o in Ancestors(start)
      invariant Explored(store.objs, seen, stack)
      invariant forall p :: p in Parents(start) ==> p in seen || p in stack
      decreases Ancestors(start) - seen, |stack|
    {
      var o := stack[|stack| - 1];
      ghost var before := stack;
      stack := stack[..|stack| - 1];
      assert before == stack + [o];
      if o in seen {
        continue;
      }
      seen := seen + {o};
      loaded := store.LoadCommit(o);
      if loaded.Err? {
        return Err(loaded.error);
      }
      ParentsAreAncestors(start, o);
      stack := PushUnseen(stack, seen, loaded.value.parents);
    }
    AncestorsWithin(start, seen);
    return Ok(seen);
  }

  // ---- Merge base ----

  ghost function Common(a: Oid, b: Oid): set<Oid> {
    Lineage(a) * Lineage(b)
  }

  /** The members of `s` that come before no other member. */
  ghost function Maximal(s: set<Oid>): set<Oid> {
    set c | c in s && forall d :: d in s ==> c !in Ancestors(d)
  }

  /** The maximal common ancestor; among several, the one with the least id. */
  ghost function MergeBase(a: Oid, b: Oid): Oid {
    var best := Maximal(Common(a, b));
    if best == {} then a else Least(best)
  }

  lemma {:induction false} MaximalDominates(s: set<Oid>, x: Oid)
    requires x in s
    ensures exists m :: m in Maximal(s) && x in Lineage(m)
  {
    var above := set d | d in s && x in Lineage(d);
    assert x in above;
    HighestExists(above, o => Rank(o));
    var top :| top in above && forall d :: d in above ==> Rank(d) <= Rank(top);
    forall d | d in s
      ensures top !in Ancestors(d)
    {
      if top in Ancestors(d) {
        AncestorRank(d, top);
        LineageNests(top, d);
        assert false;
      }
    }
    assert top in Maximal(s);
  }

  lemma MaximalDominatesAny(s: set<Oid>)
    requires s != {}
    ensures Maximal(s) != {}
  {
    var x :| x in s;
    MaximalDominates(s, x);
  }

  /** The merge base is a common ancestor, no common ancestor lies after it, every other such
      candidate has a greater id, and swapping the operands changes nothing. */
  lemma MergeBaseIsLeastMaximal(a: Oid, b: Oid)
    requires Common(a, b) != {}
    ensures MergeBase(a, b) in Common(a, b)
    ensures forall d :: d in Common(a, b) ==> MergeBase(a, b) !in Ancestors(d)
    ensures forall c :: c in Common(a, b) && c != MergeBase(a, b) && (forall d :: d in Common(a, b) ==> c !in Ancestors(d)) ==>
      Less(MergeBase(a, b), c)
    ensures MergeBase(a, b) == MergeBase(b, a)
  {
    MaximalDominatesAny(Common(a, b));
    assert Common(a, b) == Common(b, a);
  }

  method AncestorsOfEach(store: MemStore, commits: set<Oid>) returns (r: Result<map<Oid, set<Oid>>>)
    requires store.Valid()
    ensures r.Ok? <==> forall c :: c in commits ==> Walkable(store.objs, c)
    ensures r.Ok? ==> r.value.Keys == commits && forall c :: c in commits ==> r.value[c] == Ancestors(c)
  {
    var ancOf: map<Oid, set<Oid>> := map[];
    var todo := commits;
    while todo != {}
      invariant todo <= commits
      invariant ancOf.Keys == commits - todo
      invariant forall c :: c in ancOf ==> Walkable(store.objs, c) && ancOf[c] == Ancestors(c)
    {
      var c :| c in todo;
      var anc :- AncestorsOf(store, c);
      ancOf := ancOf[c := anc];
      todo := todo - {c};
    }
    return Ok(ancOf);
  }

  /** Drop every member that is an ancestor of another one. */
  method MaximalOf(common: set<Oid>, ancOf: map<Oid, set<Oid>>) returns (maximal: set<Oid>)
    requires ancOf.Keys == common && forall c :: c in common ==> ancOf[c] == Ancestors(c)
    ensures maximal == Maximal(common)
  {
    maximal := {};
    var todo := common;
    while todo != {}
      invariant todo <= common
      invariant maximal == Maximal(common) - todo
    {
      var c :| c in todo;
      var isAncestorOfOther := false;
      var others := common;
      while others != {} && !isAncestorOfOther
        invariant others <= common
        invariant isAncestorOfOther ==> c !in Maximal(common)
        invariant !isAncestorOfOther ==> forall d :: d in common - others ==> c !in Ancestors(d)
      {
        var d :| d in others;
        if c != d && c in ancOf[d] {
          isAncestorOfOther := true;
        } else if c in Ancestors(d) {
          AncestorRank(d, c);
          assert false;
        }
        others := others - {d};
      }
      if !isAncestorOfOther {
        maximal := maximal + {c};
      }
      todo := todo - {c};
    }
  }

  method MergeBaseOf(store: MemStore, a: Oid, b: Oid) returns (r: Result<Oid>)
    requires store.Valid()
    ensures r.Ok? <==> Walkable(store.objs, a) && Walkable(store.objs, b) && Common(a, b) != {}
    ensures r.Ok? ==> r.value == MergeBase(a, b)
    ensures r.Err? && Walkable(store.objs, a) && Walkable(store.objs, b) ==> r.error == FoldVerify
  {
    var ancA :- AncestorsOf(store, a);
    ancA := ancA + {a};
    var ancB :- AncestorsOf(store, b);
    ancB := ancB + {b};
    var common := ancA * ancB;
    assert common == Common(a, b);
    if common == {} {
      return Err(FoldVerify);
    }
    forall c | c in common
      ensures Walkable(store.objs, c)
    {
      LineageNests(c, a);
    }
    var ancOf := AncestorsOfEach(store, common);  // cannot fail: inside both lineages
    var maximal := MaximalOf(common, ancOf.value);
    MaximalDominatesAny(common);
    return Ok(Least(maximal));
  }
}
