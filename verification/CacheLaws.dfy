/** The caches are shared by all stores of a thread (fold.rs). What they answer for a store that does
    not hold what an entry was made from, and for one that alone has filled them; and that there are
    ghost-adds to disagree about. */
module CacheLaws {
  import opened Prelude
  import opened Objects
  import opened Store
  import opened Dag
  import opened Trees
  import opened TreeCodec
  import opened Order
  import opened Touch
  import opened GhostAdds
  import opened Fold
  import opened FoldLaws
  import opened Signing

  /** What the uncached lookup finds, or nothing if it misses something. */
  ghost function Uncached(m: ObjectMap, start: Oid, path: Path): Option<Option<(Oid, TouchKind)>> {
    if TouchHeld(m, start, path) then Some(MostRecent(start, path)) else None
  }

  // ---- Any store, any entries ----

  /** On any store at all, a remembered touch is what the uncached lookup finds if and only if the
      store holds what the lookup needs. The check answers with the cache as without it if and only
      if the store holds what the uncached check needs or the cache does not help either; and it
      drops or keeps the commit alike unless it is a ghost-add that only the cache gives away. */
  lemma CachedIsUncached(memo: Memo, order: EntryOrder, m: ObjectMap, start: Oid, path: Path, o: Oid)
    requires True(memo)
    ensures (start, path) in memo.touch ==> (Uncached(m, start, path) == Some(memo.touch[(start, path)]) <==> TouchHeld(m, start, path))
    ensures Recalled(order, m, memo, o) == Verdict(order, m, {}, o) <==> Told(order, m, {}, o) || Recalled(order, m, memo, o) == None
    ensures Recalled(order, m, memo, o).Some? <==> o in memo.verdict || Told(order, m, memo.touch.Keys, o)
    ensures (Recalled(order, m, memo, o) == Some(true) <==> Verdict(order, m, {}, o) == Some(true)) <==>
      (GhostAdd(o) && Recalled(order, m, memo, o).Some? ==> Told(order, m, {}, o))
  {
    hide Verdict, GhostAdd, TouchHeld, MostRecent, Told;
    VerdictIfTold(order, m, {}, o);
    VerdictIfTold(order, m, memo.touch.Keys, o);
    VerdictIsTrue(order, m, {}, o);
    RecalledIsTrue(order, m, memo, o);
    if Told(order, m, {}, o) {
      JudgesMore(order, m, memo, o);
    }
  }

  /** The cache only ever helps. */
  lemma JudgesMore(order: EntryOrder, m: ObjectMap, memo: Memo, o: Oid)
    requires Told(order, m, {}, o)
    ensures Recalled(order, m, memo, o).Some?
  {
    hide Verdict, AddedList, DiffHeld, Resurrects, IsPrimitive, HasCommit, TouchHeld;
    var have := memo.touch.Keys;
    if IsPrimitive(o) && |Parents(o)| == 1 {
      var p := Parents(o)[0];
      var paths := AddedList(order, Some(TreeOf(p)), TreeOf(o));
      var k :| SettledAt(m, {}, o, p, paths, k);
      assert SettledAt(m, have, o, p, paths, k);
    }
    assert Told(order, m, have, o);
    VerdictIfTold(order, m, have, o);
  }

  // ---- One store that only grows ----

  /** The store holds what each entry takes, as when it was made from this store. */
  ghost predicate DrawnFrom(order: EntryOrder, m: ObjectMap, memo: Memo) {
    && (forall k :: k in memo.touch ==> TouchHeld(m, k.0, k.1))
    && (forall o :: o in memo.verdict ==> Told(order, m, {}, o))
  }

  /** With entries drawn from the store, the cache changes no answer at all. */
  lemma LikeUncached(order: EntryOrder, m: ObjectMap, memo: Memo, o: Oid)
    requires True(memo) && DrawnFrom(order, m, memo)
    ensures Recalled(order, m, memo, o) == Verdict(order, m, {}, o)
  {
    hide Verdict, GhostAdd, TouchHeld, MostRecent, Told;
    VerdictMeansSame(order, m, {}, memo.touch.Keys, o);
    VerdictIfTold(order, m, {}, o);
    VerdictIsTrue(order, m, {}, o);
  }

  /** Growth of the store and use of the cache on it keep that so. */
  lemma DrawnFromStays(order: EntryOrder, m: ObjectMap, m': ObjectMap, before: Memo, after: Memo)
    requires DrawnFrom(order, m, before) && Includes(m, m') && Learned(order, m', before, after)
    ensures DrawnFrom(order, m', after)
  {
    hide Verdict, GhostAdd, TouchHeld, MostRecent, Told, Includes;
    forall k | k in after.touch
      ensures TouchHeld(m', k.0, k.1)
    {
      if k in before.touch {
        TouchHeldGrows(m, m', k.0, k.1);
      }
    }
    forall o | o in after.verdict
      ensures Told(order, m', {}, o)
    {
      VerdictIfTold(order, m', {}, o);
      if o in before.verdict {
        VerdictIfTold(order, m, {}, o);
        VerdictGrows(order, m, m', {}, o);
      } else {
        VerdictMeansSame(order, m', {}, before.touch.Keys, o);
      }
    }
  }

  // ---- One thread, two stores ----

  /** The cache answers for the second store what was found in the first, where the uncached lookup
      misses the very commit it is asked about. */
  method SecondStoreDiffers(order: EntryOrder) returns (cached: Result<Option<(Oid, TouchKind)>>, uncached: Result<Option<(Oid, TouchKind)>>)
    ensures cached == Ok(None) && uncached.Err?
  {
    hide TouchHeld, Verdict, GhostAdd;
    NothingIsClosed();
    var first := new MemStore(order);
    var root := MakeGenesis(first);
    var thread := new Caches();
    ClosedHoldsTouch(first.objs, root, "f");
    cached := thread.MostRecentTouch(first, root, "f");
    RootTouchesNothing("f");
    var second := new MemStore(order);
    NothingIsHeld(root, "f");
    cached := thread.MostRecentTouch(second, root, "f");
    uncached := MostRecentTouchUncached(second, root, "f");
  }

  lemma NothingIsHeld(start: Oid, path: Path)
    ensures !TouchHeld(map[], start, path)
  {
    assert start in Lineage(start);
    assert !ToggleHeld(map[], start, path);
  }

  lemma RootTouchesNothing(path: Path)
    ensures MostRecent(M0(), path) == None
  {
    GenesisCommit();
    assert Touchers(M0(), path) == {};
  }

  // ---- A ghost-add ----

  /** Three edits of one node: add a file, delete it, and bring it back, saying which deletes that
      undoes. */
  ghost function NodeEdit(parent: Oid, files: Files, counter: nat, readds: seq<Oid>): Oid {
    Sha(Commit(BuildPrimitive([], TreeId(files), parent, counter, 0, readds)))
  }

  ghost function Added1(): Oid { NodeEdit(M0(), map["f" := []], 1, []) }
  ghost function Deleted2(): Oid { NodeEdit(Added1(), map[], 2, []) }
  ghost function Back3(readds: seq<Oid>): Oid { NodeEdit(Deleted2(), map["f" := []], 3, readds) }

  lemma EditIs(parent: Oid, files: Files, counter: nat, readds: seq<Oid>)
    ensures var o := NodeEdit(parent, files, counter, readds);
      IsPrimitive(o) && Parents(o) == [parent] && TreeOf(o) == TreeId(files) && KeyOf(o).counter == counter && ReaddsOf(o) == readds
  {
    PreimageOfSha(Commit(BuildPrimitive([], TreeId(files), parent, counter, 0, readds)));
  }

  lemma FileIsSeen(files: Files)
    requires files == map[] || files == map["f" := []]
    ensures Visible(TreeId(files), "f") <==> "f" in files
  {
    hide TreeId;
    assert PrefixFree(files) by {
      assert forall p, q :: p in files ==> |p + "/" + q| > 1;
    }
    WrittenIsVisible(files, "f");
    CleanName("f");
  }

  lemma TogglesOf(p2: Oid, p1: Oid, root: Oid, path: Path)
    requires IsPrimitive(p2) && Parents(p2) == [p1] && !Visible(TreeOf(p2), path) && Visible(TreeOf(p1), path) && !IsPrimitive(root)
    ensures Toggle(p2, path) == Some(Delete) && Toggle(root, path) == None
  {
  }

  lemma LatestTouchIsDelete()
    ensures MostRecent(Deleted2(), "f") == Some((Deleted2(), Delete))
  {
    hide TreeId, Visible, NodeEdit, M0;
    var p1, p2 := Added1(), Deleted2();
    EditIs(M0(), map["f" := []], 1, []);
    EditIs(p1, map[], 2, []);
    GenesisCommit();
    LineageOfOne(p1, M0());
    LineageOfOne(p2, p1);
    FileIsSeen(map[]);
    FileIsSeen(map["f" := []]);
    assert Lineage(M0()) == {M0()};
    TogglesOf(p2, p1, M0(), "f");
    var s := Touchers(p2, "f");
    assert p2 in s && s <= {p1, p2};
    assert IsLatest(p2, s);
    LatestUnique(s, p2, Latest(s));
  }

  lemma BackIsAdded(readds: seq<Oid>)
    ensures Added(Some(TreeOf(Deleted2())), TreeOf(Back3(readds))) == {"f"}
  {
    hide TreeId, Visible, MostRecent, NodeEdit, M0, Added;
    EditIs(Deleted2(), map["f" := []], 3, readds);
    EditIs(Added1(), map[], 2, []);
    var none, one: Files := map[], map["f" := []];
    assert PrefixFree(none);
    WrittenDifference(none, one);
    CleanName("f");
  }

  /** It is one unless it names that very delete, whatever else it names. And a store that holds only
      that commit cannot tell: a remembered verdict drops it from the fold there, and the uncached check
      keeps it. */
  lemma SomeGhostAdd(order: EntryOrder, readds: seq<Oid>)
    ensures IsPrimitive(Back3(readds)) && (GhostAdd(Back3(readds)) <==> Deleted2() !in readds)
    ensures var alone := map[Back3(readds) := Commit(CommitAt(Back3(readds)).value)];
      Addressed(alone) && Verdict(order, alone, {}, Back3(readds)) == None
  {
    hide TreeId, Visible, MostRecent, NodeEdit, M0, Added, DiffHeld, AddedList;
    var p2, p3 := Deleted2(), Back3(readds);
    EditIs(p2, map["f" := []], 3, readds);
    LatestTouchIsDelete();
    BackIsAdded(readds);
    PreimageSound(p3);
    ParentIsAncestor(p3, p2);
    AncestorRank(p3, p2);
  }
}
