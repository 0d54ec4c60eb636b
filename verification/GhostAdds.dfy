/** The memoised ghost-add filter (fold.rs). Entries are only ever made from what could be told, on
    whatever store; what a partial store cannot tell is answered "keep", and not remembered. */
module GhostAdds {
  import opened Prelude
  import opened Objects
  import opened Store
  import opened Dag
  import opened Trees
  import opened Order
  import opened Touch

  /** The members whose flag is up, in order. */
  function Select(xs: seq<Oid>, flags: seq<bool>): seq<Oid>
    requires |xs| == |flags|
  {
    if xs == [] then []
    else
      var n := |xs| - 1;
      Select(xs[..n], flags[..n]) + if flags[n] then [xs[n]] else []
  }

  lemma {:induction false} SelectHas(xs: seq<Oid>, flags: seq<bool>, x: Oid)
    requires |xs| == |flags|
    ensures x in Select(xs, flags) <==> exists i :: 0 <= i < |xs| && xs[i] == x && flags[i]
  {
    if xs != [] {
      var n := |xs| - 1;
      SelectHas(xs[..n], flags[..n], x);
      if x in Select(xs, flags) {
        if x in Select(xs[..n], flags[..n]) {
          var i :| 0 <= i < n && xs[..n][i] == x && flags[..n][i];
          assert xs[i] == x && flags[i];
        } else {
          assert xs[n] == x && flags[n];
        }
      }
      if i :| 0 <= i < |xs| && xs[i] == x && flags[i] {
        if i < n {
          assert xs[..n][i] == x && flags[..n][i];
        }
      }
    }
  }

  lemma {:induction false} SelectNoDuplicates(xs: seq<Oid>, flags: seq<bool>)
    requires |xs| == |flags| && NoDuplicates(xs)
    ensures NoDuplicates(Select(xs, flags))
  {
    if xs != [] {
      var n := |xs| - 1;
      SelectNoDuplicates(xs[..n], flags[..n]);
      SelectHas(xs[..n], flags[..n], xs[n]);
    }
  }

  /** What a cache holds at some moment. */
  datatype Memo = Memo(touch: map<(Oid, Path), Option<(Oid, TouchKind)>>, verdict: map<Oid, bool>)

  /** Every entry states a fact about history; no store is mentioned. */
  ghost predicate True(memo: Memo) {
    && (forall k :: k in memo.touch ==> memo.touch[k] == MostRecent(k.0, k.1))
    && (forall o :: o in memo.verdict ==> memo.verdict[o] == GhostAdd(o))
  }

  /** What the memoised check makes of a store as it is: an entry if there is one, and otherwise what
      can be told with the touches remembered and those the store shows. */
  ghost function Recalled(order: EntryOrder, m: ObjectMap, memo: Memo, o: Oid): Option<bool> {
    if o in memo.verdict then Some(memo.verdict[o]) else Verdict(order, m, memo.touch.Keys, o)
  }

  /** Entries are only ever added, and only such as the store tells. */
  ghost predicate Learned(order: EntryOrder, m: ObjectMap, before: Memo, after: Memo) {
    && before.touch.Keys <= after.touch.Keys && before.verdict.Keys <= after.verdict.Keys
    && (forall k :: k in after.touch && k !in before.touch ==> TouchHeld(m, k.0, k.1))
    && (forall o :: o in after.verdict && o !in before.verdict ==> Verdict(order, m, before.touch.Keys, o).Some?)
  }

  /** An answer is never wrong, whatever stores the entries came from. */
  lemma RecalledIsTrue(order: EntryOrder, m: ObjectMap, memo: Memo, o: Oid)
    requires True(memo)
    ensures Recalled(order, m, memo, o).Some? ==> Recalled(order, m, memo, o).value == GhostAdd(o)
    ensures GhostHeld(m, o) ==> Recalled(order, m, memo, o).Some?
  {
    hide Verdict, GhostAdd, GhostHeld;
    VerdictIsTrue(order, m, memo.touch.Keys, o);
  }

  /** Learning from a store changes no answer on that store. */
  lemma RecalledStays(order: EntryOrder, m: ObjectMap, before: Memo, after: Memo, o: Oid)
    requires True(before) && True(after) && Learned(order, m, before, after)
    ensures Verdict(order, m, after.touch.Keys, o) == Verdict(order, m, before.touch.Keys, o)
    ensures Recalled(order, m, after, o) == Recalled(order, m, before, o)
  {
    hide Verdict, GhostAdd, TouchHeld;
    VerdictMeansSame(order, m, before.touch.Keys, after.touch.Keys, o);
    RecalledIsTrue(order, m, before, o);
    RecalledIsTrue(order, m, after, o);
  }

  lemma LearnedMore(order: EntryOrder, m: ObjectMap, a: Memo, b: Memo, c: Memo)
    requires True(a) && True(b) && Learned(order, m, a, b) && Learned(order, m, b, c)
    ensures Learned(order, m, a, c)
  {
    hide Verdict, GhostAdd, TouchHeld, MostRecent;
    forall o | o in c.verdict && o !in a.verdict
      ensures Verdict(order, m, a.touch.Keys, o).Some?
    {
      RecalledStays(order, m, a, b, o);
    }
  }

  class Caches {
    var touch: map<(Oid, Path), Option<(Oid, TouchKind)>>
    var verdict: map<Oid, bool>

    ghost function View(): Memo
      reads this
    {
      Memo(touch, verdict)
    }

    /** No growth of any store, and no other store, can make an entry wrong. */
    ghost predicate Valid()
      reads this
    {
      True(View())
    }

    constructor ()
      ensures Valid() && touch == map[] && verdict == map[]
    {
      touch, verdict := map[], map[];
    }

    /** An entry is returned as it is, whatever the store; otherwise the answer is what the uncached
        lookup gives. */
    method MostRecentTouch(store: MemStore, start: Oid, path: Path) returns (r: Result<Option<(Oid, TouchKind)>>)
      requires store.Valid() && Valid()
      modifies this`touch
      ensures Valid() && Learned(store.order, store.objs, old(View()), View())
      ensures r.Ok? <==> Tells(store.objs, old(touch).Keys, start, path)
      ensures r.Ok? ==> r.value == MostRecent(start, path) && touch == old(touch)[(start, path) := r.value]
      ensures r.Err? ==> TouchError(store.objs, start, r.error) && touch == old(touch)
    {
      if (start, path) in touch {
        return Ok(touch[(start, path)]);
      }
      var result :- MostRecentTouchUncached(store, start, path);
      touch := touch[(start, path) := result];
      return Ok(result);
    }

    method GhostAddUncached(store: MemStore, o: Oid) returns (r: Result<bool>)
      requires store.Valid() && Valid()
      modifies this`touch
      ensures Valid() && Learned(store.order, store.objs, old(View()), View())
      ensures var told := Verdict(store.order, store.objs, old(touch).Keys, o);
        if told.Some? then r == Ok(told.value)
        else r.Err? && (r.error.ObjectNotFound? || (o in store.objs && r.error == Malformed && !Walkable(store.objs, o)))
    {
      hide DiffHeld, Judge, TouchHeld, GhostAdd;
      var got :- store.Get(o);
      AddressedPreimage(store.objs, o);
      if !got.Commit? || !Primitive(got.commit) || |got.commit.parents| != 1 {
        return Ok(false);
      }
      var c := got.commit;
      var parent := c.parents[0];
      assert Parents(o) == c.parents && TreeOf(o) == c.tree;
      var loaded := store.LoadCommit(parent);
      CutOffBelow(store.objs, o, parent);
      if loaded.Err? {
        return Err(loaded.error);
      }
      var added := TreePathsAdded(store, "", Some(loaded.value.tree), c.tree, []);
      if added.Err? {
        return Err(added.error);
      }
      PrefixNothing(AddedList(store.order, Some(loaded.value.tree), c.tree));
      assert Parents(o)[0] == parent && added.value == AddedList(store.order, Some(TreeOf(parent)), TreeOf(o));
      r := AnyResurrected(store, o, c, added.value);
    }

    /** Go through the added paths in order until one settles the verdict. */
    method AnyResurrected(store: MemStore, ghost o: Oid, c: CommitObj, added: seq<Path>) returns (r: Result<bool>)
      requires store.Valid() && Valid()
      requires CommitAt(o) == Some(c) && Primitive(c) && |c.parents| == 1
      modifies this`touch
      ensures Valid() && Learned(store.order, store.objs, old(View()), View())
      ensures var told := Judge(store.objs, old(touch).Keys, o, c.parents[0], added);
        if told.Some? then r == Ok(told.value)
        else r.Err? && (r.error.ObjectNotFound? || (r.error == Malformed && !Walkable(store.objs, c.parents[0])))
    {
      hide MostRecent, TouchHeld, Verdict, GhostAdd;
      assert added[0..] == added;
      ghost var first := View();
      for i := 0 to |added|
        invariant Valid() && Learned(store.order, store.objs, first, View())
        invariant verdict == first.verdict
        invariant Judge(store.objs, first.touch.Keys, o, c.parents[0], added[i..]) == Judge(store.objs, first.touch.Keys, o, c.parents[0], added)
      {
        assert added[i..][0] == added[i] && added[i..][1..] == added[i + 1..];
        var touched :- MostRecentTouch(store, c.parents[0], added[i]);
        if touched.Some? && touched.value.1 == Delete && touched.value.0 !in c.message.readds {
          return Ok(true);
        }
      }
      return Ok(false);
    }

    /** The filter's verdict on one commit, on any store and with entries from any stores. Where it
        cannot be told because something is missing, the commit is kept, and nothing is remembered. */
    method IsGhostAdd(store: MemStore, o: Oid) returns (r: Result<bool>)
      requires store.Valid() && Valid()
      modifies this
      ensures Valid() && Learned(store.order, store.objs, old(View()), View())
      ensures var told := Recalled(store.order, store.objs, old(View()), o);
        if told.Some? then r == Ok(told.value) && verdict == old(verdict)[o := told.value]
        else verdict == old(verdict) && (r == Ok(false) || (o in store.objs && r == Err(Malformed) && !Walkable(store.objs, o)))
    {
      hide GhostAdd, Verdict, TouchHeld, MostRecent;
      RecalledIsTrue(store.order, store.objs, View(), o);
      if o in verdict {
        return Ok(verdict[o]);
      }
      var result := GhostAddUncached(store, o);
      match result
      case Ok(ghostAdd) =>
        verdict := verdict[o := ghostAdd];
        return Ok(ghostAdd);
      case Err(ObjectNotFound(_)) =>
        return Ok(false);
      case Err(e) =>
        return Err(e);
    }

    /** `known` without what is told to be a ghost-add, in the order given. */
    method EffectiveKnown(store: MemStore, known: seq<Oid>) returns (r: Result<seq<Oid>>, ghost kept: seq<bool>)
      requires store.Valid() && Valid()
      modifies this
      ensures Valid() && Learned(store.order, store.objs, old(View()), View())
      ensures r.Ok? ==> |kept| == |known| && r.value == Select(known, kept)
      ensures r.Ok? ==> forall i :: 0 <= i < |known| ==> kept[i] == (Recalled(store.order, store.objs, old(View()), known[i]) != Some(true))
      ensures r.Err? ==>
        exists o :: o in known && o in store.objs && Recalled(store.order, store.objs, old(View()), o) == None && !Walkable(store.objs, o)
    {
      hide Recalled, Learned, True;
      var out: seq<Oid> := [];
      kept := [];
      var i := 0;
      ghost var first := View();
      LearnedNothing(store.order, store.objs, first);
      while i < |known|
        invariant Valid() && Learned(store.order, store.objs, first, View())
        invariant 0 <= i <= |known| && |kept| == i
        invariant out == Select(known[..i], kept)
        invariant forall j :: 0 <= j < i ==> kept[j] == (Recalled(store.order, store.objs, first, known[j]) != Some(true))
      {
        ghost var before := View();
        RecalledStays(store.order, store.objs, first, before, known[i]);
        var ghostAdd := IsGhostAdd(store, known[i]);
        LearnedMore(store.order, store.objs, first, before, View());
        if ghostAdd.Err? {
          assert known[i] in known;
          return Err(ghostAdd.error), kept;
        }
        if !ghostAdd.value {
          out := out + [known[i]];
        }
        assert known[..i + 1][..i] == known[..i] && (kept + [!ghostAdd.value])[..i] == kept;
        kept := kept + [!ghostAdd.value];
        i := i + 1;
      }
      assert known[..i] == known;
      return Ok(out), kept;
    }
  }

  lemma CutOffBelow(m: ObjectMap, o: Oid, parent: Oid)
    requires parent in Parents(o)
    ensures !Walkable(m, parent) ==> !Walkable(m, o)
    ensures parent in m && !m[parent].Commit? ==> !Walkable(m, parent)
  {
    hide Ancestors;
    ParentIsAncestor(o, parent);
    assert parent in Lineage(parent);
  }

  lemma LearnedNothing(order: EntryOrder, m: ObjectMap, memo: Memo)
    ensures Learned(order, m, memo, memo)
  {
  }
}
