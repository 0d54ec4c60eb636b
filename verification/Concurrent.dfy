/** Edits made at the same time on the same `main` (fold.rs, engine.rs): however many there are, they
    are the frontier together, each is merged over that `main`, and at every path where only one
    change was made it comes out in the new `main`. */
module Concurrent {
  import opened Prelude
  import opened Objects
  import opened Dag
  import opened TreeCodec
  import opened Merge
  import opened MergeLaws
  import opened Order
  import opened Touch
  import opened Fold
  import opened FoldLaws
  import opened State
  import opened Engine
  import opened CommitLaws

  /** Effective primitives in key order, each made on the fold of `known`. */
  ghost predicate Siblings(known: set<Oid>, tips: seq<Oid>) {
    tips != [] && StrictlySorted(tips) && forall t :: t in tips ==> IsPrimitive(t) && !GhostAdd(t) && Parents(t) == [MainOf(known)]
  }

  /** Each tip's files merged in turn into what came before it, always over the same base. */
  ghost function MergedOnto(base: Files, acc: Files, rest: seq<Oid>): Files
    decreases |rest|
  {
    if rest == [] then acc else MergedOnto(base, Clean(MergedTrees(base, acc, FilesAt(rest[0]))), rest[1..])
  }

  // ---- The frontier ----

  lemma SiblingIsNew(known: set<Oid>, t: Oid)
    requires IsPrimitive(t) && Parents(t) == [MainOf(known)]
    ensures t !in Lineage(MainOf(known)) && Lineage(t) == {t} + Lineage(MainOf(known))
  {
    hide MainOf, Ancestors;
    LineageOfOne(t, MainOf(known));
    ParentIsAncestor(t, MainOf(known));
    MainIsNoPrimitive(known);
    AncestorRank(t, MainOf(known));
    if t in Ancestors(MainOf(known)) {
      AncestorRank(MainOf(known), t);
    }
  }

  lemma MainIsNoPrimitive(known: set<Oid>)
    ensures !IsPrimitive(MainOf(known))
  {
    FoldTipsBelow(FrontierOf(known));
  }

  /** Together they replace the whole frontier. */
  lemma SiblingsAreTheFrontier(known: set<Oid>, tips: seq<Oid>)
    requires Siblings(known, tips)
    ensures FrontierOf(known + Elements(tips)) == tips
  {
    hide MainOf, GhostAdd, Ancestors, IsPrimitive;
    var main, below := MainOf(known), Effective(known);
    assert Effective(known + Elements(tips)) == below + Elements(tips);
    forall t | t in tips
      ensures t !in Lineage(main) && Lineage(t) == {t} + Lineage(main)
    {
      SiblingIsNew(known, t);
    }
    forall d | d in below
      ensures d in Ancestors(main)
    {
      EffectiveBelowMain(known, d);
    }
    SiblingsAreMaximal(below, tips, main);
    SortedUnique(tips);
  }

  lemma SiblingsAreMaximal(below: set<Oid>, tips: seq<Oid>, main: Oid)
    requires tips != [] && forall t :: t in tips ==> t !in Lineage(main) && Lineage(t) == {t} + Lineage(main)
    requires forall d :: d in below ==> d in Ancestors(main)
    ensures Maximal(below + Elements(tips)) == Elements(tips)
  {
    hide Ancestors;
    forall t, d | t in tips && d in below + Elements(tips)
      ensures t !in Ancestors(d)
    {
      if t in Ancestors(d) {
        if d in tips {
          AncestorRank(d, t);
        } else {
          AncestorTransitive(t, d, main);
        }
        assert false;
      }
    }
    forall d | d in below
      ensures d !in Maximal(below + Elements(tips))
    {
      var t := tips[0];
      assert t in Elements(tips);
      NotItself(t, main);
      LineageNests(main, t);
      assert d in Ancestors(t) by {
        if main != t {
          AncestorTransitive(d, main, t);
        }
      }
    }
  }

  lemma NotItself(t: Oid, main: Oid)
    requires t !in Lineage(main) && Lineage(t) == {t} + Lineage(main)
    ensures main in Ancestors(t)
  {
    assert main in Lineage(t);
  }

  // ---- The merge bases ----

  lemma BaseIs(acc: Oid, t: Oid, main: Oid)
    requires Common(acc, t) == Lineage(main)
    ensures MergeBase(acc, t) == main
  {
    hide Ancestors;
    MergeBaseIsLeastMaximal(acc, t);
    assert main in Common(acc, t);
  }

  /** Any two of them meet in the `main` they were made on. */
  lemma SiblingsMeetInMain(known: set<Oid>, tips: seq<Oid>, i: nat, j: nat)
    requires Siblings(known, tips) && i < j < |tips|
    ensures MergeBase(tips[i], tips[j]) == MainOf(known)
  {
    hide MainOf, Ancestors, KeyOf, KeyLess;
    SiblingIsNew(known, tips[i]);
    SiblingIsNew(known, tips[j]);
    KeyOfTotal(tips[i], tips[j]);
    BaseIs(tips[i], tips[j], MainOf(known));
  }

  /** Every step of the fold merges over the same base, whatever was merged before. */
  lemma {:induction false} FoldsOnto(main: Oid, acc: Oid, rest: seq<Oid>)
    requires Lineage(main) <= Lineage(acc) && NoDuplicates(rest)
    requires forall t :: t in rest ==> IsPrimitive(t) && t !in Lineage(acc) && Lineage(t) == {t} + Lineage(main)
    ensures FoldableFrom(acc, rest)
    ensures FilesAt(FoldFrom(acc, rest)) == MergedOnto(FilesAt(main), FilesAt(acc), rest)
    decreases |rest|
  {
    hide MergeStep, Ancestors, MergedTrees, IsPrimitive;
    if rest != [] {
      var t, next := rest[0], MergeStep(acc, rest[0]);
      assert Common(acc, t) == Lineage(main);
      BaseIs(acc, t, main);
      StepCommit(acc, t);
      LineageOfTwo(next, acc, t);
      ReadBack(StepFiles(acc, t));
      forall u | u in rest[1..]
        ensures u !in Lineage(next)
      {
        assert u in rest && u != t;
      }
      FoldsOnto(main, next, rest[1..]);
    }
  }

  /** `main` over such edits is their files merged in key order over the files they started from. */
  lemma SiblingsMerge(known: set<Oid>, tips: seq<Oid>)
    requires Siblings(known, tips)
    ensures Foldable(FrontierOf(known + Elements(tips)))
    ensures FilesAt(MainOf(known + Elements(tips))) == MergedOnto(FilesAt(MainOf(known)), FilesAt(tips[0]), tips[1..])
  {
    hide FrontierOf, Ancestors, KeyOf, KeyLess, IsPrimitive, GhostAdd, Wrapper, MergeStep;
    SiblingsAreTheFrontier(known, tips);
    if |tips| == 1 {
      WrapperCommit(tips[0]);
    } else {
      var main, rest := MainOf(known), tips[1..];
      SortedHasNoDuplicates(tips);
      SiblingIsNew(known, tips[0]);
      forall t | t in rest
        ensures IsPrimitive(t) && t !in Lineage(tips[0]) && Lineage(t) == {t} + Lineage(main)
      {
        assert t in tips && t != tips[0];
        SiblingIsNew(known, t);
      }
      FoldsOnto(main, tips[0], rest);
    }
  }

  // ---- What survives ----

  /** At a path where everything to be merged has either what the base has or one and the same other
      thing, that other thing is the result as soon as it occurs. */
  lemma {:induction false} ChangeIsKept(base: Files, acc: Files, rest: seq<Oid>, p: Path, v: Option<Bytes>)
    requires CleanPath(p) && (Lookup(acc, p) == v || Lookup(acc, p) == Lookup(base, p))
    requires forall t :: t in rest ==> Lookup(FilesAt(t), p) == v || Lookup(FilesAt(t), p) == Lookup(base, p)
    ensures Lookup(MergedOnto(base, acc, rest), p) ==
      if Lookup(acc, p) == v || exists t :: t in rest && Lookup(FilesAt(t), p) == v then v else Lookup(base, p)
    decreases |rest|
  {
    hide MergedTrees, FilesAt, CleanPath;
    if rest != [] {
      var merged := MergedTrees(base, acc, FilesAt(rest[0]));
      MergedTreesMeaning(base, acc, FilesAt(rest[0]), p);
      assert Lookup(Clean(merged), p) == Lookup(merged, p);
      assert forall t :: t in rest <==> t == rest[0] || t in rest[1..];
      ChangeIsKept(base, Clean(merged), rest[1..], p, v);
    }
  }

  /** No change is lost: where the edits made at most one kind of change to a path (a new text, or a
      deletion, by one of them or the same by several), the new `main` has it. */
  lemma SoleChangeSurvives(known: set<Oid>, tips: seq<Oid>, p: Path, v: Option<Bytes>)
    requires Siblings(known, tips) && CleanPath(p)
    requires forall t :: t in tips ==> Lookup(FilesAt(t), p) == v || Lookup(FilesAt(t), p) == Lookup(FilesAt(MainOf(known)), p)
    ensures Lookup(FilesAt(MainOf(known + Elements(tips))), p) ==
      if exists t :: t in tips && Lookup(FilesAt(t), p) == v then v else Lookup(FilesAt(MainOf(known)), p)
  {
    hide MainOf, FilesAt, FrontierOf, StrictlySorted, GhostAdd, IsPrimitive, MergedOnto, CleanPath;
    SiblingsMerge(known, tips);
    assert forall t :: t in tips <==> t == tips[0] || t in tips[1..];
    ChangeIsKept(FilesAt(MainOf(known)), FilesAt(tips[0]), tips[1..], p, v);
  }

  /** Two edits that changed no path in common both come out, whole. */
  lemma DisjointPathsSurvive(known: set<Oid>, a: Oid, b: Oid, p: Path)
    requires Siblings(known, [a, b]) && CleanPath(p)
    requires var main := Lookup(FilesAt(MainOf(known)), p);
      Lookup(FilesAt(a), p) == main || Lookup(FilesAt(b), p) == main
    ensures var main, after := Lookup(FilesAt(MainOf(known)), p), Lookup(FilesAt(MainOf(known + {a, b})), p);
      after == if Lookup(FilesAt(a), p) == main then Lookup(FilesAt(b), p) else Lookup(FilesAt(a), p)
  {
    hide MainOf, FilesAt, FrontierOf, Siblings, CleanPath;
    var main := Lookup(FilesAt(MainOf(known)), p);
    assert Elements([a, b]) == {a, b};
    assert a in [a, b] && b in [a, b];
    SoleChangeSurvives(known, [a, b], p, if Lookup(FilesAt(a), p) == main then Lookup(FilesAt(b), p) else Lookup(FilesAt(a), p));
  }

  // ---- Who wins ----

  /** Where two edits made different things of a path, and it is not two changed texts, the later one
      has it whole: its file, or its deletion. Two changed texts are merged with the later one as
      theirs. */
  lemma LaterWins(known: set<Oid>, a: Oid, b: Oid, p: Path)
    requires Siblings(known, [a, b]) && CleanPath(p)
    requires var base, x, y := Lookup(FilesAt(MainOf(known)), p), Lookup(FilesAt(a), p), Lookup(FilesAt(b), p);
      x != base && y != base && x != y
    ensures var base, x, y := Lookup(FilesAt(MainOf(known)), p), Lookup(FilesAt(a), p), Lookup(FilesAt(b), p);
      Lookup(FilesAt(MainOf(known + {a, b})), p) ==
        if base.Some? && x.Some? && y.Some? then Some(MergedBlob(base.value, x.value, y.value)) else y
  {
    hide MainOf, FilesAt, FrontierOf, MergedTrees, CleanPath;
    var base := FilesAt(MainOf(known));
    assert Elements([a, b]) == {a, b} && [a, b][1..] == [b] && [b][1..] == [];
    SiblingsMerge(known, [a, b]);
    var merged := MergedTrees(base, FilesAt(a), FilesAt(b));
    assert MergedOnto(base, FilesAt(a), [b]) == Clean(merged);
    MergedTreesMeaning(base, FilesAt(a), FilesAt(b), p);
    assert Lookup(Clean(merged), p) == Lookup(merged, p);
  }

  /** The later edit is that of the greater counter, and of equal counters that of the greater node id. */
  lemma GreaterNodeWins(known: set<Oid>, a: Oid, b: Oid, p: Path, i: nat)
    requires forall t :: t in {a, b} ==> IsPrimitive(t) && !GhostAdd(t) && Parents(t) == [MainOf(known)]
    requires KeyOf(a).counter < KeyOf(b).counter || (KeyOf(a).counter == KeyOf(b).counter && FirstAt(KeyOf(a).node, KeyOf(b).node, i))
    requires CleanPath(p) && Lookup(FilesAt(MainOf(known)), p) == None
    requires Lookup(FilesAt(a), p).Some? && Lookup(FilesAt(b), p).Some?
    ensures Lookup(FilesAt(MainOf(known + {a, b})), p) == Lookup(FilesAt(b), p)
  {
    hide MainOf, FilesAt, FrontierOf, KeyOf, KeyLess, IsPrimitive, GhostAdd, CleanPath, FirstAt;
    KeysCompare(KeyOf(a), KeyOf(b));
    SortedSiblings(known, a, b);
    if Lookup(FilesAt(a), p) == Lookup(FilesAt(b), p) {
      assert a in [a, b] && b in [a, b] && Elements([a, b]) == {a, b};
      SoleChangeSurvives(known, [a, b], p, Lookup(FilesAt(b), p));
    } else {
      LaterWins(known, a, b, p);
    }
  }

  lemma SortedSiblings(known: set<Oid>, a: Oid, b: Oid)
    requires forall t :: t in {a, b} ==> IsPrimitive(t) && !GhostAdd(t) && Parents(t) == [MainOf(known)]
    requires KeyLess(KeyOf(a), KeyOf(b))
    ensures Siblings(known, [a, b])
  {
    hide MainOf, KeyOf, KeyLess, IsPrimitive, GhostAdd;
  }

  // ---- Nodes that commit at the same time ----

  /** Some node that knew exactly `known` published `files` as the primitive `t`. */
  ghost predicate PublishedAs(known: set<Oid>, files: Files, t: Oid) {
    exists n: Node, scoped: Files, node: NodeId, now: nat, bucket: string, n': Node, r: Result<Option<Oid>> ::
      && Current(n) && Elements(n.known) == known
      && Committed(n, scoped, node, now, bucket, n', r) && r == Ok(Some(t))
      && files == Published(ParentFor(n), n.materialized, scoped)
  }

  lemma PublishedIsSibling(known: set<Oid>, files: Files, t: Oid)
    requires PublishedAs(known, files, t)
    ensures IsPrimitive(t) && !GhostAdd(t) && Parents(t) == [MainOf(known)] && FilesAt(t) == Clean(files)
  {
    hide Published, Quarantined, Undone, SetAside, Authors, Authored, FrontierOf, GhostAdd, MainOf, Committed;
    var n: Node, scoped: Files, node: NodeId, now: nat, bucket: string, n': Node, r: Result<Option<Oid>> :|
      && Current(n) && Elements(n.known) == known
      && Committed(n, scoped, node, now, bucket, n', r) && r == Ok(Some(t))
      && files == Published(ParentFor(n), n.materialized, scoped);
    CommitMade(n, scoped, node, now, bucket, n', r);
    ReadBack(files);
  }

  /** Any number of nodes that knew the same commit at the same time, unheard by one another. Once a
      node knows all of it, no file that at most one of them changed is lost or mixed up. */
  lemma ConcurrentCommits(known: set<Oid>, tips: seq<Oid>, files: seq<Files>, p: Path, v: Option<Bytes>)
    requires tips != [] && |files| == |tips| && StrictlySorted(tips) && CleanPath(p)
    requires forall i :: 0 <= i < |tips| ==> PublishedAs(known, files[i], tips[i])
    requires forall i :: 0 <= i < |files| ==> Lookup(files[i], p) == v || Lookup(files[i], p) == Lookup(FilesAt(MainOf(known)), p)
    ensures FrontierOf(known + Elements(tips)) == tips && Foldable(tips)
    ensures Lookup(FilesAt(MainOf(known + Elements(tips))), p) ==
      if exists i :: 0 <= i < |files| && Lookup(files[i], p) == v then v else Lookup(FilesAt(MainOf(known)), p)
  {
    hide MainOf, FilesAt, FrontierOf, PublishedAs, GhostAdd, Foldable, IsPrimitive, CleanPath, StrictlySorted;
    forall i | 0 <= i < |tips|
      ensures IsPrimitive(tips[i]) && !GhostAdd(tips[i]) && Parents(tips[i]) == [MainOf(known)]
      ensures Lookup(FilesAt(tips[i]), p) == Lookup(files[i], p)
    {
      PublishedIsSibling(known, files[i], tips[i]);
      assert Lookup(Clean(files[i]), p) == Lookup(files[i], p);
    }
    SiblingsAreTheFrontier(known, tips);
    SiblingsMerge(known, tips);
    SoleChangeSurvives(known, tips, p, v);
    assert (exists t :: t in tips && Lookup(FilesAt(t), p) == v) <==> exists i :: 0 <= i < |files| && Lookup(files[i], p) == v by {
      if i :| 0 <= i < |files| && Lookup(files[i], p) == v {
        assert tips[i] in tips;
      }
    }
  }

  /** What no tree can hold does not come out either. */
  lemma ConcurrentAreClean(known: set<Oid>, tips: seq<Oid>, files: seq<Files>, p: Path)
    requires |tips| > 1 && |files| == |tips| && StrictlySorted(tips) && !CleanPath(p)
    requires forall i :: 0 <= i < |tips| ==> PublishedAs(known, files[i], tips[i])
    ensures p !in FilesAt(MainOf(known + Elements(tips)))
  {
    hide MainOf, FilesAt, FrontierOf, PublishedAs, GhostAdd, Foldable, IsPrimitive, CleanPath, StrictlySorted;
    forall i | 0 <= i < |tips|
      ensures IsPrimitive(tips[i]) && !GhostAdd(tips[i]) && Parents(tips[i]) == [MainOf(known)]
    {
      PublishedIsSibling(known, files[i], tips[i]);
    }
    SiblingsMerge(known, tips);
    MergedIsClean(FilesAt(MainOf(known)), FilesAt(tips[0]), tips[1..], p);
  }

  lemma {:induction false} MergedIsClean(base: Files, acc: Files, rest: seq<Oid>, p: Path)
    requires !CleanPath(p) && (rest != [] || p !in acc)
    ensures p !in MergedOnto(base, acc, rest)
    decreases |rest|
  {
    hide MergedTrees, FilesAt, CleanPath;
    if rest != [] {
      MergedIsClean(base, Clean(MergedTrees(base, acc, FilesAt(rest[0]))), rest[1..], p);
    }
  }
}
