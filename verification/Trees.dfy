/** Flat `path -> bytes` maps and the nested tree objects that store them (object.rs), and the
    two structural walks the ghost-add filter makes over those trees (fold.rs). */
module Trees {
  import opened Prelude
  import opened Objects
  import opened Store

  type Files = map<Path, Bytes>

  // ---- Paths ----

  /** Where the first separator of a path is. */
  function Slash(p: Path): (i: nat)
    requires '/' in p
    ensures i < |p| && p[i] == '/' && '/' !in p[..i]
  {
    if p[0] == '/' then 0 else 1 + Slash(p[1..])
  }

  function Head(p: Path): (n: Name)
    requires '/' in p
  {
    p[..Slash(p)]
  }

  function Rest(p: Path): Path
    requires '/' in p
  {
    p[Slash(p) + 1..]
  }

  function Join(d: Name, q: Path): (p: Path) {
    d + "/" + q
  }

  lemma {:induction false} SlashIs(p: Path, i: nat)
    requires i < |p| && p[i] == '/' && forall j :: 0 <= j < i ==> p[j] != '/'
    ensures Slash(p) == i
  {
    if i > 0 {
      SlashIs(p[1..], i - 1);
    }
  }

  lemma JoinSplits(d: Name, q: Path)
    ensures '/' in Join(d, q) && Head(Join(d, q)) == d && Rest(Join(d, q)) == q
  {
    var p := Join(d, q);
    assert p[|d|] == '/';
    SlashIs(p, |d|);
  }

  /** A path as seen from outside the directory `prefix` (which ends in a separator, or is empty). */
  function At(prefix: Path, q: Path): (p: Path) {
    prefix + q
  }

  lemma AtInjective(prefix: Path)
    ensures forall q :: At(prefix, q)[|prefix|..] == q && prefix <= At(prefix, q)
    ensures forall p :: prefix <= p ==> p == At(prefix, p[|prefix|..])
  {
  }

  lemma AtJoin(prefix: Path, d: Name)
    ensures forall q :: At(prefix + d + "/", q) == At(prefix, Join(d, q))
  {
    forall q
      ensures At(prefix + d + "/", q) == At(prefix, Join(d, q))
    {
      assert prefix + d + "/" + q == prefix + (d + "/" + q);
    }
  }

  lemma SplitJoins(p: Path)
    requires '/' in p
    ensures Join(Head(p), Rest(p)) == p
  {
  }

  // ---- What a tree object says ----

  /** The blob a tree records at a path. */
  ghost function Find(tree: Oid, p: Path): Option<Oid>
    decreases |p|
  {
    if '/' !in p then
      if p in FilesOf(tree) then Some(FilesOf(tree)[p]) else None
    else if Head(p) in DirsOf(tree) then
      Find(DirsOf(tree)[Head(p)], Rest(p))
    else
      None
  }

  /** Every path a tree records. */
  ghost function Paths(tree: Oid): set<Path>
    decreases Rank(tree)
  {
    (set n | n in FilesOf(tree)) +
    (set d, q | d in DirsOf(tree) && q in Paths(DirsOf(tree)[d]) :: Join(d, q))
  }

  lemma {:induction false} PathsAreFound(tree: Oid, p: Path)
    ensures p in Paths(tree) <==> Find(tree, p).Some?
    decreases |p|
  {
    if '/' in p {
      SplitJoins(p);
      if Head(p) in DirsOf(tree) {
        PathsAreFound(DirsOf(tree)[Head(p)], Rest(p));
      }
      if p in Paths(tree) {
        var d, q :| d in DirsOf(tree) && q in Paths(DirsOf(tree)[d]) && p == Join(d, q);
        JoinSplits(d, q);
      }
    } else {
      forall d: Name, q
        ensures p != Join(d, q)
      {
        JoinSplits(d, q);
      }
    }
  }

  /** The flat map a tree object denotes. */
  ghost function Contents(tree: Oid): Files {
    map p | p in Paths(tree) :: match Find(tree, p) case Some(o) => BlobOf(o) case None => []
  }

  /** What a segment-by-segment lookup sees: a file entry hides a directory of the same name. */
  ghost predicate Visible(tree: Oid, p: Path)
    decreases |p|
  {
    if '/' !in p then
      p in FilesOf(tree)
    else
      Head(p) !in FilesOf(tree) && Head(p) in DirsOf(tree) && Visible(DirsOf(tree)[Head(p)], Rest(p))
  }

  /** No directory anywhere in the tree shares its name with a file beside it. */
  ghost predicate Unshadowed(tree: Oid)
    decreases Rank(tree)
  {
    forall d :: d in DirsOf(tree) ==> d !in FilesOf(tree) && Unshadowed(DirsOf(tree)[d])
  }

  lemma {:induction false} VisibleIsRecorded(tree: Oid, p: Path)
    ensures Visible(tree, p) ==> p in Paths(tree)
    ensures Unshadowed(tree) && p in Paths(tree) ==> Visible(tree, p)
    decreases |p|
  {
    PathsAreFound(tree, p);
    if '/' in p && Head(p) in DirsOf(tree) {
      PathsAreFound(DirsOf(tree)[Head(p)], Rest(p));
      VisibleIsRecorded(DirsOf(tree)[Head(p)], Rest(p));
    }
  }

  /** The objects a lookup of `p` loads are all in the store. */
  ghost predicate PathHeld(m: ObjectMap, tree: Oid, p: Path)
    decreases |p|
  {
    tree in m &&
    ('/' in p && Head(p) !in FilesOf(tree) && Head(p) in DirsOf(tree) ==> PathHeld(m, DirsOf(tree)[Head(p)], Rest(p)))
  }

  method PathPresentInTree(store: MemStore, tree: Oid, path: Path) returns (r: Result<bool>)
    requires store.Valid()
    ensures r.Ok? <==> PathHeld(store.objs, tree, path)
    ensures r.Ok? ==> r.value == Visible(tree, path)
    ensures r.Err? ==> r.error.ObjectNotFound? && r.error.oid !in store.objs
  {
    var cur := tree;
    var rest := path;
    while true
      invariant PathHeld(store.objs, tree, path) <==> PathHeld(store.objs, cur, rest)
      invariant Visible(tree, path) <==> Visible(cur, rest)
      decreases |rest|
    {
      var got :- store.Get(cur);
      AddressedPreimage(store.objs, cur);
      if !got.Tree? {
        return Ok(false);
      }
      if '/' !in rest {
        return Ok(rest in got.files);
      }
      var seg := Head(rest);
      if seg in got.files || seg !in got.dirs {
        return Ok(false);
      }
      cur := got.dirs[seg];
      rest := Rest(rest);
    }
  }

  // ---- Paths a commit adds over its parent ----

  ghost predicate HasFile(tree: Option<Oid>, n: Name) {
    tree.Some? && n in FilesOf(tree.value)
  }

  ghost function SubTree(tree: Option<Oid>, d: Name): Option<Oid> {
    if tree.Some? && d !in FilesOf(tree.value) && d in DirsOf(tree.value) then
      Some(DirsOf(tree.value)[d])
    else
      None
  }

  /** Paths under `child` that the walk finds nothing for under `parent`; identical subtrees
      are pruned unread. */
  ghost function Added(parent: Option<Oid>, child: Oid): set<Path>
    decreases Rank(child)
  {
    if parent == Some(child) then {}
    else
      (set n | n in FilesOf(child) && !HasFile(parent, n)) +
      (set d, q | d in DirsOf(child) && q in Added(SubTree(parent, d), DirsOf(child)[d]) :: Join(d, q))
  }

  // ---- In the order the walk comes to them ----

  ghost function EntriesOf(order: EntryOrder, tree: Oid): seq<TreeEntry> {
    match Preimage(tree)
    case Some(Tree(files, dirs)) => order(Tree(files, dirs))
    case _ => []
  }

  function JoinAll(d: Name, ps: seq<Path>): (s: seq<Path>)
    ensures |s| == |ps| && forall i :: 0 <= i < |s| ==> s[i] == Join(d, ps[i])
  {
    seq(|ps|, i requires 0 <= i < |ps| => Join(d, ps[i]))
  }

  /** The added paths, depth first, entry by entry. */
  ghost function AddedList(order: EntryOrder, parent: Option<Oid>, child: Oid): seq<Path>
    decreases Rank(child), 1, 0
  {
    if parent == Some(child) then [] else AddedAmong(order, parent, child, EntriesOf(order, child))
  }

  ghost function AddedAmong(order: EntryOrder, parent: Option<Oid>, child: Oid, es: seq<TreeEntry>): seq<Path>
    decreases Rank(child), 0, |es|
  {
    if es == [] then []
    else
      var n := |es| - 1;
      AddedAmong(order, parent, child, es[..n]) + AddedAt(order, parent, child, es[n])
  }

  ghost function AddedAt(order: EntryOrder, parent: Option<Oid>, child: Oid, e: TreeEntry): seq<Path>
    decreases Rank(child), 0, 0
  {
    if e.FileEntry? then
      if e.name in FilesOf(child) && !HasFile(parent, e.name) then [e.name] else []
    else if e.name in DirsOf(child) then JoinAll(e.name, AddedList(order, SubTree(parent, e.name), DirsOf(child)[e.name]))
    else []
  }

  lemma {:induction false} AddedAmongHas(order: EntryOrder, parent: Option<Oid>, child: Oid, es: seq<TreeEntry>, p: Path)
    ensures p in AddedAmong(order, parent, child, es) <==>
      if '/' !in p then FileEntry(p) in es && p in FilesOf(child) && !HasFile(parent, p)
      else DirEntry(Head(p)) in es && Head(p) in DirsOf(child) && Rest(p) in AddedList(order, SubTree(parent, Head(p)), DirsOf(child)[Head(p)])
    decreases |es|
  {
    hide AddedList, FilesOf, DirsOf, SubTree, HasFile;
    if es != [] {
      var n := |es| - 1;
      assert es == es[..n] + [es[n]];
      AddedAmongHas(order, parent, child, es[..n], p);
      if es[n].DirEntry? && es[n].name in DirsOf(child) {
        JoinAllHas(es[n].name, AddedList(order, SubTree(parent, es[n].name), DirsOf(child)[es[n].name]), p);
      }
    }
  }

  lemma JoinAllHas(d: Name, ps: seq<Path>, p: Path)
    ensures p in JoinAll(d, ps) <==> '/' in p && Head(p) == d && Rest(p) in ps
  {
    if p in JoinAll(d, ps) {
      var i :| 0 <= i < |ps| && JoinAll(d, ps)[i] == p;
      JoinSplits(d, ps[i]);
    }
    if '/' in p && Head(p) == d && Rest(p) in ps {
      SplitJoins(p);
      var i :| 0 <= i < |ps| && ps[i] == Rest(p);
      assert JoinAll(d, ps)[i] == p;
    }
  }

  /** Whatever the order, the list has exactly the added paths. */
  lemma {:induction false} AddedListHas(order: EntryOrder, parent: Option<Oid>, child: Oid, p: Path)
    ensures p in AddedList(order, parent, child) <==> p in Added(parent, child)
    decreases |p|
  {
    hide Added, SubTree, HasFile;
    AddedCases(parent, child, p);
    AddedAmongHas(order, parent, child, EntriesOf(order, child), p);
    assert ListsTrees(order);
    if '/' in p && Head(p) in DirsOf(child) {
      AddedListHas(order, SubTree(parent, Head(p)), DirsOf(child)[Head(p)], Rest(p));
    }
  }

  lemma {:induction false} AddedCases(parent: Option<Oid>, child: Oid, p: Path)
    ensures p in Added(parent, child) <==>
      parent != Some(child) &&
      if '/' !in p then p in FilesOf(child) && !HasFile(parent, p)
      else Head(p) in DirsOf(child) && Rest(p) in Added(SubTree(parent, Head(p)), DirsOf(child)[Head(p)])
  {
    if '/' in p {
      SplitJoins(p);
    }
    forall d: Name, q | p == Join(d, q)
      ensures '/' in p && Head(p) == d && Rest(p) == q
    {
      JoinSplits(d, q);
    }
  }

  /** An added path is in the child, and a lookup in the parent does not see it. */
  lemma {:induction false} AddedAreInvisible(parent: Option<Oid>, child: Oid, p: Path)
    requires p in Added(parent, child)
    ensures p in Paths(child)
    ensures parent.Some? ==> !Visible(parent.value, p)
    decreases |p|
  {
    AddedCases(parent, child, p);
    PathsAreFound(child, p);
    if '/' in p {
      AddedAreInvisible(SubTree(parent, Head(p)), DirsOf(child)[Head(p)], Rest(p));
      PathsAreFound(DirsOf(child)[Head(p)], Rest(p));
    }
  }

  /** The walk, which skips equal trees, comes to a directory that a file hides in the parent, and
      the two trees have a path in common below it. */
  ghost predicate Hides(parent: Oid, child: Oid)
    decreases Rank(child)
  {
    parent != child &&
    exists d :: d in DirsOf(child) && d in DirsOf(parent) &&
      if d in FilesOf(parent) then Paths(DirsOf(parent)[d]) * Paths(DirsOf(child)[d]) != {}
      else Hides(DirsOf(parent)[d], DirsOf(child)[d])
  }

  /** What is in the child and not in the parent is always reported. */
  lemma {:induction false} MissingIsAdded(parent: Option<Oid>, child: Oid, p: Path)
    requires p in Paths(child) && (parent.Some? ==> p !in Paths(parent.value))
    ensures p in Added(parent, child)
    decreases |p|
  {
    AddedCases(parent, child, p);
    PathsAreFound(child, p);
    if parent.Some? {
      PathsAreFound(parent.value, p);
    }
    if '/' in p {
      var sub := SubTree(parent, Head(p));
      PathsAreFound(DirsOf(child)[Head(p)], Rest(p));
      if sub.Some? {
        PathsAreFound(sub.value, Rest(p));
      }
      MissingIsAdded(sub, DirsOf(child)[Head(p)], Rest(p));
    }
  }

  /** A path that is reported although the parent has it lies below a hidden directory. */
  lemma {:induction false} WronglyAddedIsHidden(parent: Oid, child: Oid, p: Path)
    requires p in Added(Some(parent), child) && p in Paths(parent)
    ensures Hides(parent, child)
    decreases |p|
  {
    AddedCases(Some(parent), child, p);
    AddedAreInvisible(Some(parent), child, p);
    PathsAreFound(child, p);
    PathsAreFound(parent, p);
    if '/' in p {
      var d := Head(p);
      var pd, cd := DirsOf(parent)[d], DirsOf(child)[d];
      PathsAreFound(pd, Rest(p));
      PathsAreFound(cd, Rest(p));
      if d in FilesOf(parent) {
        assert Rest(p) in Paths(pd) * Paths(cd);
      } else {
        WronglyAddedIsHidden(pd, cd, Rest(p));
      }
    }
  }

  /** Below a hidden directory, some path is reported although the parent has it. */
  lemma {:induction false} HiddenIsWronglyAdded(parent: Oid, child: Oid) returns (p: Path)
    requires Hides(parent, child)
    ensures p in Added(Some(parent), child) && p in Paths(parent)
    decreases Rank(child)
  {
    hide Added, Paths, Find;
    var d: Name :| d in DirsOf(child) && d in DirsOf(parent) &&
      if d in FilesOf(parent) then Paths(DirsOf(parent)[d]) * Paths(DirsOf(child)[d]) != {}
      else Hides(DirsOf(parent)[d], DirsOf(child)[d]);
    var pd, cd := DirsOf(parent)[d], DirsOf(child)[d];
    var q: Path;
    if d in FilesOf(parent) {
      q :| q in Paths(pd) * Paths(cd);
      MissingIsAdded(None, cd, q);
    } else {
      q := HiddenIsWronglyAdded(pd, cd);
    }
    p := Join(d, q);
    JoinSplits(d, q);
    AddedCases(Some(parent), child, p);
    PathsAreFound(pd, q);
    PathsAreFound(parent, p);
    FindBelow(parent, p);
  }

  lemma FindBelow(tree: Oid, p: Path)
    requires '/' in p && Head(p) in DirsOf(tree)
    ensures Find(tree, p) == Find(DirsOf(tree)[Head(p)], Rest(p))
  {
  }

  /** The pruned walk computes the set difference of the two flattened path sets if and only if it
      comes to no hidden directory with a path in common. */
  lemma AddedIsDifference(parent: Oid, child: Oid)
    ensures Added(Some(parent), child) == Paths(child) - Paths(parent) <==> !Hides(parent, child)
  {
    hide Added, Hides, Paths;
    forall p
      ensures p in Paths(child) && p !in Paths(parent) ==> p in Added(Some(parent), child)
      ensures p in Added(Some(parent), child) ==> p in Paths(child) && (p in Paths(parent) ==> Hides(parent, child))
    {
      if p in Paths(child) && p !in Paths(parent) {
        MissingIsAdded(Some(parent), child, p);
      }
      if p in Added(Some(parent), child) {
        AddedAreInvisible(Some(parent), child, p);
        if p in Paths(parent) {
          WronglyAddedIsHidden(parent, child, p);
        }
      }
    }
    if Hides(parent, child) {
      var p := HiddenIsWronglyAdded(parent, child);
    }
  }

  lemma {:induction false} UnshadowedHidesNothing(parent: Oid, child: Oid)
    requires Unshadowed(parent)
    ensures !Hides(parent, child)
    decreases Rank(child)
  {
    forall d | d in DirsOf(child) && d in DirsOf(parent)
      ensures !Hides(DirsOf(parent)[d], DirsOf(child)[d])
    {
      UnshadowedHidesNothing(DirsOf(parent)[d], DirsOf(child)[d]);
    }
  }

  /** The tree objects the difference walk loads are all in the store. */
  ghost predicate DiffHeld(m: ObjectMap, parent: Option<Oid>, child: Oid)
    decreases Rank(child), 1
  {
    parent != Some(child) ==>
      child in m &&
      (Preimage(child).Some? && Preimage(child).value.Tree? ==>
        (parent.Some? ==> parent.value in m) && DirsHeld(m, parent, child, DirsOf(child).Keys))
  }

  ghost predicate DirsHeld(m: ObjectMap, parent: Option<Oid>, child: Oid, ds: set<Name>)
    decreases Rank(child), 0
  {
    forall d :: d in ds && d in DirsOf(child) ==> DiffHeld(m, SubTree(parent, d), DirsOf(child)[d])
  }

  function PrefixAll(prefix: Path, ps: seq<Path>): (s: seq<Path>)
    ensures |s| == |ps| && forall i :: 0 <= i < |s| ==> s[i] == At(prefix, ps[i])
  {
    seq(|ps|, i requires 0 <= i < |ps| => At(prefix, ps[i]))
  }

  lemma PrefixNothing(ps: seq<Path>)
    ensures PrefixAll("", ps) == ps
  {
    assert forall i :: 0 <= i < |ps| ==> PrefixAll("", ps)[i] == ps[i];
  }

  lemma PrefixAppend(prefix: Path, a: seq<Path>, b: seq<Path>)
    ensures PrefixAll(prefix, a + b) == PrefixAll(prefix, a) + PrefixAll(prefix, b)
  {
  }

  lemma PrefixJoined(prefix: Path, d: Name, ps: seq<Path>)
    ensures PrefixAll(prefix, JoinAll(d, ps)) == PrefixAll(prefix + d + "/", ps)
  {
    AtJoin(prefix, d);
  }

  /** Paths in the child's tree that the walk finds nothing for in the parent's, in walk order. */
  method TreePathsAdded(store: MemStore, prefix: Path, parent: Option<Oid>, child: Oid, before: seq<Path>)
    returns (r: Result<seq<Path>>)
    requires store.Valid()
    ensures r.Ok? <==> DiffHeld(store.objs, parent, child)
    ensures r.Ok? ==> r.value == before + PrefixAll(prefix, AddedList(store.order, parent, child))
    ensures r.Err? ==> r.error.ObjectNotFound? && r.error.oid !in store.objs
    decreases Rank(child), 2
  {
    hide AddedAmong;
    if parent == Some(child) {
      return Ok(before);
    }
    var got :- store.Get(child);
    AddedAmongNone(store.order, parent, child);
    AddressedPreimage(store.objs, child);
    if !got.Tree? {
      return Ok(before);
    }
    var files, dirs: map<Name, Oid> := map[], map[];
    if parent.Some? {
      var pgot :- store.Get(parent.value);
      AddressedPreimage(store.objs, parent.value);
      if pgot.Tree? {
        files, dirs := pgot.files, pgot.dirs;
      }
    }
    EntriesAreListed(store.order, child);
    r := AddedInEntries(store, prefix, parent, child, files, dirs, got, before);
  }

  lemma AddedAmongNone(order: EntryOrder, parent: Option<Oid>, child: Oid)
    ensures AddedAmong(order, parent, child, []) == []
  {
  }

  lemma EntriesAreListed(order: EntryOrder, tree: Oid)
    ensures Lists(EntriesOf(order, tree), FilesOf(tree).Keys, DirsOf(tree).Keys)
  {
    assert ListsTrees(order);
  }

  /** What one entry of the child's tree adds. */
  ghost function EntryAdds(order: EntryOrder, prefix: Path, parent: Option<Oid>, child: Oid, e: TreeEntry): seq<Path> {
    if e.FileEntry? then
      if e.name in FilesOf(child) && !HasFile(parent, e.name) then [At(prefix, e.name)] else []
    else if e.name in DirsOf(child) then
      PrefixAll(prefix + e.name + "/", AddedList(order, SubTree(parent, e.name), DirsOf(child)[e.name]))
    else []
  }

  /** Entry by entry, each directory against the directory of that name in `parent`. */
  method AddedInEntries(store: MemStore, prefix: Path, ghost parent: Option<Oid>, ghost child: Oid,
      files: map<Name, Oid>, dirs: map<Name, Oid>, tree: GitObject, before: seq<Path>)
    returns (r: Result<seq<Path>>)
    requires store.Valid() && Preimage(child) == Some(tree) && tree.Tree?
    requires Lists(store.order(tree), tree.files.Keys, tree.dirs.Keys)
    requires forall n :: n in files <==> HasFile(parent, n)
    requires forall d :: SubTree(parent, d) == if d !in files && d in dirs then Some(dirs[d]) else None
    ensures r.Ok? <==> DirsHeld(store.objs, parent, child, DirsOf(child).Keys)
    ensures r.Ok? ==> r.value == before + PrefixAll(prefix, AddedAmong(store.order, parent, child, store.order(tree)))
    ensures r.Err? ==> r.error.ObjectNotFound? && r.error.oid !in store.objs
    decreases Rank(child), 1
  {
    hide AddedAmong, EntryAdds, SubTree, HasFile, DiffHeld, DirsHeld, EntriesHeld, Lists, PrefixAll, Addressed;
    var es := store.order(tree);
    var out := before;
    AddedAmongNone(store.order, parent, child);
    PrefixNone(prefix);
    EntriesHeldAre(store.objs, parent, child, es, 0);
    for i := 0 to |es|
      invariant out == before + PrefixAll(prefix, AddedAmong(store.order, parent, child, es[..i]))
      invariant EntriesHeld(store.objs, parent, child, es, i)
    {
      EntriesHeldAre(store.objs, parent, child, es, i);
      ListedIsThere(es, tree.files.Keys, tree.dirs.Keys, i);
      AddedOneMore(store.order, parent, child, es, i, prefix);
      out :- AddedInEntry(store, prefix, parent, child, files, dirs, tree, es[i], out);
    }
    assert es[..|es|] == es;
    EntriesHeldAre(store.objs, parent, child, es, |es|);
    return Ok(out);
  }

  method AddedInEntry(store: MemStore, prefix: Path, ghost parent: Option<Oid>, ghost child: Oid,
      files: map<Name, Oid>, dirs: map<Name, Oid>, tree: GitObject, e: TreeEntry, before: seq<Path>)
    returns (r: Result<seq<Path>>)
    requires store.Valid() && Preimage(child) == Some(tree) && tree.Tree?
    requires if e.FileEntry? then e.name in tree.files else e.name in tree.dirs
    requires forall n :: n in files <==> HasFile(parent, n)
    requires forall d :: SubTree(parent, d) == if d !in files && d in dirs then Some(dirs[d]) else None
    ensures r.Ok? <==> (e.DirEntry? ==> DiffHeld(store.objs, SubTree(parent, e.name), DirsOf(child)[e.name]))
    ensures r.Ok? ==> r.value == before + EntryAdds(store.order, prefix, parent, child, e)
    ensures r.Err? ==> r.error.ObjectNotFound? && r.error.oid !in store.objs
    decreases Rank(child), 0
  {
    hide AddedList, SubTree, HasFile, DiffHeld, PrefixAll, Addressed;
    if e.DirEntry? {
      var sub := if e.name !in files && e.name in dirs then Some(dirs[e.name]) else None;
      r := TreePathsAdded(store, prefix + e.name + "/", sub, tree.dirs[e.name], before);
    } else {
      r := Ok(if e.name !in files then before + [At(prefix, e.name)] else before);
    }
  }

  lemma PrefixNone(prefix: Path)
    ensures PrefixAll(prefix, []) == []
  {
  }

  /** The directories among the first entries can be compared with what the store holds. */
  ghost predicate EntriesHeld(m: ObjectMap, parent: Option<Oid>, child: Oid, es: seq<TreeEntry>, i: nat)
    requires i <= |es|
  {
    forall j :: 0 <= j < i && es[j].DirEntry? && es[j].name in DirsOf(child) ==>
      DiffHeld(m, SubTree(parent, es[j].name), DirsOf(child)[es[j].name])
  }

  lemma EntriesHeldAre(m: ObjectMap, parent: Option<Oid>, child: Oid, es: seq<TreeEntry>, i: nat)
    requires i <= |es| && Lists(es, FilesOf(child).Keys, DirsOf(child).Keys)
    ensures i == 0 ==> EntriesHeld(m, parent, child, es, i)
    ensures i < |es| && EntriesHeld(m, parent, child, es, i) ==>
      (EntriesHeld(m, parent, child, es, i + 1) <==>
        (es[i].DirEntry? && es[i].name in DirsOf(child) ==> DiffHeld(m, SubTree(parent, es[i].name), DirsOf(child)[es[i].name])))
    ensures i < |es| && es[i].DirEntry? && es[i].name in DirsOf(child) && DirsHeld(m, parent, child, DirsOf(child).Keys) ==>
      DiffHeld(m, SubTree(parent, es[i].name), DirsOf(child)[es[i].name])
    ensures i == |es| && EntriesHeld(m, parent, child, es, i) ==> DirsHeld(m, parent, child, DirsOf(child).Keys)
  {
    hide DiffHeld, FilesOf, DirsOf, SubTree;
    if i == |es| && EntriesHeld(m, parent, child, es, i) {
      forall d | d in DirsOf(child)
        ensures DiffHeld(m, SubTree(parent, d), DirsOf(child)[d])
      {
        var j :| 0 <= j < |es| && es[j] == DirEntry(d);
      }
    }
  }

  lemma ListedIsThere(es: seq<TreeEntry>, files: set<Name>, dirs: set<Name>, i: nat)
    requires Lists(es, files, dirs) && i < |es|
    ensures if es[i].FileEntry? then es[i].name in files else es[i].name in dirs
  {
    assert es[i] in es;
    assert es[i] == if es[i].FileEntry? then FileEntry(es[i].name) else DirEntry(es[i].name);
  }

  lemma AddedOneMore(order: EntryOrder, parent: Option<Oid>, child: Oid, es: seq<TreeEntry>, i: nat, prefix: Path)
    requires i < |es|
    ensures PrefixAll(prefix, AddedAmong(order, parent, child, es[..i + 1])) ==
      PrefixAll(prefix, AddedAmong(order, parent, child, es[..i])) + EntryAdds(order, prefix, parent, child, es[i])
  {
    hide AddedList, FilesOf, DirsOf, SubTree, HasFile;
    assert es[..i + 1][..i] == es[..i] && es[..i + 1][i] == es[i];
    var before, name := AddedAmong(order, parent, child, es[..i]), es[i].name;
    assert before + [] == before;
    if es[i].FileEntry? {
      PrefixAppend(prefix, before, [name]);
    } else if name in DirsOf(child) {
      var below := AddedList(order, SubTree(parent, name), DirsOf(child)[name]);
      PrefixAppend(prefix, before, JoinAll(name, below));
      PrefixJoined(prefix, name, below);
    }
  }
}
