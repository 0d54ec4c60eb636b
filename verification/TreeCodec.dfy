/** Writing a flat file map as nested tree objects, and reading it back (object.rs). */
module TreeCodec {
  import opened Prelude
  import opened Objects
  import opened Store
  import opened Trees

  // ---- The tree that a file map is written as ----

  /** The files under directory `d`, by their path from there. */
  function Under(m: Files, d: Name): Files {
    Below(m, d + "/")
  }

  /** The files below `prefix`, by their path from there. */
  function Below(files: Files, prefix: Path): Files {
    AtInjective(prefix);
    map p | p in files && prefix <= p :: p[|prefix|..] := files[p]
  }

  lemma BelowEntries(files: Files, prefix: Path)
    ensures forall q :: q in Below(files, prefix) <==> At(prefix, q) in files
    ensures forall q :: q in Below(files, prefix) ==> Below(files, prefix)[q] == files[At(prefix, q)]
  {
    AtInjective(prefix);
    forall q | At(prefix, q) in files
      ensures q in Below(files, prefix)
    {
      assert At(prefix, q)[|prefix|..] == q;
    }
  }

  lemma UnderEntries(m: Files, d: Name)
    ensures forall q :: q in Under(m, d) <==> Join(d, q) in m
    ensures forall q :: q in Under(m, d) ==> Under(m, d)[q] == m[Join(d, q)]
  {
    BelowEntries(m, d + "/");
    assert forall q :: At(d + "/", q) == Join(d, q);
  }

  lemma BelowDescends(files: Files, prefix: Path, d: Name)
    ensures Below(files, prefix + d + "/") == Under(Below(files, prefix), d)
  {
    hide Below, Under;
    BelowEntries(files, prefix + d + "/");
    BelowEntries(files, prefix);
    UnderEntries(Below(files, prefix), d);
    AtJoin(prefix, d);
  }

  function FileNames(m: Files): set<Name> {
    set p: Path | p in m && p != "" && '/' !in p :: p
  }

  function DirNames(m: Files): set<Name> {
    set p | p in m && '/' in p :: Head(p)
  }

  ghost function Longest(paths: set<Path>): (n: nat)
    ensures forall p :: p in paths ==> |p| < n
    ensures n == 0 || exists p :: p in paths && |p| + 1 == n
  {
    if paths == {} then 0
    else
      HighestExists(paths, (p: Path) => |p|);
      var top :| top in paths && forall p :: p in paths ==> |p| <= |top|;
      |top| + 1
  }

  lemma UnderIsShorter(m: Files, d: Name)
    requires d in DirNames(m)
    ensures Longest(Under(m, d).Keys) < Longest(m.Keys)
  {
    var p :| p in m && '/' in p && Head(p) == d;
    SplitJoins(p);
    UnderEntries(m, d);
    assert Rest(p) in Under(m, d);
    var q :| q in Under(m, d).Keys && |q| + 1 == Longest(Under(m, d).Keys);
    assert Join(d, q) in m.Keys;
  }

  /** The tree object `m` is written as. */
  ghost function TreeFor(m: Files): GitObject
    decreases Longest(m.Keys)
  {
    Tree(map n | n in FileNames(m) :: Sha(Blob(m[n])),
         map d | d in DirNames(m) :: (UnderIsShorter(m, d); Sha(TreeFor(Under(m, d)))))
  }

  ghost function TreeId(m: Files): Oid {
    Sha(TreeFor(m))
  }

  lemma TreeIdEntries(m: Files)
    ensures FilesOf(TreeId(m)) == map n | n in FileNames(m) :: Sha(Blob(m[n]))
    ensures DirsOf(TreeId(m)) == map d | d in DirNames(m) :: TreeId(Under(m, d))
  {
    hide FileNames, DirNames, Under, Longest;
    PreimageOfSha(TreeFor(m));
    TreeForDirs(m);
  }

  lemma TreeForDirs(m: Files)
    ensures TreeFor(m).Tree? && TreeFor(m).dirs == map d | d in DirNames(m) :: TreeId(Under(m, d))
  {
    hide FileNames, DirNames, Under, Longest;
  }

  // ---- Round trip ----

  /** A path a nested tree can hold: it names a file, so it is not empty and has no trailing separator. */
  predicate CleanPath(p: Path) {
    p != "" && p[|p| - 1] != '/'
  }

  function Clean(m: Files): Files {
    map p | p in m && CleanPath(p) :: m[p]
  }

  lemma CleanRest(p: Path)
    requires '/' in p
    ensures CleanPath(p) <==> CleanPath(Rest(p))
  {
    if Rest(p) != "" {
      assert p[|p| - 1] == Rest(p)[|Rest(p)| - 1];
    }
  }

  lemma {:induction false} WrittenIsFound(m: Files, p: Path)
    ensures Find(TreeId(m), p) == if p in m && CleanPath(p) then Some(Sha(Blob(m[p]))) else None
    decreases |p|
  {
    hide TreeId, FilesOf, DirsOf, Under, CleanPath, Slash;
    TreeIdEntries(m);
    if '/' in p {
      SplitJoins(p);
      var d, q := Head(p), Rest(p);
      UnderEntries(m, d);
      CleanRest(p);
      if d in DirNames(m) {
        WrittenIsFound(Under(m, d), q);
      }
    } else {
      CleanName(p);
    }
  }

  lemma CleanName(p: Path)
    requires '/' !in p
    ensures CleanPath(p) <==> p != ""
  {
  }

  /** Reading back a written map returns it without the paths no tree can hold: the empty
      path and paths that end in a separator. */
  lemma ReadBack(m: Files)
    ensures Contents(TreeId(m)) == Clean(m)
  {
    forall p
      ensures p in Contents(TreeId(m)) <==> p in Clean(m)
      ensures p in Clean(m) ==> Contents(TreeId(m))[p] == m[p]
    {
      PathsAreFound(TreeId(m), p);
      WrittenIsFound(m, p);
      if p in m {
        PreimageOfSha(Blob(m[p]));
      }
    }
  }

  /** The round trip is exact for precisely the maps all of whose paths are clean. */
  lemma ReadBackExactly(m: Files)
    ensures Contents(TreeId(m)) == m <==> forall p :: p in m ==> CleanPath(p)
  {
    ReadBack(m);
    if Clean(m) == m {
      forall p | p in m
        ensures CleanPath(p)
      {
        assert p in Clean(m);
      }
    }
  }

  /** Two maps are written as the same tree id exactly when they hold the same clean files. */
  lemma SameIdSameFiles(m: Files, m': Files)
    requires TreeId(m) == TreeId(m')
    ensures Clean(m) == Clean(m')
  {
    ReadBack(m);
    ReadBack(m');
  }

  /** No path of the map is a directory prefix of another. */
  ghost predicate PrefixFree(m: Files) {
    forall p, q :: p in m ==> p + "/" + q !in m
  }

  lemma UnderIsPrefixFree(m: Files, d: Name)
    requires PrefixFree(m)
    ensures PrefixFree(Under(m, d))
  {
    UnderEntries(m, d);
    forall p, q | p in Under(m, d)
      ensures p + "/" + q !in Under(m, d)
    {
      assert Join(d, p) + "/" + q == Join(d, p + "/" + q);
    }
  }

  lemma {:induction false} PrefixFreeIsUnshadowed(m: Files)
    requires PrefixFree(m)
    ensures Unshadowed(TreeId(m))
    decreases Longest(m.Keys)
  {
    TreeIdEntries(m);
    forall d | d in DirsOf(TreeId(m))
      ensures d !in FilesOf(TreeId(m)) && Unshadowed(DirsOf(TreeId(m))[d])
    {
      UnderIsPrefixFree(m, d);
      UnderIsShorter(m, d);
      PrefixFreeIsUnshadowed(Under(m, d));
      var p :| p in m && '/' in p && Head(p) == d;
      SplitJoins(p);
      assert p == d + "/" + Rest(p);
    }
  }

  /** A lookup in a written tree is membership in the map it was written from. */
  lemma WrittenIsVisible(m: Files, p: Path)
    requires PrefixFree(m)
    ensures Visible(TreeId(m), p) <==> p in m && CleanPath(p)
  {
    PrefixFreeIsUnshadowed(m);
    VisibleIsRecorded(TreeId(m), p);
    PathsAreFound(TreeId(m), p);
    WrittenIsFound(m, p);
  }

  /** Whatever the map, a lookup only sees files that were written. */
  lemma VisibleWasWritten(m: Files, p: Path)
    requires Visible(TreeId(m), p)
    ensures p in m && CleanPath(p)
  {
    VisibleIsRecorded(TreeId(m), p);
    PathsAreFound(TreeId(m), p);
    WrittenIsFound(m, p);
  }

  /** The structural difference of two written trees is the difference of the maps' keys if and
      only if the walk comes to no hidden directory with a path in common; it comes to none over
      a parent in which no path is a directory of another. */
  lemma WrittenDifference(parent: Files, child: Files)
    ensures Added(Some(TreeId(parent)), TreeId(child)) == Clean(child).Keys - Clean(parent).Keys <==>
      !Hides(TreeId(parent), TreeId(child))
    ensures PrefixFree(parent) ==> !Hides(TreeId(parent), TreeId(child))
  {
    hide Added, Hides, Paths, Unshadowed, PrefixFree;
    AddedIsDifference(TreeId(parent), TreeId(child));
    WrittenPaths(parent);
    WrittenPaths(child);
    if PrefixFree(parent) {
      PrefixFreeIsUnshadowed(parent);
      UnshadowedHidesNothing(TreeId(parent), TreeId(child));
    }
  }

  /** The condition on the maps themselves. */
  ghost predicate HidesFiles(parent: Files, child: Files)
    decreases Longest(child.Keys)
  {
    TreeId(parent) != TreeId(child) &&
    exists d :: d in DirNames(child) && d in DirNames(parent) &&
      if d in FileNames(parent) then Clean(Under(parent, d)).Keys * Clean(Under(child, d)).Keys != {}
      else (UnderIsShorter(child, d); HidesFiles(Under(parent, d), Under(child, d)))
  }

  ghost predicate HidesUnder(parent: Oid, child: Oid, d: Name) {
    && d in DirsOf(child) && d in DirsOf(parent)
    && if d in FilesOf(parent) then Paths(DirsOf(parent)[d]) * Paths(DirsOf(child)[d]) != {}
       else Hides(DirsOf(parent)[d], DirsOf(child)[d])
  }

  ghost predicate HidesFilesUnder(parent: Files, child: Files, d: Name) {
    && d in DirNames(child) && d in DirNames(parent)
    && if d in FileNames(parent) then Clean(Under(parent, d)).Keys * Clean(Under(child, d)).Keys != {}
       else HidesFiles(Under(parent, d), Under(child, d))
  }

  lemma HidesCases(parent: Oid, child: Oid)
    ensures Hides(parent, child) <==> parent != child && exists d :: HidesUnder(parent, child, d)
  {
    hide Paths, FilesOf, DirsOf;
    if Hides(parent, child) {
      var d: Name :| d in DirsOf(child) && d in DirsOf(parent) &&
        if d in FilesOf(parent) then Paths(DirsOf(parent)[d]) * Paths(DirsOf(child)[d]) != {}
        else Hides(DirsOf(parent)[d], DirsOf(child)[d]);
      assert HidesUnder(parent, child, d);
    }
    if d: Name :| HidesUnder(parent, child, d) {
      assert d in DirsOf(child) && d in DirsOf(parent);
    }
  }

  lemma HidesFilesCases(parent: Files, child: Files)
    ensures HidesFiles(parent, child) <==> TreeId(parent) != TreeId(child) && exists d :: HidesFilesUnder(parent, child, d)
  {
    hide Clean, FileNames, DirNames, Under, TreeId, Longest;
    if HidesFiles(parent, child) {
      var d: Name :| d in DirNames(child) && d in DirNames(parent) &&
        if d in FileNames(parent) then Clean(Under(parent, d)).Keys * Clean(Under(child, d)).Keys != {}
        else (UnderIsShorter(child, d); HidesFiles(Under(parent, d), Under(child, d)));
      assert HidesFilesUnder(parent, child, d);
    }
    if d: Name :| HidesFilesUnder(parent, child, d) {
      assert d in DirNames(child) && d in DirNames(parent);
    }
  }

  /** Whether a directory is hidden can be told from the maps the trees were written from. */
  lemma {:induction false} HidesInMaps(parent: Files, child: Files)
    ensures Hides(TreeId(parent), TreeId(child)) <==> HidesFiles(parent, child)
    decreases Longest(child.Keys)
  {
    hide Paths, TreeFor, TreeId, Longest, DirNames, FileNames, Clean, Under, Hides, HidesFiles, FilesOf, DirsOf;
    HidesCases(TreeId(parent), TreeId(child));
    HidesFilesCases(parent, child);
    TreeIdEntries(parent);
    TreeIdEntries(child);
    forall d: Name
      ensures HidesUnder(TreeId(parent), TreeId(child), d) <==> HidesFilesUnder(parent, child, d)
    {
      if d in DirNames(child) && d in DirNames(parent) {
        WrittenPaths(Under(parent, d));
        WrittenPaths(Under(child, d));
        UnderIsShorter(child, d);
        HidesInMaps(Under(parent, d), Under(child, d));
      }
    }
  }

  lemma WrittenPaths(m: Files)
    ensures Paths(TreeId(m)) == Clean(m).Keys
  {
    hide Paths, TreeId, Clean;
    ReadBack(m);
    assert Contents(TreeId(m)).Keys == Paths(TreeId(m));
  }

  /** With a path below a file's name in both maps, and any other difference between them, the
      equality fails: that path counts as added although both have it. */
  lemma HiddenDiffers(parent: Files, child: Files, d: Name, q: Path)
    requires d in parent && d != "" && CleanPath(q) && Join(d, q) in parent && Join(d, q) in child
    requires Clean(parent) != Clean(child)
    ensures Join(d, q) in Added(Some(TreeId(parent)), TreeId(child))
    ensures Added(Some(TreeId(parent)), TreeId(child)) != Clean(child).Keys - Clean(parent).Keys
  {
    hide TreeFor, TreeId, FilesOf, DirsOf, Added, Under, Paths, Find;
    TreeIdEntries(parent);
    TreeIdEntries(child);
    JoinSplits(d, q);
    UnderEntries(child, d);
    assert d in FileNames(parent) && d in DirNames(child);
    assert SubTree(Some(TreeId(parent)), d) == None;
    if TreeId(parent) == TreeId(child) {
      SameIdSameFiles(parent, child);
    }
    WrittenIsFound(Under(child, d), q);
    PathsAreFound(TreeId(Under(child, d)), q);
    MissingIsAdded(None, TreeId(Under(child, d)), q);
    AddedCases(Some(TreeId(parent)), TreeId(child), Join(d, q));
    CleanRest(Join(d, q));
  }

  /** Such maps exist: the smallest case. */
  lemma ShadowedDifferenceDiffers(x: Bytes, y: Bytes, z: Bytes)
    ensures var parent := map["a" := x, "a/b" := y]; var child := map["a/b" := y, "c" := z];
      "a/b" in Added(Some(TreeId(parent)), TreeId(child)) && Hides(TreeId(parent), TreeId(child))
  {
    hide Added, Hides, TreeId, TreeFor;
    var parent := map["a" := x, "a/b" := y];
    var child := map["a/b" := y, "c" := z];
    assert Join("a", "b") == "a" + "/" + "b" == "a/b";
    JoinSplits("a", "b");
    CleanName("b");
    CleanName("c");
    assert "c" in Clean(child) && "c" !in Clean(parent);
    HiddenDiffers(parent, child, "a", "b");
    WrittenDifference(parent, child);
  }

  // ---- The methods ----

  /** The files directly in a directory, with their bytes. */
  ghost function Direct(m: Files): map<Name, Bytes> {
    map n | n in FileNames(m) :: m[n]
  }

  /** The files of `m` whose paths, seen from outside, are in `seen`. */
  ghost function Seen(m: Files, prefix: Path, seen: set<Path>): Files {
    map q | q in m && At(prefix, q) in seen :: m[q]
  }

  lemma SeeOneMore(files: Files, prefix: Path, seen: set<Path>, path: Path)
    requires path in files
    ensures var before := Seen(Below(files, prefix), prefix, seen);
      var after := Seen(Below(files, prefix), prefix, seen + {path});
      var rel := if prefix <= path then path[|prefix|..] else "";
      && Direct(after) == (if rel != "" && '/' !in rel then var n: Name := rel; Direct(before)[n := files[path]] else Direct(before))
      && DirNames(after) == (if '/' in rel then DirNames(before) + {Head(rel)} else DirNames(before))
  {
    hide Below, Seen;
    SeenMore(files, prefix, seen, path);
  }

  lemma SeenMore(files: Files, prefix: Path, seen: set<Path>, path: Path)
    requires path in files
    ensures var m := Below(files, prefix);
      Seen(m, prefix, seen + {path}) ==
      if prefix <= path then Seen(m, prefix, seen)[path[|prefix|..] := files[path]] else Seen(m, prefix, seen)
  {
    hide Below;
    BelowEntries(files, prefix);
    AtInjective(prefix);
  }

  lemma SeenAll(files: Files, prefix: Path)
    ensures Seen(Below(files, prefix), prefix, files.Keys) == Below(files, prefix)
  {
    BelowEntries(files, prefix);
  }

  method SplitLevel(prefix: Path, files: Files) returns (direct: map<Name, Bytes>, subdirs: set<Name>)
    ensures direct == Direct(Below(files, prefix)) && subdirs == DirNames(Below(files, prefix))
  {
    hide Below, Direct, DirNames, Seen;
    ghost var m := Below(files, prefix);
    direct, subdirs := map[], {};
    var done: set<Path>, todo := {}, files.Keys;
    SeenNone(m, prefix);
    while todo != {}
      invariant done + todo == files.Keys
      invariant direct == Direct(Seen(m, prefix, done)) && subdirs == DirNames(Seen(m, prefix, done))
    {
      var path :| path in todo;
      SeeOneMore(files, prefix, done, path);
      done, todo := done + {path}, todo - {path};
      if prefix <= path {
        var rel := path[|prefix|..];
        if rel != "" {
          if '/' !in rel {
            var n: Name := rel;
            direct := direct[n := files[path]];
          } else {
            subdirs := subdirs + {Head(rel)};
          }
        }
      }
    }
    assert done == files.Keys;
    SeenAll(files, prefix);
  }

  lemma SeenNone(m: Files, prefix: Path)
    ensures Direct(Seen(m, prefix, {})) == map[] && DirNames(Seen(m, prefix, {})) == {}
  {
  }

  lemma KeepsBlobs(before: ObjectMap, after: ObjectMap, entries: map<Name, Oid>)
    requires Extends(before, after) && forall n :: n in entries ==> HasBlob(before, entries[n])
    ensures forall n :: n in entries ==> HasBlob(after, entries[n])
  {
  }

  lemma ExtendsItself(m: ObjectMap)
    ensures Extends(m, m)
  {
  }

  lemma KeepsTrees(before: ObjectMap, after: ObjectMap, dirs: map<Name, Oid>)
    requires Extends(before, after) && forall d :: d in dirs ==> HasTree(before, dirs[d])
    ensures forall d :: d in dirs ==> HasTree(after, dirs[d])
  {
  }

  method PutBlobs(store: MemStore, direct: map<Name, Bytes>) returns (entries: map<Name, Oid>)
    requires store.Valid()
    modifies store
    ensures Grown(old(store.objs), store.objs)
    ensures entries == map n | n in direct :: Sha(Blob(direct[n]))
    ensures forall n :: n in entries ==> HasBlob(store.objs, entries[n])
  {
    hide Closed, Extends;
    entries := map[];
    ExtendsItself(store.objs);
    var todo := direct.Keys;
    while todo != {}
      invariant todo <= direct.Keys
      invariant Grown(old(store.objs), store.objs)
      invariant entries.Keys == direct.Keys - todo
      invariant forall n :: n in entries ==> entries[n] == Sha(Blob(direct[n])) && HasBlob(store.objs, entries[n])
    {
      var n :| n in todo;
      ghost var before := store.objs;
      var blob := store.PutHeld(Blob(direct[n]));
      GrownTransitive(old(store.objs), before, store.objs);
      KeepsBlobs(before, store.objs, entries);
      entries := entries[n := blob];
      todo := todo - {n};
    }
  }

  lemma TreeIsItsEntries(m: Files)
    ensures TreeFor(m) == Tree(FilesOf(TreeId(m)), DirsOf(TreeId(m)))
  {
    PreimageOfSha(TreeFor(m));
  }

  lemma TreeForEntries(m: Files, direct: map<Name, Bytes>, entries: map<Name, Oid>, dirs: map<Name, Oid>)
    requires direct == Direct(m)
    requires entries == map n | n in direct :: Sha(Blob(direct[n]))
    requires dirs == map d | d in DirNames(m) :: TreeId(Under(m, d))
    ensures Sha(Tree(entries, dirs)) == TreeId(m)
  {
    hide TreeFor, FilesOf, DirsOf, Under, DirNames;
    TreeIdEntries(m);
    assert FilesOf(TreeId(m)) == entries;
    assert DirsOf(TreeId(m)) == dirs;
    TreeIsItsEntries(m);
  }

  /** Write the files below `prefix` as nested trees, children first; nothing already stored
      changes, and a store without dangling references stays one. */
  method BuildTree(store: MemStore, prefix: Path, files: Files) returns (root: Oid)
    requires store.Valid()
    modifies store
    ensures Grown(old(store.objs), store.objs)
    ensures root == TreeId(Below(files, prefix)) && HasTree(store.objs, root)
    decreases Longest(Below(files, prefix).Keys), 1
  {
    hide Closed, Addressed, Extends, HasBlob, TreeFor, TreeId, Under, Below, DirNames, FileNames, Direct, Longest;
    var direct, subdirs := SplitLevel(prefix, files);
    var entries := PutBlobs(store, direct);
    ghost var withBlobs := store.objs;
    var dirs := BuildSubtrees(store, prefix, files, subdirs);
    ghost var withTrees := store.objs;
    KeepsBlobs(withBlobs, withTrees, entries);
    TreeForEntries(Below(files, prefix), direct, entries, dirs);
    root := store.PutHeld(Tree(entries, dirs));
    GrownTransitive(old(store.objs), withBlobs, withTrees);
    GrownTransitive(old(store.objs), withTrees, store.objs);
  }

  method BuildSubtrees(store: MemStore, prefix: Path, files: Files, subdirs: set<Name>) returns (dirs: map<Name, Oid>)
    requires store.Valid()
    requires subdirs == DirNames(Below(files, prefix))
    modifies store
    ensures Grown(old(store.objs), store.objs)
    ensures dirs == map d | d in subdirs :: TreeId(Under(Below(files, prefix), d))
    ensures forall d :: d in dirs ==> HasTree(store.objs, dirs[d])
    decreases Longest(Below(files, prefix).Keys), 0
  {
    hide Closed, Addressed, Extends, HasTree, TreeFor, TreeId, Under, Below, DirNames, FileNames, Direct, Longest;
    ghost var m := Below(files, prefix);
    dirs := map[];
    ExtendsItself(store.objs);
    var todo := subdirs;
    while todo != {}
      invariant todo <= subdirs
      invariant Grown(old(store.objs), store.objs)
      invariant dirs.Keys == subdirs - todo
      invariant forall d :: d in dirs ==> dirs[d] == TreeId(Under(m, d)) && HasTree(store.objs, dirs[d])
    {
      var d :| d in todo;
      BelowDescends(files, prefix, d);
      UnderIsShorter(m, d);
      ghost var before := store.objs;
      var child := BuildTree(store, prefix + d + "/", files);
      GrownTransitive(old(store.objs), before, store.objs);
      KeepsTrees(before, store.objs, dirs);
      dirs := dirs[d := child];
      todo := todo - {d};
    }
  }

  method WriteTreeFromFiles(store: MemStore, files: Files) returns (root: Oid)
    requires store.Valid()
    modifies store
    ensures Grown(old(store.objs), store.objs)
    ensures root == TreeId(files) && HasTree(store.objs, root)
  {
    BelowEntries(files, "");
    assert forall q :: At("", q) == q;
    assert Below(files, "") == files;
    root := BuildTree(store, "", files);
  }

  /** Every object a walk of the tree loads is in the store, with the kind its entry claims. */
  ghost predicate Readable(m: ObjectMap, tree: Oid)
    decreases Rank(tree)
  {
    && HasTree(m, tree)
    && (forall n :: n in FilesOf(tree) ==> HasBlob(m, FilesOf(tree)[n]))
    && (forall d :: d in DirsOf(tree) ==> Readable(m, DirsOf(tree)[d]))
  }

  lemma {:induction false} ReadableGrows(m: ObjectMap, m': ObjectMap, tree: Oid)
    requires Includes(m, m') && Readable(m, tree)
    ensures Readable(m', tree)
    decreases Rank(tree)
  {
    forall d | d in DirsOf(tree)
      ensures Readable(m', DirsOf(tree)[d])
    {
      ReadableGrows(m, m', DirsOf(tree)[d]);
    }
  }

  lemma {:induction false} ClosedIsReadable(m: ObjectMap, tree: Oid)
    requires Addressed(m) && Closed(m) && HasTree(m, tree)
    ensures Readable(m, tree)
    decreases Rank(tree)
  {
    AddressedPreimage(m, tree);
    assert RefsHeld(m, m[tree]);
    forall d | d in DirsOf(tree)
      ensures Readable(m, DirsOf(tree)[d])
    {
      ClosedIsReadable(m, DirsOf(tree)[d]);
    }
  }

  /** A file map moved below `prefix`. */
  ghost function Lift(prefix: Path, m: Files): Files {
    AtInjective(prefix);
    map q | q in m :: At(prefix, q) := m[q]
  }

  lemma LiftEntries(prefix: Path, m: Files)
    ensures forall q :: q in m ==> At(prefix, q) in Lift(prefix, m) && Lift(prefix, m)[At(prefix, q)] == m[q]
    ensures forall p :: p in Lift(prefix, m) <==> prefix <= p && p[|prefix|..] in m
  {
    AtInjective(prefix);
  }

  lemma LiftUnion(prefix: Path, a: Files, b: Files)
    ensures Lift(prefix, a + b) == Lift(prefix, a) + Lift(prefix, b)
  {
    hide Lift;
    AtInjective(prefix);
    LiftEntries(prefix, a);
    LiftEntries(prefix, b);
    LiftEntries(prefix, a + b);
    var l, r := Lift(prefix, a + b), Lift(prefix, a) + Lift(prefix, b);
    assert l.Keys == r.Keys;
    forall p | p in l
      ensures l[p] == r[p]
    {
      assert p == At(prefix, p[|prefix|..]);
    }
  }

  lemma LiftTwice(prefix: Path, d: Name, m: Files)
    ensures Lift(prefix, Lift(d + "/", m)) == Lift(prefix + d + "/", m)
  {
    hide Lift;
    var mid := Lift(d + "/", m);
    var l, r := Lift(prefix, mid), Lift(prefix + d + "/", m);
    LiftEntries(d + "/", m);
    LiftEntries(prefix, mid);
    LiftEntries(prefix + d + "/", m);
    AtInjective(prefix + d + "/");
    AtInjective(d + "/");
    AtInjective(prefix);
    AtJoin(prefix, d);
    forall p | p in l
      ensures p in r && r[p] == l[p]
    {
      var q := p[|prefix|..];
      var t := q[|d| + 1..];
      assert q == At(d + "/", t) == Join(d, t) && p == At(prefix, q);
      assert p == At(prefix + d + "/", t);
    }
    forall p | p in r
      ensures p in l
    {
      var t := p[|prefix + d + "/"|..];
      assert p == At(prefix + d + "/", t) == At(prefix, Join(d, t));
      assert Join(d, t) == At(d + "/", t);
    }
  }

  /** The part of a tree's contents under the entries `names` and `ds`. */
  ghost function Part(tree: Oid, names: set<Name>, ds: set<Name>): Files {
    map p | p in Contents(tree) && (if '/' in p then Head(p) in ds else p in names) :: Contents(tree)[p]
  }

  lemma PartAddFile(tree: Oid, names: set<Name>, n: Name)
    requires n in FilesOf(tree)
    ensures Part(tree, names + {n}, {}) == Part(tree, names, {}) + map[n := BlobOf(FilesOf(tree)[n])]
  {
    PathsAreFound(tree, n);
  }

  lemma PartAddDir(tree: Oid, names: set<Name>, ds: set<Name>, d: Name)
    requires d in DirsOf(tree)
    ensures Part(tree, names, ds + {d}) == Part(tree, names, ds) + Lift(d + "/", Contents(DirsOf(tree)[d]))
  {
    hide Part, Lift, FilesOf, DirsOf, Paths, Contents;
    var sub := DirsOf(tree)[d];
    var l, r := Part(tree, names, ds + {d}), Part(tree, names, ds) + Lift(d + "/", Contents(sub));
    forall p
      ensures p in l <==> p in r
      ensures p in l ==> l[p] == r[p]
    {
      PartEntries(tree, names, ds + {d}, p);
      PartEntries(tree, names, ds, p);
      LiftedEntries(tree, d, p);
    }
  }

  lemma PartEntries(tree: Oid, names: set<Name>, ds: set<Name>, p: Path)
    ensures p in Part(tree, names, ds) <==> p in Contents(tree) && if '/' in p then Head(p) in ds else p in names
    ensures p in Part(tree, names, ds) ==> Part(tree, names, ds)[p] == Contents(tree)[p]
  {
  }

  lemma LiftedEntries(tree: Oid, d: Name, p: Path)
    requires d in DirsOf(tree)
    ensures var l := Lift(d + "/", Contents(DirsOf(tree)[d]));
      && (p in l <==> p in Contents(tree) && '/' in p && Head(p) == d)
      && (p in l ==> l[p] == Contents(tree)[p])
  {
    hide Lift, FilesOf, DirsOf;
    var sub := DirsOf(tree)[d];
    LiftEntries(d + "/", Contents(sub));
    PathsAreFound(tree, p);
    if '/' in p && Head(p) == d {
      SplitJoins(p);
      PathsAreFound(sub, Rest(p));
      assert p == At(d + "/", Rest(p));
    } else if p in Lift(d + "/", Contents(sub)) {
      AtInjective(d + "/");
      var q := p[|d + "/"|..];
      assert p == At(d + "/", q) == Join(d, q);
      JoinSplits(d, q);
      assert false;
    }
  }

  method ReadTreeToFiles(store: MemStore, root: Oid) returns (r: Result<Files>)
    requires store.Valid()
    ensures r.Ok? <==> Readable(store.objs, root)
    ensures r.Ok? ==> r.value == Contents(root)
  {
    hide Contents, Readable;
    var files :- WalkTree(store, "", root, map[]);
    LiftNowhere(Contents(root));
    NothingPlus(Contents(root));
    return Ok(files);
  }

  lemma LiftNowhere(m: Files)
    ensures Lift("", m) == m
  {
    hide Lift;
    LiftEntries("", m);
    AtInjective("");
    assert forall q :: At("", q) == q;
  }

  lemma PlusOne(a: Files, b: Files, p: Path, content: Bytes)
    ensures (a + b)[p := content] == a + (b + map[p := content])
  {
  }

  lemma PlusMore(a: Files, b: Files, c: Files)
    ensures (a + b) + c == a + (b + c)
  {
  }

  lemma NothingPlus(m: Files)
    ensures map[] + m == m
  {
  }

  lemma PartOfEverything(tree: Oid)
    ensures Part(tree, FilesOf(tree).Keys, DirsOf(tree).Keys) == Contents(tree)
  {
    forall p
      ensures p in Contents(tree) ==> if '/' in p then Head(p) in DirsOf(tree) else p in FilesOf(tree)
    {
      PathsAreFound(tree, p);
    }
  }

  method WalkTree(store: MemStore, prefix: Path, tree: Oid, before: Files) returns (r: Result<Files>)
    requires store.Valid()
    ensures r.Ok? <==> Readable(store.objs, tree)
    ensures r.Ok? ==> r.value == before + Lift(prefix, Contents(tree))
    decreases Rank(tree), 1
  {
    hide Contents, Part, Lift, Paths;
    var got :- store.Get(tree);
    AddressedPreimage(store.objs, tree);
    if !got.Tree? {
      return Err(Malformed);
    }
    var out :- WalkFiles(store, prefix, tree, got.files, before);
    PartOfEverything(tree);
    r := WalkDirs(store, prefix, tree, got.dirs, before, out);
  }

  method WalkFiles(store: MemStore, prefix: Path, ghost tree: Oid, files: map<Name, Oid>, before: Files)
    returns (r: Result<Files>)
    requires store.Valid() && files == FilesOf(tree)
    ensures r.Ok? <==> forall n :: n in files ==> HasBlob(store.objs, files[n])
    ensures r.Ok? ==> r.value == before + Lift(prefix, Part(tree, files.Keys, {}))
  {
    hide Contents, Part, Lift, Paths, FilesOf, DirsOf, At;
    var out := before;
    var done: set<Name>, todo := {}, files.Keys;
    NoPart(prefix, tree);
    while todo != {}
      invariant done + todo == files.Keys
      invariant forall n :: n in done ==> HasBlob(store.objs, files[n])
      invariant out == before + Lift(prefix, Part(tree, done, {}))
    {
      var n: Name :| n in todo;
      var got :- store.Get(files[n]);
      if !got.Blob? {
        return Err(Malformed);
      }
      BlobHeld(store.objs, files[n]);
      var one: Files := map[n := got.content];
      PartAddFile(tree, done, n);
      LiftUnion(prefix, Part(tree, done, {}), one);
      LiftOne(prefix, n, got.content);
      PlusOne(before, Lift(prefix, Part(tree, done, {})), At(prefix, n), got.content);
      out := out[At(prefix, n) := got.content];
      done, todo := done + {n}, todo - {n};
    }
    assert done == files.Keys;
    return Ok(out);
  }

  lemma BlobHeld(m: ObjectMap, o: Oid)
    requires Addressed(m) && HasBlob(m, o)
    ensures BlobOf(o) == m[o].content
  {
    AddressedPreimage(m, o);
  }

  lemma NoPart(prefix: Path, tree: Oid)
    ensures Lift(prefix, Part(tree, {}, {})) == map[]
  {
  }

  lemma LiftOne(prefix: Path, n: Name, content: Bytes)
    ensures Lift(prefix, map[n := content]) == map[At(prefix, n) := content]
  {
    assert forall p: Path :: prefix <= p ==> p == prefix + p[|prefix|..];
  }

  method WalkDirs(store: MemStore, prefix: Path, ghost tree: Oid, dirs: map<Name, Oid>, ghost before: Files, before': Files)
    returns (r: Result<Files>)
    requires store.Valid() && dirs == DirsOf(tree)
    requires before' == before + Lift(prefix, Part(tree, FilesOf(tree).Keys, {}))
    ensures r.Ok? <==> forall d :: d in dirs ==> Readable(store.objs, dirs[d])
    ensures r.Ok? ==> r.value == before + Lift(prefix, Part(tree, FilesOf(tree).Keys, dirs.Keys))
    decreases Rank(tree), 0
  {
    hide Contents, Part, Lift, Paths, FilesOf, DirsOf, Readable;
    ghost var names := FilesOf(tree).Keys;
    var out := before';
    var done: set<Name>, todo := {}, dirs.Keys;
    while todo != {}
      invariant done + todo == dirs.Keys
      invariant forall d :: d in done ==> Readable(store.objs, dirs[d])
      invariant out == before + Lift(prefix, Part(tree, names, done))
    {
      var d :| d in todo;
      out :- WalkTree(store, prefix + d + "/", dirs[d], out);
      PartAddDir(tree, names, done, d);
      LiftUnion(prefix, Part(tree, names, done), Lift(d + "/", Contents(dirs[d])));
      LiftTwice(prefix, d, Contents(dirs[d]));
      PlusMore(before, Lift(prefix, Part(tree, names, done)), Lift(prefix + d + "/", Contents(dirs[d])));
      done, todo := done + {d}, todo - {d};
    }
    assert done == dirs.Keys;
    return Ok(out);
  }
}
