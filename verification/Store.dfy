/** The content-addressed object store: insert-only, keyed by the hash of what it holds. */
module Store {
  import opened Prelude
  import opened Objects

  type ObjectMap = map<Oid, GitObject>

  /** Every object sits under its own hash. */
  ghost predicate Addressed(m: ObjectMap) {
    forall o :: o in m ==> Sha(m[o]) == o
  }

  ghost predicate HasCommit(m: ObjectMap, o: Oid) {
    o in m && m[o].Commit?
  }

  ghost predicate HasTree(m: ObjectMap, o: Oid) {
    o in m && m[o].Tree?
  }

  ghost predicate HasBlob(m: ObjectMap, o: Oid) {
    o in m && m[o].Blob?
  }

  /** Everything an object refers to is in `m`, and is of the kind the reference claims. */
  ghost predicate RefsHeld(m: ObjectMap, obj: GitObject) {
    match obj
    case Blob(_) => true
    case Tree(files, dirs) =>
      && (forall n :: n in files ==> HasBlob(m, files[n]))
      && (forall n :: n in dirs ==> HasTree(m, dirs[n]))
    case Commit(c) =>
      HasTree(m, c.tree) && forall p :: p in c.parents ==> HasCommit(m, p)
  }

  /** No dangling reference anywhere. */
  ghost predicate Closed(m: ObjectMap) {
    forall o :: o in m ==> RefsHeld(m, m[o])
  }

  ghost predicate Includes(m: ObjectMap, m': ObjectMap) {
    forall o :: o in m ==> o in m' && m'[o] == m[o]
  }

  /** Nothing is lost, and what is new is the engine's own work: blobs, trees and fold commits. */
  ghost predicate Extends(m: ObjectMap, m': ObjectMap) {
    Includes(m, m') && forall o :: o in m' && o !in m ==> !IsEdit(m'[o])
  }

  /** A well-formed store with everything it held before; a reference dangles only if one did. */
  ghost predicate Grown(before: ObjectMap, after: ObjectMap) {
    Addressed(after) && Extends(before, after) && (Closed(before) ==> Closed(after))
  }

  lemma GrownTransitive(a: ObjectMap, b: ObjectMap, c: ObjectMap)
    requires Extends(a, b) && Extends(b, c)
    ensures Extends(a, c)
  {
  }

  lemma IncludesTransitive(a: ObjectMap, b: ObjectMap, c: ObjectMap)
    requires Includes(a, b) && Includes(b, c)
    ensures Includes(a, c)
  {
  }

  lemma ExtendsIncludes(a: ObjectMap, b: ObjectMap)
    requires Extends(a, b)
    ensures Includes(a, b)
  {
  }

  lemma IncludesItself(m: ObjectMap)
    ensures Includes(m, m)
  {
  }

  /** The same object put into two stores leaves one growing out of the other. */
  lemma BothPut(before: ObjectMap, after: ObjectMap, obj: GitObject)
    requires Addressed(after) && Extends(before, after)
    ensures Extends(before[Sha(obj) := obj], after[Sha(obj) := obj])
    ensures Includes(before, after[Sha(obj) := obj])
  {
    if Sha(obj) in after {
      ShaInjective(after[Sha(obj)], obj);
    }
  }

  lemma AddressedPreimage(m: ObjectMap, o: Oid)
    requires Addressed(m) && o in m
    ensures Preimage(o) == Some(m[o])
  {
    PreimageOfSha(m[o]);
  }

  /** Content addressing alone makes two stores agree on every id they share. */
  lemma StoresAgree(m: ObjectMap, m': ObjectMap, o: Oid)
    requires Addressed(m) && Addressed(m') && o in m && o in m'
    ensures m[o] == m'[o]
  {
    ShaInjective(m[o], m'[o]);
  }

  lemma InsertKeepsClosed(m: ObjectMap, obj: GitObject)
    requires Addressed(m) && RefsHeld(m, obj)
    ensures var m' := m[Sha(obj) := obj]; Addressed(m') && (Closed(m) ==> Closed(m')) && Includes(m, m')
  {
    hide RefsHeld;
    var m' := m[Sha(obj) := obj];
    if Sha(obj) in m {
      ShaInjective(m[Sha(obj)], obj);
    }
    if Closed(m) {
      forall o | o in m'
        ensures RefsHeld(m', m'[o])
      {
        RefsStayHeld(m, m', m'[o]);
      }
    }
  }

  lemma RefsStayHeld(m: ObjectMap, m': ObjectMap, obj: GitObject)
    requires Includes(m, m') && RefsHeld(m, obj)
    ensures RefsHeld(m', obj)
  {
  }

  // ---- How a tree object in memory lists its entries ----

  datatype TreeEntry = FileEntry(name: Name) | DirEntry(name: Name)

  /** The entries of one tree object, each once; a file comes before a directory of its name. */
  ghost predicate Lists(es: seq<TreeEntry>, files: set<Name>, dirs: set<Name>) {
    && NoDuplicates(es)
    && (forall n: Name :: FileEntry(n) in es <==> n in files)
    && (forall n: Name :: DirEntry(n) in es <==> n in dirs)
    && (forall i, j :: 0 <= i < j < |es| && es[i].DirEntry? && es[j].FileEntry? ==> es[i].name != es[j].name)
  }

  ghost predicate ListsTrees(order: GitObject -> seq<TreeEntry>) {
    forall files, dirs :: Lists(order(Tree(files, dirs)), files.Keys, dirs.Keys)
  }

  /** A tree that was decoded lists its entries as git sorts them; one the node built itself lists
      its files first. What was put first stays, so a store has one order for good. */
  type EntryOrder = order: GitObject -> seq<TreeEntry> | ListsTrees(order) witness (FilesFirstLists(); FilesFirstFn())

  function InOrder(names: set<Name>): (s: seq<Name>)
    ensures NoDuplicates(s) && Elements(s) == names
    decreases |names|
  {
    if names == {} then []
    else
      var n := FirstName(names);
      var rest := InOrder(names - {n});
      assert forall x :: x in rest ==> x in Elements(rest);
      [n] + rest
  }

  function AsFiles(names: seq<Name>): (es: seq<TreeEntry>)
    ensures |es| == |names| && forall i :: 0 <= i < |es| ==> es[i] == FileEntry(names[i])
  {
    seq(|names|, i requires 0 <= i < |names| => FileEntry(names[i]))
  }

  function AsDirs(names: seq<Name>): (es: seq<TreeEntry>)
    ensures |es| == |names| && forall i :: 0 <= i < |es| ==> es[i] == DirEntry(names[i])
  {
    seq(|names|, i requires 0 <= i < |names| => DirEntry(names[i]))
  }

  lemma AsEntriesHave(names: seq<Name>, n: Name)
    ensures FileEntry(n) in AsFiles(names) <==> n in names
    ensures DirEntry(n) in AsDirs(names) <==> n in names
    ensures DirEntry(n) !in AsFiles(names) && FileEntry(n) !in AsDirs(names)
  {
    if n in names {
      var i :| 0 <= i < |names| && names[i] == n;
      assert AsFiles(names)[i] == FileEntry(n) && AsDirs(names)[i] == DirEntry(n);
    }
  }

  function FilesFirst(obj: GitObject): seq<TreeEntry> {
    match obj
    case Tree(files, dirs) => AsFiles(InOrder(files.Keys)) + AsDirs(InOrder(dirs.Keys))
    case _ => []
  }

  function FilesFirstFn(): GitObject -> seq<TreeEntry> {
    obj => FilesFirst(obj)
  }

  lemma FilesFirstLists()
    ensures ListsTrees(FilesFirstFn())
  {
    hide InOrder, Lists;
    forall files: map<Name, Oid>, dirs: map<Name, Oid>
      ensures Lists(FilesFirst(Tree(files, dirs)), files.Keys, dirs.Keys)
    {
      ListsBoth(InOrder(files.Keys), InOrder(dirs.Keys), files.Keys, dirs.Keys);
    }
  }

  lemma ListsBoth(fs: seq<Name>, ds: seq<Name>, files: set<Name>, dirs: set<Name>)
    requires NoDuplicates(fs) && NoDuplicates(ds) && Elements(fs) == files && Elements(ds) == dirs
    ensures Lists(AsFiles(fs) + AsDirs(ds), files, dirs)
  {
    hide AsFiles, AsDirs;
    forall n: Name
      ensures n in fs <==> n in files
      ensures n in ds <==> n in dirs
      ensures FileEntry(n) in AsFiles(fs) + AsDirs(ds) <==> n in fs
      ensures DirEntry(n) in AsFiles(fs) + AsDirs(ds) <==> n in ds
    {
      assert n in fs <==> n in Elements(fs);
      assert n in ds <==> n in Elements(ds);
      AsEntriesHave(fs, n);
      AsEntriesHave(ds, n);
    }
  }

  class MemStore {
    const order: EntryOrder
    var objs: ObjectMap

    ghost predicate Valid()
      reads this
    {
      Addressed(objs)
    }

    constructor (order: EntryOrder)
      ensures Valid() && objs == map[] && this.order == order
    {
      this.order, objs := order, map[];
    }

    method Get(o: Oid) returns (r: Result<GitObject>)
      ensures r == if o in objs then Ok(objs[o]) else Err(ObjectNotFound(o))
    {
      if o in objs {
        return Ok(objs[o]);
      }
      return Err(ObjectNotFound(o));
    }

    method Has(o: Oid) returns (present: bool)
      ensures present == (o in objs)
    {
      return o in objs;
    }

    /** Inserting what is already there changes nothing; nothing is ever replaced. */
    method Put(obj: GitObject) returns (o: Oid)
      requires Valid()
      modifies this
      ensures Valid() && o == Sha(obj)
      ensures objs == old(objs)[o := obj] && Includes(old(objs), objs)
    {
      o := Sha(obj);
      if o in objs {
        ShaInjective(objs[o], obj);
      } else {
        objs := objs[o := obj];
      }
    }

    /** `Put` of an object of the engine's own whose references are all held. */
    method PutHeld(obj: GitObject) returns (o: Oid)
      requires Valid() && RefsHeld(objs, obj) && !IsEdit(obj)
      modifies this
      ensures o == Sha(obj) && objs == old(objs)[o := obj]
      ensures Grown(old(objs), objs)
    {
      InsertKeepsClosed(objs, obj);
      o := Put(obj);
    }

    method LoadCommit(o: Oid) returns (r: Result<CommitObj>)
      requires Valid()
      ensures r.Ok? <==> HasCommit(objs, o)
      ensures r.Ok? ==> objs[o] == Commit(r.value) && CommitAt(o) == Some(r.value)
      ensures r.Ok? ==> Parents(o) == r.value.parents
      ensures r.Err? ==> r.error == if o in objs then Malformed else ObjectNotFound(o)
    {
      var got := Get(o);
      if got.Err? {
        return Err(got.error);
      }
      AddressedPreimage(objs, o);
      match got.value
      case Commit(c) => return Ok(c);
      case _ => return Err(Malformed);
    }
  }
}
