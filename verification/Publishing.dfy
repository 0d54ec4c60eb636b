/** What a commit makes of each path it is given (engine.rs): published, brought back on purpose, or set
    aside as left over from before a delete; and when there is nothing to commit. */
module Publishing {
  import opened Prelude
  import opened Objects
  import opened Store
  import opened Dag
  import opened Trees
  import opened TreeCodec
  import opened Order
  import opened Touch
  import opened Fold
  import opened Signing
  import opened State
  import opened Materialize
  import opened Engine
  import opened CommitLaws

  /** `parent` does not show the path, and the last thing that happened to it in its history was `d` deleting it. */
  ghost predicate DeletedBy(parent: Oid, path: Path, d: Oid) {
    !Visible(TreeOf(parent), path) && DeletedLast(parent, path, d)
  }

  /** The path was deleted, and the engine's record says it is still on this disk from before that. */
  ghost predicate LeftOver(parent: Oid, materialized: Hashes, path: Path) {
    path in materialized && exists d :: DeletedBy(parent, path, d)
  }

  lemma UndoesIff(parent: Oid, path: Path, d: Oid)
    ensures Undoes(parent, path) == Some(d) <==> DeletedBy(parent, path, d)
  {
    hide MostRecent, Visible, DeletedLast;
    DeletedLastIff(parent, path, d);
  }

  /** Left-over paths are set aside, and all others published as they are. */
  lemma PathsSplit(parent: Oid, materialized: Hashes, scoped: Files, path: Path)
    ensures path in Quarantined(parent, materialized, scoped) <==> path in scoped && LeftOver(parent, materialized, path)
    ensures State.At(Published(parent, materialized, scoped), path) ==
      if LeftOver(parent, materialized, path) then None else State.At(scoped, path)
  {
    hide Undoes, DeletedBy;
    forall d
      ensures Undoes(parent, path) == Some(d) <==> DeletedBy(parent, path, d)
    {
      UndoesIff(parent, path, d);
    }
    if Undoes(parent, path).Some? {
      assert DeletedBy(parent, path, Undoes(parent, path).value);
    }
  }

  /** Undone are exactly the last deletes of the paths that are back on a disk they had gone from. */
  lemma UndoneIff(parent: Oid, materialized: Hashes, scoped: Files, d: Oid)
    ensures d in Undone(parent, materialized, scoped) <==>
      exists path :: path in scoped && path !in materialized && DeletedBy(parent, path, d)
  {
    hide Undoes, DeletedBy, Published;
    forall path
      ensures Undoes(parent, path) == Some(d) <==> DeletedBy(parent, path, d)
      ensures path in Published(parent, materialized, scoped) && Undoes(parent, path) == Some(d) <==>
        path in scoped && path !in materialized && DeletedBy(parent, path, d)
    {
      UndoesIff(parent, path, d);
      PathsSplit(parent, materialized, scoped, path);
      if Undoes(parent, path).Some? {
        UndoesIff(parent, path, Undoes(parent, path).value);
      }
    }
    if d in Undone(parent, materialized, scoped) {
      var path :| path in Published(parent, materialized, scoped) && Undoes(parent, path) == Some(d);
      assert path in scoped && path !in materialized && DeletedBy(parent, path, d);
    }
  }

  ghost function ShownAfter(n: Node, scoped: Files, path: Path): Option<Bytes> {
    if CleanPath(path) && !LeftOver(ParentFor(n), n.materialized, path) then State.At(scoped, path) else None
  }

  /** What a commit that goes through means: `main` shows exactly the well-formed paths it was given that
      are not left over, with the bytes given, and the record agrees; and the new primitive undoes exactly
      the last deletes of those that were brought back. */
  lemma CommitMeans(n: Node, scoped: Files, node: NodeId, now: nat, bucket: string, n': Node, r: Result<Option<Oid>>)
    requires Current(n) && Committed(n, scoped, node, now, bucket, n', r)
    ensures r.Ok? && r.value.Some? && n'.main.Some?
    ensures forall p :: ShownAfter(n, scoped, p) == State.At(FilesAt(n'.main.value), p)
    ensures forall p :: p in n'.materialized <==> p in scoped && !LeftOver(ParentFor(n), n.materialized, p)
    ensures forall p :: p in n'.materialized ==> n'.materialized[p] == BlobHash(scoped[p])
    ensures forall d :: d in ReaddsOf(r.value.value) <==> BroughtBack(n, scoped, d)
  {
    hide Current, Committed, Published, Undone, LeftOver, BroughtBack, FilesAt, ReaddsOf, ShownAfter, Clean, HashesOf;
    AfterCommit(n, scoped, node, now, bucket, n', r);
    ShownIs(n, scoped, FilesAt(n'.main.value), n'.materialized);
    ReaddsAreUndone(n, scoped, node, now, bucket, n', r);
    forall d
      ensures d in ReaddsOf(r.value.value) <==> BroughtBack(n, scoped, d)
    {
      UndoneAre(n, scoped, d);
    }
  }

  /** `d` is the last delete of a path that the commit was given and that was gone from this disk. */
  ghost predicate BroughtBack(n: Node, scoped: Files, d: Oid) {
    exists p :: p in scoped && p !in n.materialized && DeletedBy(ParentFor(n), p, d)
  }

  lemma UndoneAre(n: Node, scoped: Files, d: Oid)
    ensures d in Undone(ParentFor(n), n.materialized, scoped) <==> BroughtBack(n, scoped, d)
  {
    hide Undone, DeletedBy;
    UndoneIff(ParentFor(n), n.materialized, scoped, d);
  }

  lemma ShownIs(n: Node, scoped: Files, shown: Files, record: Hashes)
    requires var published := Published(ParentFor(n), n.materialized, scoped);
      shown == Clean(published) && record == HashesOf(published)
    ensures forall p :: ShownAfter(n, scoped, p) == State.At(shown, p)
    ensures forall p :: p in record <==> p in scoped && !LeftOver(ParentFor(n), n.materialized, p)
    ensures forall p :: p in record ==> record[p] == BlobHash(scoped[p])
  {
    hide Published, LeftOver, CleanPath, ParentFor;
    var published := Published(ParentFor(n), n.materialized, scoped);
    forall p
      ensures State.At(published, p) == if LeftOver(ParentFor(n), n.materialized, p) then None else State.At(scoped, p)
    {
      PathsSplit(ParentFor(n), n.materialized, scoped, p);
    }
    forall p
      ensures ShownAfter(n, scoped, p) == State.At(shown, p)
    {
    }
    forall p
      ensures p in published <==> p in scoped && !LeftOver(ParentFor(n), n.materialized, p)
      ensures p in published ==> published[p] == scoped[p]
    {
      assert State.At(published, p) == if LeftOver(ParentFor(n), n.materialized, p) then None else State.At(scoped, p);
    }
  }

  lemma ReaddsAreUndone(n: Node, scoped: Files, node: NodeId, now: nat, bucket: string, n': Node, r: Result<Option<Oid>>)
    requires Current(n) && Committed(n, scoped, node, now, bucket, n', r) && r.Ok? && r.value.Some?
    ensures Elements(ReaddsOf(r.value.value)) == Undone(ParentFor(n), n.materialized, scoped)
  {
    hide Published, Quarantined, Undone, SetAside, Authors, Authored, FrontierOf, MainOf, CommitResult, ReaddsOf;
    var mid, c := TakenApart(n, scoped, node, now, bucket, n', r);
    AuthoredCommit(c, node, n, Published(ParentFor(n), n.materialized, scoped), Undone(ParentFor(n), n.materialized, scoped), now);
    KnownAfter(mid, Published(ParentFor(n), n.materialized, scoped), c, n', r);
  }

  /** There is nothing to commit exactly when every path that is not left over is as it was on the disk the
      record describes: a single changed byte, a new path or a missing one makes a commit. */
  lemma NothingToCommitIff(n: Node, last: Files, scoped: Files, node: NodeId, now: nat, bucket: string, n': Node, r: Result<Option<Oid>>)
    requires !n.bootstrapPending && n.materialized == HashesOf(last)
    requires CommitResult(n, scoped, node, now, bucket, n', r)
    ensures r == Ok(None) <==>
      forall p :: (p in scoped && LeftOver(ParentFor(n), n.materialized, p)) || State.At(scoped, p) == State.At(last, p)
    ensures r == Ok(None) ==> n'.known == n.known && n'.main == n.main
  {
    hide Published, Quarantined, Undone, SetAside, Authors, Authored, LeftOver, ParentFor;
    var parent := ParentFor(n);
    var published, stale := Published(parent, n.materialized, scoped), Quarantined(parent, n.materialized, scoped);
    var mid: Node :| SetAside(n, stale, bucket, mid)
      && if Unchanged(mid, published) then
           r == Ok(None) && Grown(n.objs, n'.objs) && n' == mid.(objs := n'.objs)
         else
           exists c :: Authors(c, node, n, published, Undone(parent, n.materialized, scoped), now) && Authored(mid, published, c, n', r);
    SetAsideKeeps(n, stale, bucket, mid);
    RecordAgreesIff(n, last, scoped);
    SomethingMade(mid, published, n', r);
  }

  lemma RecordAgreesIff(n: Node, last: Files, scoped: Files)
    requires n.materialized == HashesOf(last)
    ensures n.materialized - Quarantined(ParentFor(n), n.materialized, scoped) == HashesOf(Published(ParentFor(n), n.materialized, scoped)) <==>
      forall p :: (p in scoped && LeftOver(ParentFor(n), n.materialized, p)) || State.At(scoped, p) == State.At(last, p)
  {
    hide Published, Quarantined, LeftOver, ParentFor, Visible;
    var parent := ParentFor(n);
    var published, stale := Published(parent, n.materialized, scoped), Quarantined(parent, n.materialized, scoped);
    forall p
      ensures p in stale <==> p in scoped && LeftOver(parent, n.materialized, p)
      ensures State.At(published, p) == if LeftOver(parent, n.materialized, p) then None else State.At(scoped, p)
      ensures LeftOver(parent, n.materialized, p) ==> p in n.materialized
    {
      PathsSplit(parent, n.materialized, scoped, p);
      LeftOverIsRecorded(parent, n.materialized, p);
    }
    assert n.materialized - stale == HashesOf(last - stale);
    HashesTell(last - stale, published);
    SameIfAt(last - stale, published);
  }

  lemma LeftOverIsRecorded(parent: Oid, materialized: Hashes, p: Path)
    ensures LeftOver(parent, materialized, p) ==> p in materialized
  {
  }

  lemma SomethingMade(mid: Node, published: Files, n': Node, r: Result<Option<Oid>>)
    ensures forall c :: Authored(mid, published, c, n', r) ==> r != Ok(None)
  {
  }

  lemma SameIfAt<T>(a: map<Path, T>, b: map<Path, T>)
    ensures a == b <==> forall p :: State.At(a, p) == State.At(b, p)
  {
    if forall p :: State.At(a, p) == State.At(b, p) {
      forall p
        ensures (p in a <==> p in b) && (p in a ==> a[p] == b[p])
      {
        assert State.At(a, p) == State.At(b, p);
      }
    }
  }
}
