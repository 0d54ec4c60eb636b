/** What a commit leaves behind (engine.rs): the new primitive survives every node's ghost-add
    filter, it alone is the frontier, and `main` reads back as what was published. */
module CommitLaws {
  import opened Prelude
  import opened Objects
  import opened Store
  import opened Dag
  import opened Trees
  import opened TreeCodec
  import opened Order
  import opened Touch
  import opened Fold
  import opened FoldLaws
  import opened Signing
  import opened State
  import opened Materialize
  import opened Engine
  import Scope

  /** `main` is the fold of everything known. */
  ghost predicate Current(n: Node) {
    n.main == Some(MainOf(Elements(n.known)))
  }

  lemma AuthoredCommit(c: CommitObj, node: NodeId, n: Node, published: Files, undone: set<Oid>, now: nat)
    requires Authors(c, node, n, published, undone, now)
    ensures var o := Sha(Commit(c));
      && CommitAt(o) == Some(c) && IsPrimitive(o) && VerifyPrimitive(c)
      && Parents(o) == [ParentFor(n)] && TreeOf(o) == TreeId(published)
      && Elements(ReaddsOf(o)) == undone && CounterOf(o) == n.observed + 1 && KeyOf(o).node == node
  {
    PreimageOfSha(Commit(c));
  }

  /** No node's filter ever drops an honestly authored primitive, whatever else it knows. */
  lemma CommitIsNoGhostAdd(c: CommitObj, node: NodeId, n: Node, scoped: Files, now: nat)
    requires var parent := ParentFor(n);
      Authors(c, node, n, Published(parent, n.materialized, scoped), Undone(parent, n.materialized, scoped), now)
    ensures !GhostAdd(Sha(Commit(c)))
  {
    hide Authors, MostRecent, Visible, GhostAdd, Resurrects, Undone, Published, Added;
    var parent := ParentFor(n);
    var published := Published(parent, n.materialized, scoped);
    var o := Sha(Commit(c));
    AuthoredCommit(c, node, n, published, Undone(parent, n.materialized, scoped), now);
    ReadBack(published);
    forall path | path in Added(Some(TreeOf(parent)), TreeId(published))
      ensures !Resurrects(o, parent, path)
    {
      AddedAreInvisible(Some(TreeOf(parent)), TreeId(published), path);
      assert path in Contents(TreeId(published));
      UndoneIsNamed(o, parent, n.materialized, scoped, path);
    }
    NotGhost(o, parent);
  }

  /** A published path whose latest touch is a delete is among those the edit undoes. */
  lemma UndoneIsNamed(o: Oid, parent: Oid, materialized: Hashes, scoped: Files, path: Path)
    requires path in Published(parent, materialized, scoped) && !Visible(TreeOf(parent), path)
    requires Elements(ReaddsOf(o)) == Undone(parent, materialized, scoped)
    ensures !Resurrects(o, parent, path)
  {
    hide MostRecent, Visible, ReaddsOf, Published;
    match MostRecent(parent, path)
    case Some((d, Delete)) =>
      assert Undoes(parent, path) == Some(d);
      assert d in Elements(ReaddsOf(o));
    case _ =>
  }

  lemma NotGhost(o: Oid, parent: Oid)
    requires Parents(o) == [parent]
    requires forall path :: path in Added(Some(TreeOf(parent)), TreeOf(o)) ==> !Resurrects(o, parent, path)
    ensures !GhostAdd(o)
  {
  }

  /** A primitive on top of `main` replaces the whole frontier. */
  lemma CommitIsTheFrontier(known: set<Oid>, o: Oid)
    requires IsPrimitive(o) && !GhostAdd(o) && Parents(o) == [MainOf(known)]
    ensures FrontierOf(known + {o}) == [o] && MainOf(known + {o}) == Wrapper(o)
  {
    hide MainOf, GhostAdd, Ancestors, IsPrimitive, FrontierOf;
    var all := Effective(known + {o});
    forall d | d in Effective(known)
      ensures d in Ancestors(o)
    {
      EffectiveBelowMain(known, d);
      ParentIsAncestor(o, MainOf(known));
    }
    OnTop(Effective(known), o);
    assert all == Effective(known) + {o};
    FrontierIs(known + {o}, o);
  }

  lemma OnTop(below: set<Oid>, o: Oid)
    requires forall d :: d in below ==> d in Ancestors(o)
    ensures Maximal(below + {o}) == {o}
  {
    hide Ancestors;
    forall d | d in below + {o}
      ensures o !in Ancestors(d)
    {
      if o in Ancestors(d) {
        AncestorRank(d, o);
        if d != o {
          AncestorRank(o, d);
        }
        assert false;
      }
    }
    forall d | d in below && d != o
      ensures d !in Maximal(below + {o})
    {
      assert o in below + {o};
    }
  }

  lemma FrontierIs(known: set<Oid>, o: Oid)
    requires Maximal(Effective(known)) == {o}
    ensures FrontierOf(known) == [o] && MainOf(known) == Wrapper(o)
  {
    hide Maximal, Effective;
    var f := FrontierOf(known);
    assert Elements(f) == {o} && |f| == 1;
    assert f[0] in Elements(f);
  }

  /** The commit went through: a new primitive over exactly the published files. */
  ghost predicate Committed(n: Node, scoped: Files, node: NodeId, now: nat, bucket: string, n': Node, r: Result<Option<Oid>>) {
    CommitResult(n, scoped, node, now, bucket, n', r) && r != Ok(None)
  }

  /** Committing on a current node always succeeds. Its primitive is then the whole frontier,
      `main` wraps it, and `main`'s tree is the published files, no more and no less. */
  lemma AfterCommit(n: Node, scoped: Files, node: NodeId, now: nat, bucket: string, n': Node, r: Result<Option<Oid>>)
    requires Current(n) && Committed(n, scoped, node, now, bucket, n', r)
    ensures r.Ok? && r.value.Some?
    ensures FrontierOf(Elements(n'.known)) == [r.value.value]
    ensures Current(n') && n'.main == Some(Wrapper(r.value.value))
    ensures FilesAt(n'.main.value) == Clean(Published(ParentFor(n), n.materialized, scoped))
    ensures n'.materialized == HashesOf(Published(ParentFor(n), n.materialized, scoped))
  {
    hide Published, Quarantined, Undone, SetAside, Authors, Authored, FrontierOf, GhostAdd, MainOf, Wrapper;
    var parent := ParentFor(n);
    var published := Published(parent, n.materialized, scoped);
    var mid, c := TakenApart(n, scoped, node, now, bucket, n', r);
    CommitIsNoGhostAdd(c, node, n, scoped, now);
    AuthoredCommit(c, node, n, published, Undone(parent, n.materialized, scoped), now);
    var o := Sha(Commit(c));
    SetAsideKeeps(n, Quarantined(parent, n.materialized, scoped), bucket, mid);
    CommitIsTheFrontier(Elements(n.known), o);
    KnownAfter(mid, published, c, n', r);
    OneTipIsFoldable(Elements(n'.known), o);
    WrapperCommit(o);
    ReadBack(published);
  }

  /** The two halves of a commit that went through. */
  lemma TakenApart(n: Node, scoped: Files, node: NodeId, now: nat, bucket: string, n': Node, r: Result<Option<Oid>>)
    returns (mid: Node, c: CommitObj)
    requires Committed(n, scoped, node, now, bucket, n', r)
    ensures SetAside(n, Quarantined(ParentFor(n), n.materialized, scoped), bucket, mid)
    ensures Authors(c, node, n, Published(ParentFor(n), n.materialized, scoped), Undone(ParentFor(n), n.materialized, scoped), now)
    ensures Authored(mid, Published(ParentFor(n), n.materialized, scoped), c, n', r)
  {
    hide Published, Quarantined, Undone, SetAside, Authors, Authored, Unchanged;
    mid, c :|
      && SetAside(n, Quarantined(ParentFor(n), n.materialized, scoped), bucket, mid)
      && Authors(c, node, n, Published(ParentFor(n), n.materialized, scoped), Undone(ParentFor(n), n.materialized, scoped), now)
      && Authored(mid, Published(ParentFor(n), n.materialized, scoped), c, n', r);
  }

  lemma SetAsideKeeps(n: Node, stale: set<Path>, bucket: string, mid: Node)
    requires SetAside(n, stale, bucket, mid)
    ensures mid.known == n.known && mid.main == n.main && mid.objs == n.objs && mid.observed == n.observed
    ensures mid.snapshots == n.snapshots && mid.bootstrapPending == n.bootstrapPending
    ensures mid.materialized == n.materialized - stale && mid.working == n.working - stale
  {
  }

  lemma KnownAfter(mid: Node, published: Files, c: CommitObj, n': Node, r: Result<Option<Oid>>)
    requires Authored(mid, published, c, n', r)
    ensures n'.known == AddOne(mid.known, Sha(Commit(c)))
    ensures Elements(n'.known) == Elements(mid.known) + {Sha(Commit(c))}
    ensures r.Ok? <==> Foldable(FrontierOf(Elements(n'.known)))
    ensures r.Ok? ==> r.value == Some(Sha(Commit(c))) && n'.main == Some(MainOf(Elements(n'.known))) && n'.materialized == HashesOf(published)
    ensures n'.snapshots == mid.snapshots && n'.bootstrapPending == mid.bootstrapPending
    ensures n'.observed == mid.observed + 1 && Grown(mid.objs[Sha(Commit(c)) := Commit(c)], n'.objs)
  {
    hide Grown, MainOf, FrontierOf, Foldable, HasCommit;
    var o := Sha(Commit(c));
    assert Elements(AddOne(mid.known, o)) == Elements(mid.known) + {o};
  }

  lemma OneTipIsFoldable(known: set<Oid>, o: Oid)
    requires FrontierOf(known) == [o]
    ensures Foldable(FrontierOf(known))
  {
  }

  /** Committing again what was just published never makes a commit. */
  lemma SecondCommitIsNone(n: Node, scoped: Files, node: NodeId, now: nat, bucket: string, n': Node, r: Result<Option<Oid>>,
      now': nat, bucket': string, n'': Node, r': Result<Option<Oid>>)
    requires Current(n) && Committed(n, scoped, node, now, bucket, n', r)
    requires CommitResult(n', Published(ParentFor(n), n.materialized, scoped), node, now', bucket', n'', r')
    ensures r' == Ok(None)
  {
    AfterCommit(n, scoped, node, now, bucket, n', r);
    NothingNew(n', Published(ParentFor(n), n.materialized, scoped), node, now', bucket', n'', r');
  }

  /** Two commits of the staged files in a row: when the first set nothing aside, the second
      returns nothing. */
  lemma StagedTwice(n: Node, rules: Scope.ScopeRules, node: NodeId, now: nat, bucket: string, n': Node, r: Result<Option<Oid>>,
      now': nat, bucket': string, n'': Node, r': Result<Option<Oid>>)
    requires Current(n) && Committed(n, Scope.Canonical(n.working, rules), node, now, bucket, n', r)
    requires Quarantined(ParentFor(n), n.materialized, Scope.Canonical(n.working, rules)) == {}
    requires CommitResult(n', Scope.Canonical(n'.working, rules), node, now', bucket', n'', r')
    ensures n'.working == n.working && r' == Ok(None)
  {
    hide Published, Undone, Authors, MainOf, Scope.Canonical, Stale, Quarantined;
    var scoped := Scope.Canonical(n.working, rules);
    NothingAside(n, scoped);
    WorkingAfter(n, scoped, node, now, bucket, n', r);
    SecondCommitIsNone(n, scoped, node, now, bucket, n', r, now', bucket', n'', r');
  }

  lemma NothingAside(n: Node, scoped: Files)
    requires Quarantined(ParentFor(n), n.materialized, scoped) == {}
    ensures Published(ParentFor(n), n.materialized, scoped) == scoped
  {
    hide Stale;
    forall p | p in scoped
      ensures !Stale(ParentFor(n), n.materialized, p)
    {
      assert p !in Quarantined(ParentFor(n), n.materialized, scoped);
    }
  }

  lemma WorkingAfter(n: Node, scoped: Files, node: NodeId, now: nat, bucket: string, n': Node, r: Result<Option<Oid>>)
    requires Committed(n, scoped, node, now, bucket, n', r)
    requires Quarantined(ParentFor(n), n.materialized, scoped) == {}
    ensures n'.working == n.working
  {
    hide Published, Undone, Authors, MainOf, Quarantined, Grown, FrontierOf, Foldable, Committed;
    var parent := ParentFor(n);
    var mid, c := TakenApart(n, scoped, node, now, bucket, n', r);
    SetAsideKeeps(n, Quarantined(parent, n.materialized, scoped), bucket, mid);
    assert n.working - {} == n.working;
  }

  /** Whatever is set aside on the way, a working set the disk record agrees with is not committed. */
  lemma NothingNew(n: Node, scoped: Files, node: NodeId, now: nat, bucket: string, n': Node, r: Result<Option<Oid>>)
    requires n.materialized == HashesOf(scoped)
    requires CommitResult(n, scoped, node, now, bucket, n', r)
    ensures r == Ok(None)
  {
    hide Undone, SetAside, Authors, Authored, Stale;
    if !n.bootstrapPending {
      var parent := ParentFor(n);
      var published := Published(parent, n.materialized, scoped);
      var stale := Quarantined(parent, n.materialized, scoped);
      var mid: Node :| SetAside(n, stale, bucket, mid)
        && if Unchanged(mid, published) then
             r == Ok(None) && Grown(n.objs, n'.objs) && n' == mid.(objs := n'.objs)
           else
             exists c :: Authors(c, node, n, published, Undone(parent, n.materialized, scoped), now) && Authored(mid, published, c, n', r);
      SetAsideKeeps(n, stale, bucket, mid);
      assert HashesOf(scoped) - stale == HashesOf(published);
    }
  }

  /** When no published path hides another and none is malformed, the second commit also sets
      nothing aside: every published path is visible in `main`. */
  lemma SecondCommitSetsNothingAside(n: Node, scoped: Files, node: NodeId, now: nat, bucket: string, n': Node, r: Result<Option<Oid>>)
    requires Current(n) && Committed(n, scoped, node, now, bucket, n', r)
    requires var published := Published(ParentFor(n), n.materialized, scoped);
      PrefixFree(published) && forall p :: p in published ==> CleanPath(p)
    ensures Quarantined(ParentFor(n'), n'.materialized, Published(ParentFor(n), n.materialized, scoped)) == {}
  {
    hide Published, PrefixFree, CleanPath, MainOf, FrontierOf, GhostAdd, Wrapper;
    var published := Published(ParentFor(n), n.materialized, scoped);
    AfterCommit(n, scoped, node, now, bucket, n', r);
    CommitMade(n, scoped, node, now, bucket, n', r);
    forall p | p in published
      ensures Undoes(ParentFor(n'), p) == None
    {
      WrittenIsVisible(published, p);
    }
  }

  lemma CommitMade(n: Node, scoped: Files, node: NodeId, now: nat, bucket: string, n': Node, r: Result<Option<Oid>>)
    requires Current(n) && Committed(n, scoped, node, now, bucket, n', r)
    ensures n'.main.Some? && TreeOf(n'.main.value) == TreeId(Published(ParentFor(n), n.materialized, scoped))
    ensures r.Ok? && r.value.Some?
    ensures var o := r.value.value;
      && IsPrimitive(o) && !GhostAdd(o) && KeyOf(o).node == node && KeyOf(o).counter == n.observed + 1
      && Parents(o) == [ParentFor(n)] && TreeOf(o) == TreeId(Published(ParentFor(n), n.materialized, scoped))
  {
    hide Published, Quarantined, Undone, SetAside, Authors, Authored, FrontierOf, GhostAdd, MainOf, Wrapper;
    var parent := ParentFor(n);
    var published := Published(parent, n.materialized, scoped);
    AfterCommit(n, scoped, node, now, bucket, n', r);
    var mid, c := TakenApart(n, scoped, node, now, bucket, n', r);
    CommitIsNoGhostAdd(c, node, n, scoped, now);
    AuthoredCommit(c, node, n, published, Undone(parent, n.materialized, scoped), now);
    KnownAfter(mid, published, c, n', r);
    WrapperCommit(Sha(Commit(c)));
  }

  /** The disk that was just committed needs nothing done to it: every published path reads
      back from `main`, so the plan is empty. */
  lemma NothingToDoAfterCommit(n: Node, scoped: Files, node: NodeId, now: nat, bucket: string, n': Node, r: Result<Option<Oid>>,
      n'': Node, ops: seq<MaterializeOp>)
    requires Current(n) && Committed(n, scoped, node, now, bucket, n', r)
    requires var published := Published(ParentFor(n), n.materialized, scoped);
      (forall p :: p in published ==> CleanPath(p)) && PlanResult(n', published, n'', ops)
    ensures ops == n'.quarantines && n''.materialized == n'.materialized
  {
    hide Published, CleanPath, MainOf, FrontierOf, GhostAdd, Wrapper, CommitResult, Plans, PlanResult, FilesAt;
    hide HashesOf, Recorded;
    var published := Published(ParentFor(n), n.materialized, scoped);
    AfterCommit(n, scoped, node, now, bucket, n', r);
    assert Clean(published) == published;
    PlanOf(n', published, n'', ops);
    PlanForWhatIsThere(ops[|n'.quarantines|..], n'.materialized, published);
    assert ops == ops[..|n'.quarantines|] + ops[|n'.quarantines|..];
  }

  lemma PlanOf(n: Node, onDisk: Files, n': Node, ops: seq<MaterializeOp>)
    requires n.main.Some? && PlanResult(n, onDisk, n', ops)
    ensures n.quarantines <= ops && Plans(ops[|n.quarantines|..], n.materialized, onDisk, FilesAt(n.main.value))
    ensures n'.materialized == Recorded(n.materialized, onDisk, FilesAt(n.main.value))
  {
    hide Plans;
  }

  /** A path a commit set aside and queued; afterwards, with the queue still waiting, `main` wants
      the file again, and the host stages the very bytes it wants. Materialising then takes the file
      away from the staged set, and records it as present. */
  lemma RequarantinedFileIsLost(n: Node, scoped: Files, node: NodeId, now: nat, bucket: string, n': Node, r: Result<Option<Oid>>,
      p: Path, later: Node, after: Node, ops: seq<MaterializeOp>)
    requires !n.bootstrapPending && CommitResult(n, scoped, node, now, bucket, n', r)
    requires p in Quarantined(ParentFor(n), n.materialized, scoped)
    requires (forall op :: op in n'.quarantines ==> op.Quarantine?) && later.quarantines == n'.quarantines
    requires later.main.Some? && State.At(FilesAt(later.main.value), p).Some? && State.At(later.working, p) == State.At(FilesAt(later.main.value), p)
    requires PlanResult(later, later.working, after, ops)
    ensures p !in ApplyOps(later.working, ops) && State.At(after.materialized, p) == Some(BlobHash(later.working[p]))
  {
    hide Quarantined, CommitResult, Plans, FilesAt, ApplyOps, Recorded, PlanResult;
    CommitQueues(n, scoped, node, now, bucket, n', r, p);
    PlanOf(later, later.working, after, ops);
    QueuedIsLost(later.quarantines, ops[|later.quarantines|..], later.materialized, later.working, FilesAt(later.main.value), p);
    assert ops == later.quarantines + ops[|later.quarantines|..];
  }

  /** The same of the queue and the plan alone. */
  lemma QueuedIsLost(queued: seq<MaterializeOp>, plan: seq<MaterializeOp>, materialized: Hashes, onDisk: map<Path, Bytes>,
      want: map<Path, Bytes>, p: Path)
    requires Plans(plan, materialized, onDisk, want) && p in PathsOf(queued) && forall op :: op in queued ==> op.Quarantine?
    requires State.At(want, p).Some? && State.At(onDisk, p) == State.At(want, p)
    ensures p !in ApplyOps(onDisk, queued + plan) && State.At(Recorded(materialized, onDisk, want), p) == Some(BlobHash(onDisk[p]))
  {
    hide Plans, ApplyOps, Recorded, PathsOf;
    QuarantinesAndPlan(queued, plan, materialized, onDisk, want);
    assert Restaged(queued, onDisk, want, p);
  }

  lemma CommitQueues(n: Node, scoped: Files, node: NodeId, now: nat, bucket: string, n': Node, r: Result<Option<Oid>>, p: Path)
    requires !n.bootstrapPending && CommitResult(n, scoped, node, now, bucket, n', r)
    requires p in Quarantined(ParentFor(n), n.materialized, scoped)
    ensures p in PathsOf(n'.quarantines)
  {
    hide Quarantined, Published, Undone, Authors, MainOf, FrontierOf, Foldable, Grown;
    var parent := ParentFor(n);
    var stale, published := Quarantined(parent, n.materialized, scoped), Published(parent, n.materialized, scoped);
    var mid: Node :| SetAside(n, stale, bucket, mid) &&
      if Unchanged(mid, published) then
        r == Ok(None) && Grown(n.objs, n'.objs) && n' == mid.(objs := n'.objs)
      else
        exists c :: Authors(c, node, n, published, Undone(parent, n.materialized, scoped), now) && Authored(mid, published, c, n', r);
    assert n'.quarantines == mid.quarantines;
    var op := QuarantineOp(bucket, p);
    assert op in mid.quarantines[|n.quarantines|..] && PathOf(op) == p;
  }

  lemma PlanForWhatIsThere(ops: seq<MaterializeOp>, materialized: Hashes, files: Files)
    requires Plans(ops, materialized, files, files) && materialized == HashesOf(files)
    ensures ops == [] && Recorded(materialized, files, files) == materialized
  {
    assert forall op :: op !in ops;
    FirstIsMember(ops);
  }
}
