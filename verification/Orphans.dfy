/** Where files set aside go (engine.rs): each to a place of its own, inside the engine's directory,
    which is never in scope. Moved there, none of them is lost. */
module Orphans {
  import opened Prelude
  import opened Objects
  import opened State
  import opened Materialize
  import opened Engine
  import opened CommitLaws
  import opened Text
  import opened Fold
  import Scope
  import Store

  function Destination(bucket: string, p: Path): Path {
    QuarantineOp(bucket, p).to
  }

  /** No two paths are moved to one place, not even in different buckets. */
  lemma DestinationsDiffer(bucket: string, p: Path, bucket': string, p': Path)
    requires '/' !in bucket && '/' !in bucket'
    ensures Destination(bucket, p) == Destination(bucket', p') ==> bucket == bucket' && p == p'
  {
    var d, d', n := Destination(bucket, p), Destination(bucket', p'), |ORPHANS_DIR| + 1;
    var t, t' := bucket + "/" + p, bucket' + "/" + p';
    assert d[n..] == t && d'[n..] == t';
    assert t[..|bucket|] == bucket && t'[..|bucket'|] == bucket';
    IndexIs(t, |bucket|, '/');
    IndexIs(t', |bucket'|, '/');
    assert t[|bucket| + 1..] == p && t'[|bucket'| + 1..] == p';
  }

  lemma SameBucketDiffers(bucket: string, p: Path, p': Path)
    ensures Destination(bucket, p) == Destination(bucket, p') ==> p == p'
  {
    var n := |ORPHANS_DIR + "/" + bucket + "/"|;
    assert Destination(bucket, p)[n..] == p && Destination(bucket, p')[n..] == p';
  }

  /** It is a place no rules ever bring into scope, and no path in scope lies there. */
  lemma DestinationIsOutOfScope(bucket: string, p: Path, rules: Scope.ScopeRules)
    ensures Scope.InContextDir(Destination(bucket, p)) && !Scope.PathInScope(rules, Destination(bucket, p))
  {
    var d := Destination(bucket, p);
    assert Scope.CONTEXT_DIR + "/" == ".context/" && d[..9] == ".context/";
  }

  // ---- Moving ----

  /** A queued operation as the host carries it out on its disk: the file moves. */
  function Move(disk: Files, op: MaterializeOp): Files
    requires op.Quarantine?
  {
    if op.from in disk then (disk - {op.from})[op.to := disk[op.from]] else disk
  }

  function MoveAll(disk: Files, ops: seq<MaterializeOp>): Files
    requires forall op :: op in ops ==> op.Quarantine?
  {
    if ops == [] then disk else Move(MoveAll(disk, ops[..|ops| - 1]), ops[|ops| - 1])
  }

  /** The operations that set `stale` aside, in any order. */
  ghost predicate Moves(ops: seq<MaterializeOp>, stale: set<Path>, bucket: string) {
    forall op :: op in ops <==> exists p :: p in stale && op == QuarantineOp(bucket, p)
  }

  /** Every path is where it was, or, if it is one of these and was there, at its destination. */
  ghost predicate MovedTo(disk: Files, after: Files, paths: set<Path>, bucket: string) {
    && (forall p :: p in disk && p in paths ==> At(after, Destination(bucket, p)) == Some(disk[p]))
    && (forall p :: p in paths ==> p !in after)
    && (forall q :: q !in paths && !Scope.InContextDir(q) ==> At(after, q) == At(disk, q))
  }

  lemma MovesOneMore(disk: Files, before: Files, paths: set<Path>, op: MaterializeOp, bucket: string)
    requires op.Quarantine? && op == QuarantineOp(bucket, op.from)
    requires MovedTo(disk, before, paths, bucket) && forall p :: p in paths + {op.from} ==> !Scope.InContextDir(p)
    ensures MovedTo(disk, Move(before, op), paths + {op.from}, bucket)
  {
    hide QuarantineOp, Scope.InContextDir;
    var after := Move(before, op);
    InsideContextDir(bucket, op.from);
    forall p | p in disk && p in paths + {op.from}
      ensures At(after, Destination(bucket, p)) == Some(disk[p])
    {
      SameBucketDiffers(bucket, p, op.from);
      InsideContextDir(bucket, p);
    }
  }

  lemma {:induction false} MovedSoFar(disk: Files, ops: seq<MaterializeOp>, bucket: string)
    requires forall op :: op in ops ==> op.Quarantine? && op == QuarantineOp(bucket, op.from) && !Scope.InContextDir(op.from)
    ensures MovedTo(disk, MoveAll(disk, ops), PathsOf(ops), bucket)
  {
    hide QuarantineOp, Scope.InContextDir, MovedTo, Destination, Move, PathsOf;
    if ops == [] {
      NoPaths();
      NothingMoved(disk, bucket);
    } else {
      var n := |ops| - 1;
      assert ops[n] in ops && forall x :: x in ops[..n] ==> x in ops;
      MovedSoFar(disk, ops[..n], bucket);
      OnePathMore(ops, n);
      assert ops[..n + 1] == ops;
      forall p | p in PathsOf(ops)
        ensures !Scope.InContextDir(p)
      {
        OutsideContextDir(ops, p);
      }
      MovesOneMore(disk, MoveAll(disk, ops[..n]), PathsOf(ops[..n]), ops[n], bucket);
    }
  }

  lemma NothingMoved(disk: Files, bucket: string)
    ensures MovedTo(disk, disk, {}, bucket)
  {
  }

  lemma InsideContextDir(bucket: string, p: Path)
    ensures Scope.InContextDir(Destination(bucket, p))
  {
    DestinationIsOutOfScope(bucket, p, Scope.ScopeRules([], [], false));
  }

  lemma OutsideContextDir(ops: seq<MaterializeOp>, p: Path)
    requires p in PathsOf(ops) && forall op :: op in ops ==> op.Quarantine? && !Scope.InContextDir(op.from)
    ensures !Scope.InContextDir(p)
  {
    hide Scope.InContextDir;
  }

  /** All files set aside are found afterwards, each with its own bytes, and the others are untouched. */
  lemma NothingIsLost(disk: Files, ops: seq<MaterializeOp>, stale: set<Path>, bucket: string)
    requires Moves(ops, stale, bucket) && forall p :: p in stale ==> !Scope.InContextDir(p)
    ensures (forall op :: op in ops ==> op.Quarantine?)
    ensures forall p :: p in stale && p in disk ==> At(MoveAll(disk, ops), Destination(bucket, p)) == Some(disk[p])
    ensures forall p :: p in stale ==> p !in MoveAll(disk, ops)
    ensures forall q :: q !in stale && !Scope.InContextDir(q) ==> At(MoveAll(disk, ops), q) == At(disk, q)
  {
    hide Scope.InContextDir;
    AsidePaths(ops, stale, bucket);
    MovedSoFar(disk, ops, bucket);
  }

  /** So a commit of in-scope files loses none: what it queues moves every stale file to safety. */
  lemma CommitLosesNothing(n: Node, scoped: Files, node: NodeId, now: nat, bucket: string, n': Node, r: Result<Option<Oid>>, disk: Files)
    requires !n.bootstrapPending && CommitResult(n, scoped, node, now, bucket, n', r)
    requires forall p :: p in scoped ==> !Scope.InContextDir(p)
    ensures n.quarantines <= n'.quarantines
    ensures var ops, stale := n'.quarantines[|n.quarantines|..], Quarantined(ParentFor(n), n.materialized, scoped);
      && (forall op :: op in ops ==> op.Quarantine?)
      && (forall p :: p in stale && p in disk ==> At(MoveAll(disk, ops), Destination(bucket, p)) == Some(disk[p]))
      && (forall q :: q !in stale && !Scope.InContextDir(q) ==> At(MoveAll(disk, ops), q) == At(disk, q))
  {
    hide Scope.InContextDir, Destination, MoveAll, QuarantineOp, Stale, CommitResult;
    var stale := Quarantined(ParentFor(n), n.materialized, scoped);
    CommitQueuesAll(n, scoped, node, now, bucket, n', r);
    NothingIsLost(disk, n'.quarantines[|n.quarantines|..], stale, bucket);
  }

  lemma CommitQueuesAll(n: Node, scoped: Files, node: NodeId, now: nat, bucket: string, n': Node, r: Result<Option<Oid>>)
    requires !n.bootstrapPending && CommitResult(n, scoped, node, now, bucket, n', r)
    ensures n.quarantines <= n'.quarantines
    ensures Moves(n'.quarantines[|n.quarantines|..], Quarantined(ParentFor(n), n.materialized, scoped), bucket)
  {
    hide Quarantined, Published, Undone, Authors, QuarantineOp, MainOf, FrontierOf, Foldable, Store.Grown, Unchanged, HashesOf;
    var parent := ParentFor(n);
    var stale, published := Quarantined(parent, n.materialized, scoped), Published(parent, n.materialized, scoped);
    var mid: Node :| SetAside(n, stale, bucket, mid) &&
      if Unchanged(mid, published) then
        r == Ok(None) && Store.Grown(n.objs, n'.objs) && n' == mid.(objs := n'.objs)
      else
        exists c :: Authors(c, node, n, published, Undone(parent, n.materialized, scoped), now) && Authored(mid, published, c, n', r);
    assert n'.quarantines == mid.quarantines;
  }

  /** What a host stages is committed only as far as it is in scope, so never from in there. */
  lemma StagedIsOutside(files: Files, rules: Scope.ScopeRules, p: Path)
    requires p in Scope.Canonical(files, rules)
    ensures p in files && Scope.PathInScope(rules, p) && !Scope.InContextDir(p)
  {
    hide Scope.Canonical, Scope.InContextDir;
    Scope.CanonicalHolds(files, rules, p);
    Scope.InScopeMeans(rules, p);
  }
}
