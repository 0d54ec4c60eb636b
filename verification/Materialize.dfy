/** Putting `main` on disk without clobbering what the user wrote (engine.rs). */
module Materialize {
  import opened Prelude
  import opened Objects
  import opened State

  type Files = map<Path, Bytes>

  datatype MaterializeOp =
    | Write(path: Path, content: Bytes)
    | Remove(path: Path)
    | Defer(path: Path)
    | Quarantine(from: Path, to: Path)

  function PathOf(op: MaterializeOp): Path {
    match op
    case Quarantine(from, _) => from
    case _ => op.path
  }

  function PathsOf(ops: seq<MaterializeOp>): set<Path> {
    set op | op in ops :: PathOf(op)
  }

  lemma NoPaths()
    ensures PathsOf([]) == {}
  {
  }

  lemma OnePathMore(ops: seq<MaterializeOp>, i: nat)
    requires i < |ops|
    ensures PathsOf(ops[..i + 1]) == PathsOf(ops[..i]) + {PathOf(ops[i])}
  {
    assert ops[..i + 1] == ops[..i] + [ops[i]];
  }

  const ORPHANS_DIR := ".context/orphans"

  function QuarantineOp(bucket: string, p: Path): MaterializeOp {
    Quarantine(p, ORPHANS_DIR + "/" + bucket + "/" + p)
  }

  function BlobHash(content: Bytes): Oid {
    Sha(Blob(content))
  }

  function HashesOf(files: Files): Hashes {
    map p | p in files :: BlobHash(files[p])
  }

  // ---- The plan ----

  /** What to do at one path, from what is on disk, what was last put there, and what is wanted. */
  function Decide(p: Path, disk: Option<Bytes>, last: Option<Oid>, want: Option<Bytes>): Option<MaterializeOp> {
    match want
    case None =>
      if disk.Some? && last == Some(BlobHash(disk.value)) then Some(Remove(p)) else None
    case Some(content) =>
      if disk.None? then Some(Write(p, content))
      else if disk.value == content then None
      else if last != Some(BlobHash(disk.value)) then Some(Defer(p))
      else Some(Write(p, content))
  }

  function DecideAt(p: Path, materialized: Hashes, onDisk: Files, want: Files): Option<MaterializeOp> {
    Decide(p, At(onDisk, p), At(materialized, p), At(want, p))
  }

  /** `ops` is, in some order, exactly one operation per path among `paths` that needs one. */
  ghost predicate PlansOn(ops: seq<MaterializeOp>, paths: set<Path>, materialized: Hashes, onDisk: Files, want: Files) {
    && (forall op :: op in ops ==> PathOf(op) in paths && DecideAt(PathOf(op), materialized, onDisk, want) == Some(op))
    && (forall p :: p in paths && DecideAt(p, materialized, onDisk, want).Some? ==> DecideAt(p, materialized, onDisk, want).value in ops)
    && (forall i, j :: 0 <= i < j < |ops| ==> PathOf(ops[i]) != PathOf(ops[j]))
  }

  ghost predicate Plans(ops: seq<MaterializeOp>, materialized: Hashes, onDisk: Files, want: Files) {
    PlansOn(ops, materialized.Keys + want.Keys, materialized, onDisk, want)
  }

  /** A wanted path holds other bytes, and they are not what the engine last put there: they are the
      user's, and left alone. */
  predicate Deferred(p: Path, materialized: Hashes, onDisk: Files, want: Files) {
    p in want && p in onDisk && onDisk[p] != want[p] && At(materialized, p) != Some(BlobHash(onDisk[p]))
  }

  /** The record of what is on disk, once the plan is applied. */
  function Recorded(materialized: Hashes, onDisk: Files, want: Files): Hashes {
    map p | p in want && (Deferred(p, materialized, onDisk, want) ==> p in materialized) ::
      if Deferred(p, materialized, onDisk, want) then materialized[p] else BlobHash(want[p])
  }

  lemma PlansMore(ops: seq<MaterializeOp>, paths: set<Path>, p: Path, materialized: Hashes, onDisk: Files, want: Files)
    requires PlansOn(ops, paths, materialized, onDisk, want) && p !in paths
    ensures var d := DecideAt(p, materialized, onDisk, want);
      PlansOn(if d.Some? then ops + [d.value] else ops, paths + {p}, materialized, onDisk, want)
  {
  }

  method PlanFor(materialized: Hashes, onDisk: Files, want: Files) returns (ops: seq<MaterializeOp>, recorded: Hashes)
    ensures Plans(ops, materialized, onDisk, want)
    ensures recorded == Recorded(materialized, onDisk, want)
  {
    var gone: Hashes;
    ops, gone := PlanRemovals(materialized, onDisk, want);
    ops, recorded := PlanWrites(materialized, gone, onDisk, want, ops);
    assert (materialized.Keys - want.Keys) + want.Keys == materialized.Keys + want.Keys;
  }

  /** Paths no longer wanted are forgotten, and removed if the bytes are still ours. */
  method PlanRemovals(materialized: Hashes, onDisk: Files, want: Files) returns (ops: seq<MaterializeOp>, recorded: Hashes)
    ensures PlansOn(ops, materialized.Keys - want.Keys, materialized, onDisk, want)
    ensures recorded == map p | p in materialized && p in want :: materialized[p]
  {
    hide PlansOn, DecideAt;
    ops, recorded := [], materialized;
    ghost var done: set<Path> := {};
    NoPlan(materialized, onDisk, want);
    var todo := materialized.Keys;
    while todo != {}
      invariant todo <= materialized.Keys
      invariant done == materialized.Keys - want.Keys - todo
      invariant PlansOn(ops, done, materialized, onDisk, want)
      invariant recorded == map p | p in materialized && (p in want || p in todo) :: materialized[p]
    {
      var p := First(todo);
      todo := todo - {p};
      if p in want {
        continue;
      }
      PlansMore(ops, done, p, materialized, onDisk, want);
      DecideUnwanted(p, materialized, onDisk, want);
      if p in onDisk && BlobHash(onDisk[p]) == materialized[p] {
        ops := ops + [Remove(p)];
      }
      recorded := recorded - {p};
      done := done + {p};
    }
    assert done == materialized.Keys - want.Keys;
  }

  /** Wanted paths are written, unless they are there already or hold bytes that are not ours. */
  method PlanWrites(ghost materialized: Hashes, gone: Hashes, onDisk: Files, want: Files, removals: seq<MaterializeOp>)
    returns (ops: seq<MaterializeOp>, recorded: Hashes)
    requires gone == map p | p in materialized && p in want :: materialized[p]
    requires PlansOn(removals, materialized.Keys - want.Keys, materialized, onDisk, want)
    ensures PlansOn(ops, (materialized.Keys - want.Keys) + want.Keys, materialized, onDisk, want)
    ensures recorded == Recorded(materialized, onDisk, want)
  {
    hide PlansOn, DecideAt, Recorded;
    ops, recorded := removals, gone;
    ghost var done := materialized.Keys - want.Keys;
    RecordNothing(materialized, gone, onDisk, want);
    var todo := want.Keys;
    while todo != {}
      invariant todo <= want.Keys
      invariant done == (materialized.Keys - want.Keys) + (want.Keys - todo)
      invariant PlansOn(ops, done, materialized, onDisk, want)
      invariant RecordedSoFar(recorded, todo, materialized, onDisk, want)
    {
      var p := First(todo);
      PlansMore(ops, done, p, materialized, onDisk, want);
      DecideWanted(p, materialized, onDisk, want);
      RecordMore(recorded, todo, p, materialized, onDisk, want);
      var last := At(recorded, p);
      todo := todo - {p};
      done := done + {p};
      if p in onDisk {
        var contended := Some(BlobHash(onDisk[p])) != last;
        if contended && onDisk[p] != want[p] {
          ops := ops + [Defer(p)];
          continue;
        }
        if onDisk[p] == want[p] {
          recorded := recorded[p := BlobHash(want[p])];
          continue;
        }
      }
      ops := ops + [Write(p, want[p])];
      recorded := recorded[p := BlobHash(want[p])];
    }
    assert done == (materialized.Keys - want.Keys) + want.Keys;
    RecordAll(recorded, materialized, onDisk, want);
  }

  lemma NoPlan(materialized: Hashes, onDisk: Files, want: Files)
    ensures PlansOn([], {}, materialized, onDisk, want)
  {
  }

  lemma DecideUnwanted(p: Path, materialized: Hashes, onDisk: Files, want: Files)
    requires p in materialized && p !in want
    ensures DecideAt(p, materialized, onDisk, want) ==
      if p in onDisk && BlobHash(onDisk[p]) == materialized[p] then Some(Remove(p)) else None
  {
  }

  lemma DecideWanted(p: Path, materialized: Hashes, onDisk: Files, want: Files)
    requires p in want
    ensures DecideAt(p, materialized, onDisk, want) ==
      if p in onDisk && Some(BlobHash(onDisk[p])) != At(materialized, p) && onDisk[p] != want[p] then Some(Defer(p))
      else if p in onDisk && onDisk[p] == want[p] then None
      else Some(Write(p, want[p]))
  {
  }

  /** Wanted paths still in `todo` have their old record, the others their final one. */
  ghost predicate RecordedSoFar(recorded: Hashes, todo: set<Path>, materialized: Hashes, onDisk: Files, want: Files) {
    forall p :: At(recorded, p) ==
      if p !in want then None else if p in todo then At(materialized, p) else At(Recorded(materialized, onDisk, want), p)
  }

  lemma RecordNothing(materialized: Hashes, gone: Hashes, onDisk: Files, want: Files)
    requires gone == map p | p in materialized && p in want :: materialized[p]
    ensures RecordedSoFar(gone, want.Keys, materialized, onDisk, want)
  {
  }

  lemma RecordMore(recorded: Hashes, todo: set<Path>, p: Path, materialized: Hashes, onDisk: Files, want: Files)
    requires RecordedSoFar(recorded, todo, materialized, onDisk, want) && p in todo && p in want
    ensures At(recorded, p) == At(materialized, p)
    ensures RecordedSoFar(if Deferred(p, materialized, onDisk, want) then recorded else recorded[p := BlobHash(want[p])],
                          todo - {p}, materialized, onDisk, want)
    ensures Deferred(p, materialized, onDisk, want) <==> DecideAt(p, materialized, onDisk, want) == Some(Defer(p))
  {
  }

  lemma RecordAll(recorded: Hashes, materialized: Hashes, onDisk: Files, want: Files)
    requires RecordedSoFar(recorded, {}, materialized, onDisk, want)
    ensures recorded == Recorded(materialized, onDisk, want)
  {
    var r := Recorded(materialized, onDisk, want);
    forall p
      ensures At(recorded, p) == At(r, p)
    {
    }
    assert forall p :: p in recorded <==> At(recorded, p).Some?;
    assert forall p :: p in r <==> At(r, p).Some?;
  }

  // ---- Applying a plan ----

  /** One operation carried out by the host. */
  function ApplyOp(disk: Files, op: MaterializeOp): Files {
    match op
    case Write(p, content) => disk[p := content]
    case Remove(p) => disk - {p}
    case Defer(_) => disk
    case Quarantine(from, _) => disk - {from}
  }

  function ApplyOps(disk: Files, ops: seq<MaterializeOp>): Files {
    if ops == [] then disk else ApplyOp(ApplyOps(disk, ops[..|ops| - 1]), ops[|ops| - 1])
  }

  method ApplyAll(disk: Files, ops: seq<MaterializeOp>) returns (disk': Files)
    ensures disk' == ApplyOps(disk, ops)
  {
    disk' := disk;
    var i := 0;
    while i < |ops|
      invariant 0 <= i <= |ops|
      invariant disk' == ApplyOps(disk, ops[..i])
    {
      assert ops[..i + 1][..i] == ops[..i];
      match ops[i] {
        case Write(p, content) => disk' := disk'[p := content];
        case Remove(p) => disk' := disk' - {p};
        case Defer(_) =>
        case Quarantine(from, _) => disk' := disk' - {from};
      }
      i := i + 1;
    }
    assert ops[..i] == ops;
  }

  lemma {:induction false} ApplyElsewhere(disk: Files, ops: seq<MaterializeOp>, p: Path)
    requires forall op :: op in ops ==> PathOf(op) != p
    ensures At(ApplyOps(disk, ops), p) == At(disk, p)
  {
    if ops != [] {
      var n := |ops| - 1;
      assert ops[n] in ops && forall op :: op in ops[..n] ==> op in ops;
      ApplyElsewhere(disk, ops[..n], p);
    }
  }

  lemma {:induction false} ApplyAt(disk: Files, ops: seq<MaterializeOp>, op: MaterializeOp)
    requires op in ops && forall i, j :: 0 <= i < j < |ops| ==> PathOf(ops[i]) != PathOf(ops[j])
    ensures At(ApplyOps(disk, ops), PathOf(op)) == At(ApplyOp(disk, op), PathOf(op))
  {
    var n := |ops| - 1;
    if ops[n] == op {
      ApplyElsewhere(disk, ops[..n], PathOf(op));
    } else {
      var k :| 0 <= k < |ops| && ops[k] == op;
      assert op == ops[..n][k] && PathOf(ops[k]) != PathOf(ops[n]);
      ApplyAt(disk, ops[..n], op);
    }
  }

  lemma {:induction false} ApplyQuarantines(disk: Files, ops: seq<MaterializeOp>)
    requires forall op :: op in ops ==> op.Quarantine?
    ensures ApplyOps(disk, ops) == disk - PathsOf(ops)
  {
    if ops == [] {
      NoPaths();
    } else {
      var n := |ops| - 1;
      assert ops[n] in ops && forall op :: op in ops[..n] ==> op in ops;
      ApplyQuarantines(disk, ops[..n]);
      OnePathMore(ops, n);
      assert ops[..n + 1] == ops;
    }
  }

  lemma {:induction false} ApplySplits(disk: Files, a: seq<MaterializeOp>, b: seq<MaterializeOp>)
    ensures ApplyOps(disk, a + b) == ApplyOps(ApplyOps(disk, a), b)
  {
    if b == [] {
      assert a + b == a;
    } else {
      var n := |b| - 1;
      assert (a + b)[..|a + b| - 1] == a + b[..n];
      ApplySplits(disk, a, b[..n]);
    }
  }

  // ---- What a plan promises ----

  /** The record tells contents apart. */
  lemma HashesTell(files: Files, files': Files)
    ensures HashesOf(files) == HashesOf(files') <==> files == files'
    ensures forall a, b :: BlobHash(a) == BlobHash(b) <==> a == b
  {
    forall a, b | BlobHash(a) == BlobHash(b)
      ensures a == b
    {
      ShaInjective(Blob(a), Blob(b));
    }
    if HashesOf(files) == HashesOf(files') {
      forall p
        ensures p in files <==> p in files'
        ensures p in files ==> files[p] == files'[p]
      {
        assert p in HashesOf(files) <==> p in HashesOf(files');
        assert p in files ==> HashesOf(files)[p] == HashesOf(files')[p];
      }
    }
  }

  /** A planned write or removal only ever hits bytes the engine itself last put there, or none. */
  lemma NeverClobbers(ops: seq<MaterializeOp>, materialized: Hashes, onDisk: Files, want: Files, op: MaterializeOp)
    requires Plans(ops, materialized, onDisk, want) && op in ops && (op.Write? || op.Remove?)
    ensures op.path in onDisk ==> At(materialized, op.path) == Some(BlobHash(onDisk[op.path]))
  {
  }

  /** After the plan: what it wrote is on disk, what it deferred is untouched, and unwanted files
      it had put there are gone. */
  lemma PlanAt(ops: seq<MaterializeOp>, materialized: Hashes, onDisk: Files, want: Files, p: Path)
    requires Plans(ops, materialized, onDisk, want)
    ensures p in want ==>
      At(ApplyOps(onDisk, ops), p) == Some(if Deferred(p, materialized, onDisk, want) then onDisk[p] else want[p])
    ensures p !in want ==>
      At(ApplyOps(onDisk, ops), p) ==
      if p in onDisk && At(materialized, p) == Some(BlobHash(onDisk[p])) then None else At(onDisk, p)
  {
    var d := DecideAt(p, materialized, onDisk, want);
    if d.Some? {
      ApplyAt(onDisk, ops, d.value);
    } else {
      ApplyElsewhere(onDisk, ops, p);
    }
  }

  /** The record then covers wanted paths only, and says what is on disk at every path not deferred. */
  lemma RecordMatchesDisk(ops: seq<MaterializeOp>, materialized: Hashes, onDisk: Files, want: Files)
    requires Plans(ops, materialized, onDisk, want)
    ensures var recorded, disk := Recorded(materialized, onDisk, want), ApplyOps(onDisk, ops);
      && recorded.Keys <= want.Keys
      && forall p :: p in want && !Deferred(p, materialized, onDisk, want) ==>
           p in recorded && p in disk && disk[p] == want[p] && recorded[p] == BlobHash(disk[p])
  {
    forall p | p in want && !Deferred(p, materialized, onDisk, want)
      ensures At(ApplyOps(onDisk, ops), p) == Some(want[p])
    {
      PlanAt(ops, materialized, onDisk, want, p);
    }
  }

  /** Two plans in a row, with whatever the user does in between. A path that was brought to the first
      `main`, and not touched since, follows the second: its bytes, or its absence. One the user gave
      other bytes keeps them. */
  lemma FollowsMain(ops: seq<MaterializeOp>, materialized: Hashes, onDisk: Files, want: Files,
      edited: Files, ops': seq<MaterializeOp>, want': Files, p: Path)
    requires Plans(ops, materialized, onDisk, want) && p in want && !Deferred(p, materialized, onDisk, want)
    requires Plans(ops', Recorded(materialized, onDisk, want), edited, want')
    ensures At(edited, p) == At(ApplyOps(onDisk, ops), p) ==> At(ApplyOps(edited, ops'), p) == At(want', p)
    ensures p in edited && edited[p] != want[p] ==> At(ApplyOps(edited, ops'), p) == Some(edited[p])
  {
    hide Plans, ApplyOps;
    PlanAt(ops, materialized, onDisk, want, p);
    PlanAt(ops', Recorded(materialized, onDisk, want), edited, want', p);
    HashesTell(want, want);
  }

  /** A queued path that holds, right now, the very bytes `main` wants there: it is moved away, and
      the plan, made for the disk as it was, does not write it back. */
  predicate Restaged(queued: seq<MaterializeOp>, onDisk: Files, want: Files, p: Path) {
    p in PathsOf(queued) && p in want && At(onDisk, p) == Some(want[p])
  }

  /** With queued quarantines carried out first, every wanted path that is not deferred still ends
      up with its bytes on disk, and the record still says what is on disk there, both exactly when
      no path is restaged. At a restaged path there is nothing on disk, while the record says that
      the wanted bytes are. */
  lemma QuarantinesAndPlan(queued: seq<MaterializeOp>, ops: seq<MaterializeOp>, materialized: Hashes, onDisk: Files, want: Files)
    requires Plans(ops, materialized, onDisk, want) && forall op :: op in queued ==> op.Quarantine?
    ensures var disk, recorded := ApplyOps(onDisk, queued + ops), Recorded(materialized, onDisk, want);
      && ((forall p :: p in want && !Deferred(p, materialized, onDisk, want) ==> At(disk, p) == Some(want[p]))
           <==> forall p :: p in want ==> !Restaged(queued, onDisk, want, p))
      && ((forall p :: p in want && !Deferred(p, materialized, onDisk, want) ==>
             p in disk && At(recorded, p) == Some(BlobHash(disk[p])))
           <==> forall p :: p in want ==> !Restaged(queued, onDisk, want, p))
      && forall p :: Restaged(queued, onDisk, want, p) ==> p !in disk && At(recorded, p) == Some(BlobHash(want[p]))
  {
    hide PathsOf, Plans, ApplyOps;
    var disk := ApplyOps(onDisk, queued + ops);
    forall p | p in want && !Deferred(p, materialized, onDisk, want)
      ensures At(disk, p) == if Restaged(queued, onDisk, want, p) then None else Some(want[p])
      ensures At(Recorded(materialized, onDisk, want), p) == Some(BlobHash(want[p]))
    {
      QuarantinesAndPlanAt(queued, ops, materialized, onDisk, want, p);
    }
    forall p | Restaged(queued, onDisk, want, p)
      ensures !Deferred(p, materialized, onDisk, want)
    {
    }
  }

  lemma QuarantinesAndPlanAt(queued: seq<MaterializeOp>, ops: seq<MaterializeOp>, materialized: Hashes, onDisk: Files, want: Files, p: Path)
    requires Plans(ops, materialized, onDisk, want) && forall op :: op in queued ==> op.Quarantine?
    requires p in want && !Deferred(p, materialized, onDisk, want)
    ensures At(ApplyOps(onDisk, queued + ops), p) == if Restaged(queued, onDisk, want, p) then None else Some(want[p])
  {
    ApplySplits(onDisk, queued, ops);
    ApplyQuarantines(onDisk, queued);
    var moved := onDisk - PathsOf(queued);
    var d := DecideAt(p, materialized, onDisk, want);
    if d.Some? {
      ApplyAt(moved, ops, d.value);
    } else {
      ApplyElsewhere(moved, ops, p);
    }
  }

  /** The smallest case: one file, queued, restaged as `main` wants it. The plan does nothing more. */
  lemma RestagedIsLost(bucket: string, p: Path, content: Bytes)
    ensures var queued, files := [QuarantineOp(bucket, p)], map[p := content];
      && Plans([], map[], files, files) && p !in ApplyOps(files, queued + [])
      && Recorded(map[], files, files) == map[p := BlobHash(content)]
  {
    var queued, files := [QuarantineOp(bucket, p)], map[p := content];
    assert queued + [] == queued && queued[..0] == [];
    assert ApplyOps(files, queued) == files - {p};
  }
}
