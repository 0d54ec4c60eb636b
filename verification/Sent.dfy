/** What exactly goes over the wire (engine.rs, session.rs): a closure and a push hold these objects and no
    others, each once and in the order of the ids, and go out in as few frames as fit. */
module Sent {
  import opened Prelude
  import opened Objects
  import opened Store
  import opened Dag
  import opened Reach
  import opened Engine
  import opened Delivery
  import opened Session
  import Chunks

  /** Exported objects are listed once each, and in ascending order of their ids. */
  lemma {:induction false} ExportedInOrder(s: set<Oid>) returns (ids: seq<Oid>)
    ensures Elements(ids) == s && |ids| == |RawsOf(s)|
    ensures forall i :: 0 <= i < |ids| ==> RawsOf(s)[i] == Preimage(ids[i])
    ensures forall i, j :: 0 <= i < j < |ids| ==> Less(ids[i], ids[j])
    decreases |s|
  {
    hide Less, Preimage;
    ids := [];
    if s != {} {
      var least := Least(s);
      var rest := ExportedInOrder(s - {least});
      ids := [least] + rest;
      LeastInFront(s, least, rest);
      assert RawsOf(s) == [Preimage(least)] + RawsOf(s - {least});
    }
  }

  lemma LeastInFront(s: set<Oid>, least: Oid, rest: seq<Oid>)
    requires IsLeast(least, s) && Elements(rest) == s - {least}
    requires forall i, j :: 0 <= i < j < |rest| ==> Less(rest[i], rest[j])
    ensures Elements([least] + rest) == s
    ensures var ids := [least] + rest; forall i, j :: 0 <= i < j < |ids| ==> Less(ids[i], ids[j])
  {
    hide Less;
    forall j | 0 <= j < |rest|
      ensures Less(least, rest[j])
    {
      assert rest[j] in Elements(rest);
    }
    assert forall x :: x in [least] + rest <==> x == least || x in Elements(rest);
  }

  /** A closure holds exactly the objects that some tip reaches. */
  lemma ClosureHolds(tips: seq<Oid>, obj: GitObject)
    ensures Some(obj) in ClosureOf(tips) <==> exists t :: t in tips && Sha(obj) in Reachable(t)
  {
    hide Reachable, RawsOf;
    RawsHas(ReachableFrom(Elements(tips)), Some(obj));
    PreimageOfSha(obj);
    assert forall o :: Preimage(o) == Some(obj) ==> o == Sha(obj);
  }

  /** A push starts with the commit, and otherwise holds exactly what the commit's tree reaches and its
      parent's does not. */
  lemma PushHolds(o: Oid, obj: GitObject)
    ensures PushOf(o) != [] && PushOf(o)[0] == Preimage(o)
    ensures Some(obj) in PushOf(o)[1..] <==>
      Sha(obj) in Reachable(TreeOf(o)) && (Parents(o) != [] ==> Sha(obj) !in Reachable(TreeOf(Parents(o)[0])))
  {
    hide Reachable, RawsOf;
    RawsHas(NewUnder(o), Some(obj));
    PreimageOfSha(obj);
    assert forall x :: Preimage(x) == Some(obj) ==> x == Sha(obj);
    assert PushOf(o)[1..] == RawsOf(NewUnder(o));
  }

  /** No way of cutting the payload into pieces of at most 256 KiB, or of one object, in order, has fewer
      of them than it has frames. */
  lemma FramesAreFew(packing: seq<Batch>)
    requires packing != [] && forall c :: c in packing ==> |c| <= 1 || Chunks.Total(c, RawSize) <= 262144
    ensures |Frames(Chunks.Concat(packing))| <= |packing|
  {
    hide Chunks.Chunked, Chunks.Concat;
    Chunks.FewestChunks(packing, RawSize, CATCHUP_CHUNK_BYTES);
  }
}
