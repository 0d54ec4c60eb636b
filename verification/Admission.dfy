/** What a node lets in (engine.rs, identity.rs, fold.rs): a commit only with its author's signature over
    all of it, and a fold only if it is the fold of its own parents. What is tampered with stays out. */
module Admission {
  import opened Prelude
  import opened Objects
  import opened Store
  import opened Dag
  import opened GhostAdds
  import opened Fold
  import opened FoldLaws
  import opened Signing
  import opened Engine
  import opened Partial
  import TreeCodec
  import Merge
  import Session
  import SessionLaws

  // ---- What a signature covers ----

  /** The commit a signed payload and a signature make together: every other field is in the payload. */
  function Assembled(unsigned: CommitObj, signature: seq<nat>): CommitObj
    requires Primitive(unsigned)
  {
    unsigned.(message := unsigned.message.(signature := signature))
  }

  /** Its author's signature over all of it: the commit is what payload and signature make together. */
  ghost predicate SignedByAuthor(c: CommitObj) {
    Primitive(c) && exists unsigned: CommitObj ::
      && Primitive(unsigned) && unsigned.message.signature == [] && c == Assembled(unsigned, c.message.signature)
      && Ed25519.verify(unsigned.message.node, CommitPayload(unsigned), c.message.signature)
  }

  lemma Reassembles(c: CommitObj)
    requires Primitive(c)
    ensures c == Assembled(Unsigned(c), c.message.signature)
    ensures forall unsigned: CommitObj :: Primitive(unsigned) && unsigned.message.signature == [] && c == Assembled(unsigned, c.message.signature) ==>
      unsigned == Unsigned(c)
  {
  }

  /** A batch's object can make something known exactly if it is a commit with its author's signature over it. */
  lemma AdmissibleIff(raw: Option<GitObject>)
    ensures Admissible(raw) <==> raw.Some? && raw.value.Commit? && SignedByAuthor(raw.value.commit)
  {
    if raw.Some? && raw.value.Commit? && Primitive(raw.value.commit) {
      var c := raw.value.commit;
      Reassembles(c);
      assert Unsigned(c).message.signature == [] && Unsigned(c).message.node == c.message.node;
    }
  }

  /** Equal signed payloads and equal signatures mean equal commits. */
  lemma PayloadDetermines(c: CommitObj, c': CommitObj)
    requires Primitive(c) && Primitive(c') && c.message.signature == c'.message.signature
    requires CommitPayload(Unsigned(c)) == CommitPayload(Unsigned(c'))
    ensures c == c'
  {
    hide Unsigned;
    Reassembles(c);
    Reassembles(c');
    assert CommitPayload(Unsigned(c)).commit == CommitPayload(Unsigned(c')).commit;
  }

  /** A commit becomes known only if it was so already, or came with its author's signature over it. */
  lemma AdmittedIsSigned(known: seq<Oid>, raws: Batch, o: Oid)
    requires o in Admit(known, raws) && o !in known
    ensures CommitAt(o).Some? && Some(Commit(CommitAt(o).value)) in raws && SignedByAuthor(CommitAt(o).value)
  {
    hide Admit;
    AdmitOnlyAdds(known, raws);
    var r :| r in raws && Admissible(r) && o == Sha(r.value);
    var c := r.value.commit;
    PreimageOfSha(r.value);
    AdmissibleIff(r);
  }

  /** A signature is good for one signer and one text only. */
  ghost predicate Unforgeable(s: Scheme) {
    forall node, payload, node', payload', signature ::
      s.verify(node, payload, signature) && s.verify(node', payload', signature) ==> node == node' && payload == payload'
  }

  /** Then no field of a signed commit can be changed: with another author, tree, parent, counter, time
      or list of undone deletes under the old signature, it is not admitted. */
  lemma TamperedIsNotAdmitted(c: CommitObj, c': CommitObj, known: seq<Oid>, raws: Batch)
    requires Unforgeable(Ed25519) && Admissible(Some(Commit(c)))
    requires Primitive(c') && c'.message.signature == c.message.signature && c' != c
    ensures !Admissible(Some(Commit(c')))
    ensures Sha(Commit(c')) in Admit(known, raws) ==> Sha(Commit(c')) in known
  {
    hide Admit, Unsigned;
    if Admissible(Some(Commit(c'))) {
      PayloadDetermines(c, c');
      assert false;
    }
    NotAdmitted(c', known, raws);
  }

  lemma NotAdmitted(c: CommitObj, known: seq<Oid>, raws: Batch)
    requires !Admissible(Some(Commit(c)))
    ensures Sha(Commit(c)) in Admit(known, raws) ==> Sha(Commit(c)) in known
  {
    hide Admit, VerifyPrimitive;
    var o := Sha(Commit(c));
    AdmitOnlyAdds(known, raws);
    forall r | r in raws && Admissible(r)
      ensures Sha(r.value) != o
    {
      if Sha(r.value) == o {
        ShaInjective(r.value, Commit(c));
      }
    }
  }

  /** Whatever comes with it and whatever is missing, a commit without a good signature does not become
      known. */
  lemma UnsignedStaysOut(order: EntryOrder, memo: Memo, n: Node, raws: Batch, n': Node, r: Result<nat>, c: CommitObj)
    requires IntegratePartly(order, memo, n, raws, n', r) && Primitive(c) && !SignedByAuthor(c)
    ensures Sha(Commit(c)) in n'.known ==> Sha(Commit(c)) in n.known
  {
    hide PutAll, ObserveAll, Spoiled, Refusable, Grown, Admit, AllDecode, FoldsOver;
    var o := Sha(Commit(c));
    if o in Admit(n.known, raws) && o !in n.known {
      PreimageOfSha(Commit(c));
      AdmittedIsSigned(n.known, raws, o);
    }
  }

  /** The same of proofs: one made for another text, by another key, or a commit's signature, is refused. */
  lemma ProofIsForThisText(msg: Session.Msg, key: Session.SshKey, script: Bytes, key': Session.SshKey, script': Bytes)
    requires Unforgeable(Ed25519) && SessionLaws.Proves(msg, key, script) && (key', script') != (key, script)
    ensures !SessionLaws.Proves(msg, key', script')
  {
  }

  lemma CommitIsNoProof(c: CommitObj, key: Session.SshKey, script: Bytes)
    requires Unforgeable(Ed25519) && VerifyPrimitive(c)
    ensures !SessionLaws.Proves(Session.AuthProof(c.message.signature), key, script)
  {
  }

  function IdealSign(node: NodeId, payload: Payload): seq<nat> {
    match payload
    case CommitPayload(c) => [0] + Field(node, Encode(Commit(c)))
    case TranscriptPayload(bytes) => [1] + Field(node, bytes)
  }

  function IdealVerify(node: NodeId, payload: Payload, signature: seq<nat>): bool {
    signature == IdealSign(node, payload)
  }

  /** There are schemes of that kind. */
  lemma SomeSchemeIsUnforgeable()
    ensures Correct(Scheme(IdealSign, IdealVerify)) && Unforgeable(Scheme(IdealSign, IdealVerify))
  {
    forall node, payload, node', payload' | IdealSign(node, payload) == IdealSign(node', payload')
      ensures node == node' && payload == payload'
    {
      IdealSignsOne(node, payload, node', payload');
    }
  }

  lemma IdealSignsOne(node: NodeId, payload: Payload, node': NodeId, payload': Payload)
    requires IdealSign(node, payload) == IdealSign(node', payload')
    ensures node == node' && payload == payload'
  {
    hide Field, Encode;
    var x := Field(node, if payload.CommitPayload? then Encode(Commit(payload.commit)) else payload.bytes);
    var y := Field(node', if payload'.CommitPayload? then Encode(Commit(payload'.commit)) else payload'.bytes);
    HeadSplits(if payload.CommitPayload? then 0 else 1, x, if payload'.CommitPayload? then 0 else 1, y);
    if payload.CommitPayload? {
      FieldSplits(node, Encode(Commit(payload.commit)), node', Encode(Commit(payload'.commit)));
      EncodeInjective(Commit(payload.commit), Commit(payload'.commit));
    } else {
      FieldSplits(node, payload.bytes, node', payload'.bytes);
    }
  }

  // ---- What a fold must be ----

  /** The time of a fold is that of its latest parent. */
  lemma {:induction false} MaxTimeIsLatest(ps: seq<Oid>)
    ensures forall p :: p in ps ==> TimeOf(p) <= MaxTime(ps)
    ensures if ps == [] then MaxTime(ps) == 0 else exists p :: p in ps && TimeOf(p) == MaxTime(ps)
  {
    hide TimeOf;
    if ps != [] {
      var k := |ps| - 1;
      assert ps == ps[..k] + [ps[k]];
      MaxTimeIsLatest(ps[..k]);
      if MaxTime(ps) != TimeOf(ps[k]) {
        assert ps[..k] != [];
        var p :| p in ps[..k] && TimeOf(p) == MaxTime(ps[..k]);
        assert p in ps;
      } else {
        assert ps[k] in ps;
      }
    }
  }

  /** Every field of a fold commit: nothing in it is its maker's choice. */
  lemma FoldFields(tree: Oid, parents: seq<Oid>)
    ensures var t := MaxTime(parents);
      CommitAt(Sha(FoldCommit(tree, parents))) == Some(CommitObj(tree, parents, FoldAuthor, t, FoldAuthor, t, Text("csp: fold\n")))
    ensures CommitAt(M0()) == Some(CommitObj(Sha(Tree(map[], map[])), [], FoldAuthor, 0, FoldAuthor, 0, Text("csp: genesis\n")))
  {
    PreimageOfSha(FoldCommit(tree, parents));
    PreimageOfSha(Genesis());
  }

  /** A valid fold has at most two parents, all of them valid. Without any it is the root; over one it
      has that one's tree; over two, which must have a common ancestor, it has the files of the merge
      over their merge base. */
  lemma ValidFoldIs(o: Oid)
    requires FoldValid(o) && !IsPrimitive(o)
    ensures forall p :: p in Parents(o) ==> FoldValid(p)
    ensures |Parents(o)| <= 2 && (Parents(o) == [] ==> o == M0())
    ensures |Parents(o)| == 1 ==> TreeOf(o) == TreeOf(Parents(o)[0])
    ensures |Parents(o)| == 2 ==>
      var a, b := Parents(o)[0], Parents(o)[1];
      Common(a, b) != {} && FilesAt(o) == TreeCodec.Clean(Merge.MergedTrees(FilesAt(MergeBase(a, b)), FilesAt(a), FilesAt(b)))
  {
    hide MergeStep, Wrapper, M0, Common, Merge.MergedTrees, TreeCodec.Clean, IsPrimitive;
    assert o in Spine(o) && Reproduces(o);
    SpineOfParents(o);
    if |Parents(o)| == 1 {
      WrapperCommit(Parents(o)[0]);
    } else if |Parents(o)| == 2 {
      StepCommit(Parents(o)[0], Parents(o)[1]);
      TreeCodec.ReadBack(StepFiles(Parents(o)[0], Parents(o)[1]));
    }
  }

  /** Its parents determine it. */
  lemma ValidFoldsAreOne(o: Oid, o': Oid)
    requires FoldValid(o) && FoldValid(o') && !IsPrimitive(o) && !IsPrimitive(o') && Parents(o) == Parents(o')
    ensures o == o'
  {
    hide MergeStep, Wrapper, M0, Common, IsPrimitive;
    assert o in Spine(o) && Reproduces(o) && o' in Spine(o') && Reproduces(o');
  }

  /** So a fold that differs from the right one in any field but its parents is not valid, and a batch
      that has it changes nothing but the store, whatever else it has. */
  lemma TamperedFoldSpoils(order: EntryOrder, memo: Memo, n: Node, raws: Batch, n': Node, r: Result<nat>, c: CommitObj, c': CommitObj)
    requires IntegratePartly(order, memo, n, raws, n', r) && AllDecode(raws) && Some(Commit(c')) in raws
    requires FoldValid(Sha(Commit(c))) && !Primitive(c) && !Primitive(c') && c'.parents == c.parents && c' != c
    ensures !FoldValid(Sha(Commit(c')))
    ensures n' == n.(objs := n'.objs) && r == Ok(0)
  {
    hide PutAll, Refusable, Grown, AllDecode, AdmitsPartly, FoldValid;
    PreimageOfSha(Commit(c));
    PreimageOfSha(Commit(c'));
    if FoldValid(Sha(Commit(c'))) {
      ValidFoldsAreOne(Sha(Commit(c)), Sha(Commit(c')));
      ShaInjective(Commit(c), Commit(c'));
      assert false;
    }
    assert Spoiled(raws);
  }

  // ---- What is observed ----

  /** The clock is at the greatest counter admitted, or where it was. */
  lemma {:induction false} ObservedIsAttained(observed: nat, raws: Batch)
    ensures var after := ObserveAll(observed, raws);
      after == observed || exists r :: r in raws && Admissible(r) && r.value.commit.message.counter == after
  {
    if raws != [] {
      var k := |raws| - 1;
      assert raws == raws[..k] + [raws[k]];
      ObservedIsAttained(observed, raws[..k]);
      var before := ObserveAll(observed, raws[..k]);
      if before != observed && ObserveAll(observed, raws) == before {
        var r :| r in raws[..k] && Admissible(r) && r.value.commit.message.counter == before;
        assert r in raws;
      }
    }
  }
}
