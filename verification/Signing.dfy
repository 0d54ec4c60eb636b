/** Node signatures (identity.rs). Ed25519 is any scheme whose own signatures verify. */
module Signing {
  import opened Prelude
  import opened Objects

  /** What a node signs: a commit without its signature, or a handshake transcript. */
  datatype Payload = CommitPayload(commit: CommitObj) | TranscriptPayload(bytes: Bytes)

  datatype Scheme = Scheme(sign: (NodeId, Payload) -> seq<nat>, verify: (NodeId, Payload, seq<nat>) -> bool)

  ghost predicate Correct(s: Scheme) {
    forall node, payload :: s.verify(node, payload, s.sign(node, payload))
  }

  type SignatureScheme = s: Scheme | Correct(s)
    witness Scheme((node, payload) => [], (node, payload, signature) => true)

  const Ed25519: SignatureScheme

  function Sign(node: NodeId, payload: Payload): (signature: seq<nat>)
    ensures Ed25519.verify(node, payload, signature)
  {
    assert Correct(Ed25519);
    Ed25519.sign(node, payload)
  }

  function Unsigned(c: CommitObj): CommitObj
    requires Primitive(c)
  {
    c.(message := c.message.(signature := []))
  }

  /** The signature in the commit is its author's, over everything else in it. */
  predicate VerifyPrimitive(c: CommitObj) {
    Primitive(c) && Ed25519.verify(c.message.node, CommitPayload(Unsigned(c)), c.message.signature)
  }

  const EDIT_SUBJECT := "ctx edit"

  /** The signed primitive a node authors on `parent`. */
  function BuildPrimitive(node: NodeId, tree: Oid, parent: Oid, counter: nat, time: nat, readds: seq<Oid>): (c: CommitObj)
    ensures VerifyPrimitive(c)
  {
    var author := NodeAuthor(node);
    var unsigned := CommitObj(tree, [parent], author, time, author, time, Edit(EDIT_SUBJECT, counter, node, readds, []));
    var c := unsigned.(message := unsigned.message.(signature := Sign(node, CommitPayload(unsigned))));
    assert Unsigned(c) == unsigned;
    c
  }

  /** Every field of it: one parent, one author, one time, and the fixed subject. */
  lemma BuiltFields(node: NodeId, tree: Oid, parent: Oid, counter: nat, time: nat, readds: seq<Oid>)
    ensures var c := BuildPrimitive(node, tree, parent, counter, time, readds);
      && c == CommitObj(tree, [parent], NodeAuthor(node), time, NodeAuthor(node), time,
                        Edit("ctx edit", counter, node, readds, c.message.signature))
      && Ed25519.verify(node, CommitPayload(c.(message := c.message.(signature := []))), c.message.signature)
  {
    var c := BuildPrimitive(node, tree, parent, counter, time, readds);
    assert Unsigned(c) == c.(message := c.message.(signature := []));
  }
}
