/** What any message at all can do to a session, on any node (session.rs); what an established session
    knows of its peer, after any messages whatever; and when a batch is passed on. */
module SessionLaws {
  import opened Prelude
  import opened Objects
  import opened Order
  import opened GhostAdds
  import opened Fold
  import opened Signing
  import opened Store
  import opened Engine
  import opened Partial
  import opened Session
  import Chunks

  // ---- The transcript ----

  /** What is signed starts with the protocol's own words, and both nonces and the binding can be read
      back from it, given how long the nonces are. */
  lemma TranscriptReads(c: Bytes, s: Bytes, b: Bytes, c': Bytes, s': Bytes, b': Bytes)
    ensures forall i :: 0 <= i < 11 ==> |Transcript(c, s, b)| > i && Transcript(c, s, b)[i] == "csp-auth-v1"[i] as nat
    ensures |c| == |c'| && |s| == |s'| && Transcript(c, s, b) == Transcript(c', s', b') ==> c == c' && s == s' && b == b'
  {
    var t, t' := Transcript(c, s, b), Transcript(c', s', b');
    if |c| == |c'| && |s| == |s'| && t == t' {
      var n, m := |AUTH_CTX|, |AUTH_CTX| + |c|;
      assert c == t[n..m] == t'[n..m] == c';
      assert s == t[m..m + |s|] == t'[m..m + |s|] == s';
      assert b == t[m + |s|..] == t'[m + |s|..] == b';
    }
  }

  /** What a session signs and checks after a greeting. */
  function ScriptFor(s: Link, hello: Msg): Bytes
    requires hello.Hello?
  {
    if s.role.Connector? then Transcript(s.myNonce, hello.nonce, hello.cb) else Transcript(hello.nonce, s.myNonce, s.channelBinding)
  }

  /** Whatever the peers say, sessions of one side that differ in their own nonce sign and check
      different texts, so no proof made for one is good for the other. */
  lemma OwnNonceIsSigned(s: Link, hello: Msg, t: Link, hello': Msg)
    requires hello.Hello? && hello'.Hello? && s.role == t.role && s.channelBinding == t.channelBinding
    requires |s.myNonce| == |t.myNonce| && s.myNonce != t.myNonce
    ensures ScriptFor(s, hello) != ScriptFor(t, hello')
  {
    var x, y, n := ScriptFor(s, hello), ScriptFor(t, hello'), |s.myNonce|;
    if s.role.Connector? {
      assert s.myNonce == x[|AUTH_CTX|..][..n] && t.myNonce == y[|AUTH_CTX|..][..n];
    } else {
      var k := n + |s.channelBinding|;
      assert s.myNonce == x[|x| - k..][..n] && t.myNonce == y[|y| - k..][..n];
    }
  }

  // ---- The greeting ----

  /** A greeting of this protocol and this vault, and for a connector one whose binding is switched off
      (all zero), or cannot be compared, or is the one observed. */
  predicate Acceptable(p: Profile, s: Link, msg: Msg) {
    && msg.Hello? && msg.proto == 5 && msg.vaultId == p.vaultId
    && (s.role.Connector? ==> msg.cb == s.channelBinding || s.channelBinding == [] || forall b | b in msg.cb :: b == 0)
  }

  /** A session gets past the greeting exactly by an acceptable one. It then holds the key it was given
      and the text to be signed, and sends its own signature over that text. Anything else is refused
      and changes nothing. */
  lemma GreetingIff(order: EntryOrder, memo: Memo, p: Profile, s: Link, n: Node, msg: Msg, s': Link, n': Node, r: Result<Step>)
    requires s.phase.AwaitHello? && HandlesPartly(order, memo, p, s, n, msg, s', n', r)
    ensures n' == n && (r.Ok? <==> Acceptable(p, s, msg))
    ensures r.Ok? ==> s' == s.(phase := AwaitAuth(ScriptFor(s, msg), msg.nodeSsh))
    ensures r.Ok? ==> exists sig :: r == Ok(Step([AuthProof(sig)], [], 0)) && Ed25519.verify(p.node, TranscriptPayload(ScriptFor(s, msg)), sig)
    ensures r.Err? ==> s' == s
    ensures r.Err? ==> r.error == if msg.Hello? && msg.proto == 5 && msg.vaultId == p.vaultId then ChannelBinding else Protocol
  {
    hide Transcript;
    if r.Ok? {
      var sig := Sign(p.node, TranscriptPayload(ScriptFor(s, msg)));
      assert r == Ok(Step([AuthProof(sig)], [], 0));
    }
  }

  // ---- The proof ----

  /** `msg` is a signature over `script` by the owner of `key`. */
  ghost predicate Proves(msg: Msg, key: SshKey, script: Bytes) {
    key.Key? && msg.AuthProof? && Ed25519.verify(key.node, TranscriptPayload(script), msg.sig)
  }

  /** A session becomes established exactly by a proof for the key it was given over the text it holds,
      by a peer that a listener lets in, on a node that can tell its frontier. That key is then its
      peer's, and the frontier is what it says. Anything else is refused and changes nothing. */
  lemma ProofIff(order: EntryOrder, memo: Memo, p: Profile, s: Link, n: Node, msg: Msg, s': Link, n': Node, r: Result<Step>)
    requires s.phase.AwaitAuth? && HandlesPartly(order, memo, p, s, n, msg, s', n', r)
    ensures n' == n
    ensures r.Ok? <==>
      && Proves(msg, s.phase.peerSsh, s.phase.script)
      && (s.role.Listener? ==> p.admits(s.phase.peerSsh, s.enrollmentAuthorized))
      && !Cut(order, n.objs, memo, Elements(n.known))
    ensures r.Ok? ==> s' == s.(phase := Established, peerSsh := Some(s.phase.peerSsh))
    ensures r.Ok? ==> r == Ok(Step([FrontierDigest(Tips(FrontierOn(order, n.objs, memo, Elements(n.known))))], [], 0))
    ensures r.Err? ==> s' == s
    ensures !msg.AuthProof? ==> r == Err(Protocol)
    ensures msg.AuthProof? && !Proves(msg, s.phase.peerSsh, s.phase.script) ==> r == Err(BadSignature)
    ensures Proves(msg, s.phase.peerSsh, s.phase.script) && s.role.Listener? && !p.admits(s.phase.peerSsh, s.enrollmentAuthorized) ==>
      r == Err(Unauthorized)
  {
    hide Cut, FrontierOn;
  }

  // ---- Afterwards ----

  /** An established session stays so, with the same peer. A greeting or a proof is then out of place. */
  lemma StaysEstablished(order: EntryOrder, memo: Memo, p: Profile, s: Link, n: Node, msg: Msg, s': Link, n': Node, r: Result<Step>)
    requires s.phase.Established? && HandlesPartly(order, memo, p, s, n, msg, s', n', r)
    ensures s' == s.(pendingBatch := s'.pendingBatch)
    ensures msg.Hello? || msg.AuthProof? ==> r == Err(Protocol) && s' == s && n' == n
    ensures msg.Ping? ==> r == Ok(Step([Pong], [], 0)) && s' == s && n' == n
    ensures msg.Pong? ==> r == Ok(Step([], [], 0)) && s' == s && n' == n
    ensures msg.ObjectsBatch? ==> s'.pendingBatch == if msg.isLast then [] else s.pendingBatch + msg.raws
    ensures !msg.ObjectsBatch? ==> s'.pendingBatch == s.pendingBatch
  {
    hide IntegratesPartly;
  }

  /** What a batch makes of the session's output and of the bootstrap mark: it is passed on whole if
      something in it was new, and not at all otherwise; and the end of a catch-up, but no live push,
      clears the mark. */
  lemma BatchHeard(order: EntryOrder, memo: Memo, p: Profile, s: Link, n: Node, msg: Msg, s': Link, n': Node, r: Result<Step>)
    requires s.phase.Established? && HandlesPartly(order, memo, p, s, n, msg, s', n', r)
    requires msg.Objects? || msg.Live? || (msg.ObjectsBatch? && msg.isLast)
    ensures r.Ok? ==> n.known <= n'.known && r.value.out == [] && r.value.integrated == |n'.known| - |n.known|
    ensures r.Ok? ==> r.value.relay == if n'.known == n.known then [] else (if msg.ObjectsBatch? then s.pendingBatch + msg.raws else msg.raws)
    ensures n'.bootstrapPending <==> n.bootstrapPending && (msg.Live? || r.Err?)
  {
    hide IntegratePartly, Replies;
    var raws := Integrated(s, msg);
    var mid, ir :| IntegratePartly(order, memo, n, raws, mid, ir)
      && match ir
         case Ok(admitted) =>
           && n' == (if !msg.Live? then mid.(bootstrapPending := false) else mid)
           && r == Ok(Step([], if admitted > 0 then raws else [], admitted))
         case Err(e) => n' == mid && r == Err(e);
    CountsNew(order, memo, n, raws, mid, ir);
  }

  lemma CountsNew(order: EntryOrder, memo: Memo, n: Node, raws: Batch, n': Node, r: Result<nat>)
    requires IntegratePartly(order, memo, n, raws, n', r)
    ensures n'.bootstrapPending == n.bootstrapPending
    ensures r.Ok? ==> n.known <= n'.known && r.value == |n'.known| - |n.known| && (r.value == 0 <==> n'.known == n.known)
  {
    hide Spoiled, Refusable, Grown, PutAll, ObserveAll, Admit, AllDecode, FoldsOver;
    AdmitOnlyAdds(n.known, raws);
    SamePrefix(n.known, Admit(n.known, raws));
  }

  lemma SamePrefix(a: seq<Oid>, b: seq<Oid>)
    requires a <= b
    ensures |a| == |b| <==> a == b
  {
    assert b[..|a|] == a;
  }

  lemma KnowsNothingNew(order: EntryOrder, memo: Memo, n: Node, raws: Batch, n': Node, r: Result<nat>)
    requires IntegratePartly(order, memo, n, raws, n', r)
    requires forall raw :: raw in raws && Admissible(raw) ==> Sha(raw.value) in n.known
    ensures n'.known == n.known && n'.main == n.main
  {
    hide Spoiled, Refusable, Grown, PutAll, ObserveAll, Admit, AllDecode, FoldsOver, Admissible;
    NothingToAdmit(n.known, raws);
  }

  /** Passing batches on comes to an end: what a node has heard before, it does not pass on again. */
  lemma RelayedOnce(order: EntryOrder, memo: Memo, p: Profile, s: Link, n: Node, msg: Msg, s': Link, n': Node, r: Result<Step>)
    requires s.phase.Established? && HandlesPartly(order, memo, p, s, n, msg, s', n', r)
    requires msg.Objects? || msg.Live? || (msg.ObjectsBatch? && msg.isLast)
    requires forall raw :: raw in Integrated(s, msg) && Admissible(raw) ==> Sha(raw.value) in n.known
    ensures r.Ok? ==> r == Ok(Step([], [], 0))
    ensures n'.known == n.known && n'.main == n.main
  {
    hide IntegratePartly, Admissible, Replies;
    var raws := Integrated(s, msg);
    var mid, ir :| IntegratePartly(order, memo, n, raws, mid, ir) && n'.known == mid.known && n'.main == mid.main;
    KnowsNothingNew(order, memo, n, raws, mid, ir);
    BatchHeard(order, memo, p, s, n, msg, s', n', r);
  }

  /** Asked for are exactly the advertised tips that parse and are not both held and known. */
  lemma {:induction false} WantedIff(tips: seq<Tip>, n: Node, t: Tip)
    ensures t in Wanted(tips, n) <==> t in tips && t.Some? && !(t.value in n.objs && t.value in n.known)
  {
    if tips != [] {
      var k := |tips| - 1;
      assert tips == tips[..k] + [tips[k]];
      WantedIff(tips[..k], n, t);
    }
  }

  /** No frame of an answer is larger than 256 KiB, unless a single object is. */
  lemma FramesAreSmall(raws: Batch)
    ensures forall m :: m in Frames(raws) ==> m.ObjectsBatch? && (|m.raws| <= 1 || Chunks.Total(m.raws, RawSize) <= 262144)
  {
    hide Chunks.Chunked, Chunks.Total;
    Chunks.ChunksAreExact(raws, RawSize, CATCHUP_CHUNK_BYTES);
    var frames := Frames(raws);
    forall m | m in frames
      ensures m.ObjectsBatch? && (|m.raws| <= 1 || Chunks.Total(m.raws, RawSize) <= 262144)
    {
      var i :| 0 <= i < |frames| && frames[i] == m;
      var chunks := Chunks.Chunked(raws, RawSize, CATCHUP_CHUNK_BYTES);
      assert chunks != [] ==> m.raws == chunks[i] && Chunks.Fits(chunks[i], RawSize, CATCHUP_CHUNK_BYTES);
    }
  }

  // ---- A whole session, whatever the peer sends ----

  /** One side of a session: the messages it heard in turn, on a node that may be anything at each. */
  datatype Trace = Trace(order: EntryOrder, memos: seq<Memo>, links: seq<Link>, nodes: seq<Node>, after: seq<Node>,
    heard: seq<Msg>, results: seq<Result<Step>>)

  ghost predicate IsTrace(p: Profile, t: Trace) {
    var k := |t.heard|;
    && |t.memos| == k && |t.links| == k + 1 && |t.nodes| == k && |t.after| == k && |t.results| == k
    && t.links[0].phase.AwaitHello? && t.links[0].peerSsh == None
    && forall i :: 0 <= i < k ==> StepOf(p, t, i)
  }

  ghost predicate StepOf(p: Profile, t: Trace, i: nat)
    requires |t.memos| == |t.nodes| == |t.after| == |t.results| == |t.heard| && |t.links| == |t.heard| + 1 && i < |t.heard|
  {
    HandlesPartly(t.order, t.memos[i], p, t.links[i], t.nodes[i], t.heard[i], t.links[i + 1], t.after[i], t.results[i])
  }

  /** Message `i` was an acceptable greeting, and its key and text are those given. */
  ghost predicate Greeted(p: Profile, t: Trace, i: nat, key: SshKey, script: Bytes)
    requires IsTrace(p, t)
  {
    && i < |t.heard| && Acceptable(p, t.links[0], t.heard[i])
    && key == t.heard[i].nodeSsh && script == ScriptFor(t.links[0], t.heard[i])
  }

  /** After it came a proof for that key over that text. */
  ghost predicate Proven(p: Profile, t: Trace, i: nat, j: nat, key: SshKey)
    requires IsTrace(p, t)
  {
    && i < j < |t.heard| && Greeted(p, t, i, key, ScriptFor0(t, i)) && Proves(t.heard[j], key, ScriptFor0(t, i))
    && (t.links[0].role.Listener? ==> p.admits(key, t.links[0].enrollmentAuthorized))
  }

  ghost function ScriptFor0(t: Trace, i: nat): Bytes {
    if i < |t.heard| && t.links != [] && t.heard[i].Hello? then ScriptFor(t.links[0], t.heard[i]) else []
  }

  /** Nothing but phase, peer and buffer ever changes. */
  ghost predicate SameEnds(s: Link, t: Link) {
    t == s.(phase := t.phase, peerSsh := t.peerSsh, pendingBatch := t.pendingBatch)
  }

  lemma {:induction false} TraceSoFar(p: Profile, t: Trace, k: nat) returns (i: nat, j: nat)
    requires IsTrace(p, t) && k < |t.links|
    ensures SameEnds(t.links[0], t.links[k])
    ensures t.links[k].phase.AwaitHello? ==> t.links[k].peerSsh == None
    ensures t.links[k].phase.AwaitAuth? ==> i < k && t.links[k].peerSsh == None && Greeted(p, t, i, t.links[k].phase.peerSsh, t.links[k].phase.script)
    ensures t.links[k].phase.Established? ==> j < k && t.links[k].peerSsh.Some? && Proven(p, t, i, j, t.links[k].peerSsh.value)
  {
    hide HandlesPartly, Acceptable, ScriptFor, Proves;
    i, j := 0, 0;
    if k > 0 {
      i, j := TraceSoFar(p, t, k - 1);
      var s, m := t.links[k - 1], t.heard[k - 1];
      assert StepOf(p, t, k - 1);
      match s.phase
      case AwaitHello =>
        GreetingIff(t.order, t.memos[k - 1], p, s, t.nodes[k - 1], m, t.links[k], t.after[k - 1], t.results[k - 1]);
        SameGreeting(p, t.links[0], s, m);
        if t.results[k - 1].Ok? {
          i := k - 1;
        }
      case AwaitAuth(_, _) =>
        ProofIff(t.order, t.memos[k - 1], p, s, t.nodes[k - 1], m, t.links[k], t.after[k - 1], t.results[k - 1]);
        if t.results[k - 1].Ok? {
          j := k - 1;
        }
        GreetedBy(p, t, i, s.phase.peerSsh, s.phase.script);
      case Established =>
        StaysEstablished(t.order, t.memos[k - 1], p, s, t.nodes[k - 1], m, t.links[k], t.after[k - 1], t.results[k - 1]);
    }
  }

  lemma SameGreeting(p: Profile, s: Link, t: Link, m: Msg)
    requires SameEnds(s, t)
    ensures Acceptable(p, s, m) == Acceptable(p, t, m) && (Acceptable(p, s, m) ==> m.Hello?)
    ensures m.Hello? ==> ScriptFor(s, m) == ScriptFor(t, m)
  {
  }

  lemma GreetedBy(p: Profile, t: Trace, i: nat, key: SshKey, script: Bytes)
    requires IsTrace(p, t) && Greeted(p, t, i, key, script)
    ensures script == ScriptFor0(t, i)
  {
  }

  /** Whatever was sent to it: an established session was greeted for its own vault and protocol, and
      then given a signature, by the very key it names as its peer, over a text that holds its own nonce
      and the peer's; and a listener had let that key in. */
  lemma PeerIsProven(p: Profile, t: Trace, k: nat) returns (i: nat, j: nat)
    requires IsTrace(p, t) && k < |t.links| && t.links[k].phase.Established?
    ensures j < k && t.links[k].peerSsh.Some? && Proven(p, t, i, j, t.links[k].peerSsh.value)
  {
    i, j := TraceSoFar(p, t, k);
  }
}
