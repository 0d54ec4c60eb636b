/** One session between two honest nodes over two FIFO channels (session.rs): under every
    interleaving it raises no error, ends after a fixed number of messages, and leaves both nodes
    with the same `main`. */
module Convergence {
  import opened Prelude
  import opened Objects
  import opened Store
  import opened Dag
  import opened Fold
  import opened FoldLaws
  import opened Reach
  import opened Signing
  import opened State
  import opened Chunks
  import opened Engine
  import opened CommitLaws
  import opened Runs
  import opened Delivery
  import opened Session

  datatype Party = Party(profile: Profile, link: Link, node: Node)

  // ---- Reassembly ----

  lemma {:induction false} ConcatOneMore<T>(chunks: seq<seq<T>>, c: seq<T>)
    ensures Concat(chunks + [c]) == Concat(chunks) + c
  {
    if chunks == [] {
      assert chunks + [c] == [c];
    } else {
      assert (chunks + [c])[1..] == chunks[1..] + [c];
      ConcatOneMore(chunks[1..], c);
    }
  }

  lemma ConcatPrefix<T>(chunks: seq<seq<T>>, j: nat)
    requires j < |chunks|
    ensures Concat(chunks[..j + 1]) == Concat(chunks[..j]) + chunks[j]
  {
    assert chunks[..j + 1] == chunks[..j] + [chunks[j]];
    ConcatOneMore(chunks[..j], chunks[j]);
  }

  lemma FramesShape(raws: Batch)
    ensures var frames, chunks := Frames(raws), Chunked(raws, RawSize, CATCHUP_CHUNK_BYTES);
      && |frames| > 0 && (forall f :: f in frames ==> f.ObjectsBatch?)
      && (forall j :: 0 <= j < |frames| ==> frames[j].ObjectsBatch? && frames[j].isLast == (j + 1 == |frames|))
      && (chunks != [] ==> |frames| == |chunks| && forall j :: 0 <= j < |frames| ==> frames[j].raws == chunks[j])
      && (chunks == [] ==> raws == [] && frames == [ObjectsBatch([], true)])
  {
    hide FirstSizeFrom;
  }

  /** Before the last frame, the buffer holds everything sent so far. */
  ghost function Buffered(raws: Batch, j: nat): Batch {
    var chunks := Chunked(raws, RawSize, CATCHUP_CHUNK_BYTES);
    if j <= |chunks| then Concat(chunks[..j]) else []
  }

  lemma BufferedNext(raws: Batch, j: nat)
    requires j < |Frames(raws)|
    ensures Frames(raws)[j].ObjectsBatch?
    ensures j + 1 < |Frames(raws)| ==> !Frames(raws)[j].isLast && Buffered(raws, j + 1) == Buffered(raws, j) + Frames(raws)[j].raws
    ensures j + 1 == |Frames(raws)| ==> Frames(raws)[j].isLast && Buffered(raws, j) + Frames(raws)[j].raws == raws
    ensures Buffered(raws, 0) == []
  {
    hide Chunked;
    FramesShape(raws);
    var chunks := Chunked(raws, RawSize, CATCHUP_CHUNK_BYTES);
    if chunks != [] {
      ConcatPrefix(chunks, j);
      ChunksAreExact(raws, RawSize, CATCHUP_CHUNK_BYTES);
      assert chunks[..|chunks|] == chunks;
    }
  }

  /** A session that handles some messages one after the other. */
  ghost predicate HandlesAll(p: Profile, msgs: seq<Msg>, links: seq<Link>, nodes: seq<Node>, rs: seq<Result<Step>>) {
    && |links| == |nodes| == |msgs| + 1 && |rs| == |msgs|
    && forall k :: 0 <= k < |msgs| ==> Handles(p, links[k], nodes[k], msgs[k], links[k + 1], nodes[k + 1], rs[k])
  }

  /** An established session with an empty buffer that handles the frames of a payload integrates
      nothing before the last one; at the last it integrates exactly that payload, in one call, and
      its buffer is empty again. */
  lemma FramesReassemble(p: Profile, raws: Batch, links: seq<Link>, nodes: seq<Node>, rs: seq<Result<Step>>)
    requires HandlesAll(p, Frames(raws), links, nodes, rs)
    requires links[0].phase.Established? && links[0].pendingBatch == []
    ensures var n := |Frames(raws)| - 1;
      && n >= 0 && (forall k :: 0 <= k <= n ==> nodes[k] == nodes[0]) && (forall k :: 0 <= k < n ==> rs[k] == Ok(Step([], [], 0)))
      && links[n + 1] == links[0] && Integrates(nodes[0], raws, true, nodes[n + 1], rs[n])
  {
    hide Frames, Buffered, Integrates, Handles;
    FramesShape(raws);
    var n := |Frames(raws)| - 1;
    forall k | 0 <= k <= n
      ensures nodes[k] == nodes[0]
    {
      FramesSoFar(p, raws, links, nodes, rs, k);
    }
    forall k | 0 <= k < n
      ensures rs[k] == Ok(Step([], [], 0))
    {
      FramesSoFar(p, raws, links, nodes, rs, k + 1);
    }
    FramesSoFar(p, raws, links, nodes, rs, n);
    BufferedNext(raws, n);
    LastFrame(p, links[n], nodes[n], Frames(raws)[n], links[n + 1], nodes[n + 1], rs[n]);
    assert links[0].(pendingBatch := []) == links[0];
  }

  lemma LastFrame(p: Profile, s: Link, n: Node, msg: Msg, s': Link, n': Node, r: Result<Step>)
    requires s.phase.Established? && msg.ObjectsBatch? && msg.isLast && Handles(p, s, n, msg, s', n', r)
    ensures s' == s.(pendingBatch := []) && Integrates(n, s.pendingBatch + msg.raws, true, n', r)
  {
    hide Integrates;
  }

  lemma {:induction false} FramesSoFar(p: Profile, raws: Batch, links: seq<Link>, nodes: seq<Node>, rs: seq<Result<Step>>, j: nat)
    requires HandlesAll(p, Frames(raws), links, nodes, rs) && j < |Frames(raws)|
    requires links[0].phase.Established? && links[0].pendingBatch == []
    ensures nodes[j] == nodes[0] && links[j] == links[0].(pendingBatch := Buffered(raws, j))
    ensures j > 0 ==> rs[j - 1] == Ok(Step([], [], 0))
  {
    hide Frames, Buffered, Integrates;
    if j == 0 {
      BufferedNext(raws, 0);
    } else {
      FramesSoFar(p, raws, links, nodes, rs, j - 1);
      BufferedNext(raws, j - 1);
      var k := j - 1;
      assert Handles(p, links[k], nodes[k], Frames(raws)[k], links[k + 1], nodes[k + 1], rs[k]);
    }
  }

  // ---- The setting ----

  ghost predicate Begins(x: Party) {
    x.link.phase.AwaitHello? && x.link.pendingBatch == [] && x.link.peerSsh == None
  }

  ghost predicate Meets(x: Party, y: Party) {
    && x.link.role != y.link.role && x.profile.vaultId == y.profile.vaultId
    && (x.link.role.Connector? ==> BindingAccepted(y.link.channelBinding, x.link.channelBinding))
    && (x.link.role.Listener? ==> x.profile.admits(Key(y.profile.node), x.link.enrollmentAuthorized))
  }

  /** Two honest nodes of one vault, about to start a session the listener will admit. */
  ghost predicate Ready(x: Party, y: Party, authored: set<Oid>) {
    && Begins(x) && Begins(y) && Meets(x, y) && Meets(y, x)
    && HonestHistory(authored) && Honest(x.node, authored) && Honest(y.node, authored)
  }

  ghost predicate HandshakeSucceeds(x: Party, y: Party)
    requires Begins(x) && Begins(y)
  {
    var hx := OnHello(x.profile, x.link, Start(y.profile, y.link));
    var hy := OnHello(y.profile, y.link, Start(x.profile, x.link));
    && hx.Ok? && hy.Ok?
    && OnAuth(x.profile, hx.value.0, Ok(FrontierOf(Elements(x.node.known))), hy.value.1.out[0]).Ok?
    && OnAuth(y.profile, hy.value.0, Ok(FrontierOf(Elements(y.node.known))), hx.value.1.out[0]).Ok?
  }

  /** A listener and a connector authenticate each other exactly when they serve the same vault,
      the connector accepts the advertised binding, and the listener lets the connector in. */
  lemma HandshakeSucceedsIff(x: Party, y: Party)
    requires Begins(x) && Begins(y) && x.link.role != y.link.role
    ensures HandshakeSucceeds(x, y) <==> Meets(x, y) && Meets(y, x)
  {
    hide FrontierOf, Transcript;
  }

  // ---- What each side says ----

  function Script(x: Party, y: Party): Bytes {
    if x.link.role.Connector? then Transcript(x.link.myNonce, y.link.myNonce, y.link.channelBinding)
    else Transcript(y.link.myNonce, x.link.myNonce, x.link.channelBinding)
  }

  /** Both sides sign the same bytes. */
  lemma TranscriptsAgree(x: Party, y: Party)
    requires x.link.role != y.link.role
    ensures Script(x, y) == Script(y, x)
  {
  }

  ghost function FrontierTipsOf(y: Party): seq<Tip> {
    Tips(FrontierOf(Elements(y.node.known)))
  }

  /** What `x` will ask `y` for. */
  ghost function Wants(x: Party, y: Party): seq<Tip> {
    Wanted(FrontierTipsOf(y), x.node)
  }

  /** What `y` sends when asked: empty when it is not asked. */
  ghost function Payload(x: Party, y: Party): Batch {
    ClosureOf(Decoded(Wants(x, y)))
  }

  ghost function Opening(x: Party, y: Party): seq<Msg> {
    [Start(x.profile, x.link), AuthProof(Sign(x.profile.node, TranscriptPayload(Script(x, y)))), FrontierDigest(FrontierTipsOf(x))]
  }

  ghost function Request(x: Party, y: Party): seq<Msg> {
    if Wants(x, y) == [] then [] else [WantTips(Wants(x, y))]
  }

  ghost function Answer(x: Party, y: Party): seq<Msg> {
    if Wants(y, x) == [] then [] else Frames(Payload(y, x))
  }

  /** Everything `x` says in the session, in order. */
  ghost function Says(x: Party, y: Party): seq<Msg> {
    Opening(x, y) + Request(x, y) + Answer(x, y)
  }

  /** How much of it `x` has said once it has heard `k` messages. */
  ghost function Said(x: Party, y: Party, k: nat): nat {
    if k <= 2 then k + 1 else if k == 3 then 3 + |Request(x, y)| else |Says(x, y)|
  }

  /** Frames of the answer heard among the first `k` messages. */
  ghost function Heard(x: Party, y: Party, k: nat): nat {
    var start := 3 + |Request(y, x)|;
    if k <= start then 0 else k - start
  }

  ghost predicate LinkAt(x: Party, x0: Party, y0: Party, k: nat) {
    x.link == x0.link.(
      phase := if k == 0 then AwaitHello else if k == 1 then AwaitAuth(Script(x0, y0), Key(y0.profile.node)) else Established,
      peerSsh := if k < 2 then None else Some(Key(y0.profile.node)),
      pendingBatch := if k == |Says(y0, x0)| || Wants(x0, y0) == [] then [] else Buffered(Payload(x0, y0), Heard(x0, y0, k)))
  }

  /** The node has integrated what it lacked of the peer's frontier. */
  ghost predicate CaughtUp(n: Node, x0: Party, y0: Party, authored: set<Oid>) {
    && Honest(n, authored) && !n.bootstrapPending
    && Elements(n.known) == Elements(x0.node.known) + PrimitivesBelowAll(Decoded(Wants(x0, y0)))
  }

  ghost predicate NodeAt(x: Party, x0: Party, y0: Party, authored: set<Oid>, k: nat) {
    if k < |Says(y0, x0)| || Wants(x0, y0) == [] then x.node == x0.node else CaughtUp(x.node, x0, y0, authored)
  }

  /** `x` as it is once it has heard `k` messages of `y`. */
  ghost predicate PartyAt(x: Party, x0: Party, y0: Party, authored: set<Oid>, k: nat) {
    x.profile == x0.profile && LinkAt(x, x0, y0, k) && NodeAt(x, x0, y0, authored, k)
  }

  // ---- One message heard ----

  ghost predicate Hears(x: Party, msg: Msg, x': Party, r: Result<Step>) {
    x'.profile == x.profile && Handles(x.profile, x.link, x.node, msg, x'.link, x'.node, r)
  }

  ghost predicate HeardWell(x0: Party, y0: Party, authored: set<Oid>, k: nat, x': Party, r: Result<Step>) {
    && r.Ok? && PartyAt(x', x0, y0, authored, k + 1)
    && Said(x0, y0, k) <= Said(x0, y0, k + 1) <= |Says(x0, y0)|
    && r.value.out == Says(x0, y0)[Said(x0, y0, k)..Said(x0, y0, k + 1)]
  }

  lemma HearHello(x0: Party, y0: Party, authored: set<Oid>, x: Party, x': Party, r: Result<Step>)
    requires Ready(x0, y0, authored) && PartyAt(x, x0, y0, authored, 0) && Hears(x, Says(y0, x0)[0], x', r)
    ensures HeardWell(x0, y0, authored, 0, x', r)
  {
    hide Honest, HonestHistory, Wanted, Frames, Buffered, ClosureOf, FrontierOf, OnEstablished, Transcript;
    NoFrameYet(x0, y0, 1);
    assert Says(x0, y0)[1..2] == [Opening(x0, y0)[1]];
  }

  lemma NoFrameYet(x: Party, y: Party, k: nat)
    requires k <= 3 + |Request(y, x)|
    ensures Buffered(Payload(x, y), Heard(x, y, k)) == []
    ensures Wants(x, y) != [] ==> k < |Says(y, x)|
  {
    hide Wanted, Frames, Buffered, ClosureOf, FrontierOf, Transcript, Decoded;
    FramesShape(Payload(x, y));
    BufferedNext(Payload(x, y), 0);
  }

  lemma HearProof(x0: Party, y0: Party, authored: set<Oid>, x: Party, x': Party, r: Result<Step>)
    requires Ready(x0, y0, authored) && PartyAt(x, x0, y0, authored, 1) && Hears(x, Says(y0, x0)[1], x', r)
    ensures HeardWell(x0, y0, authored, 1, x', r)
  {
    hide Honest, HonestHistory, Wanted, Frames, Buffered, ClosureOf, FrontierOf, OnEstablished, Transcript;
    TranscriptsAgree(x0, y0);
    NoFrameYet(x0, y0, 2);
    assert Says(x0, y0)[2..3] == [Opening(x0, y0)[2]];
  }

  lemma HearDigest(x0: Party, y0: Party, authored: set<Oid>, x: Party, x': Party, r: Result<Step>)
    requires Ready(x0, y0, authored) && PartyAt(x, x0, y0, authored, 2) && Hears(x, Says(y0, x0)[2], x', r)
    ensures HeardWell(x0, y0, authored, 2, x', r)
  {
    hide Honest, HonestHistory, Wanted, Frames, Buffered, ClosureOf, FrontierOf, Transcript;
    NoFrameYet(x0, y0, 2);
    NoFrameYet(x0, y0, 3);
    assert Says(y0, x0)[2] == FrontierDigest(FrontierTipsOf(y0));
    assert Says(x0, y0)[3..3 + |Request(x0, y0)|] == Request(x0, y0);
  }

  lemma HearRequest(x0: Party, y0: Party, authored: set<Oid>, x: Party, x': Party, r: Result<Step>)
    requires Ready(x0, y0, authored) && PartyAt(x, x0, y0, authored, 3) && Wants(y0, x0) != []
    requires Hears(x, Says(y0, x0)[3], x', r)
    ensures HeardWell(x0, y0, authored, 3, x', r)
  {
    hide Honest, HonestHistory, Wanted, Decoded, Frames, Buffered, ClosureOf, FrontierOf, Transcript, ReachableFrom;
    NoFrameYet(x0, y0, 3);
    NoFrameYet(x0, y0, 4);
    assert Says(y0, x0)[3] == WantTips(Wants(y0, x0));
    TipsAreHeld(y0, x0, authored);
    assert Says(x0, y0)[3 + |Request(x0, y0)|..] == Answer(x0, y0);
  }

  lemma HearFrame(x0: Party, y0: Party, authored: set<Oid>, k: nat, x: Party, x': Party, r: Result<Step>)
    requires Ready(x0, y0, authored) && PartyAt(x, x0, y0, authored, k) && Wants(x0, y0) != []
    requires 3 + |Request(y0, x0)| <= k < |Says(y0, x0)| && Hears(x, Says(y0, x0)[k], x', r)
    ensures HeardWell(x0, y0, authored, k, x', r)
  {
    hide Honest, HonestHistory, Wanted, Decoded, Frames, Buffered, ClosureOf, FrontierOf, Transcript;
    hide PrimitivesBelowAll, IntegrateResult;
    var j := k - (3 + |Request(y0, x0)|);
    var payload := Payload(x0, y0);
    assert Says(y0, x0)[k] == Frames(payload)[j];
    BufferedNext(payload, j);
    FrameSaysNothing(x0, y0, k);
    if j + 1 == |Frames(payload)| {
      assert k + 1 == |Says(y0, x0)|;
      FinishCatchUp(x0, y0, authored, x'.node, r);
    }
  }

  lemma FrameSaysNothing(x: Party, y: Party, k: nat)
    requires 3 + |Request(y, x)| <= k
    ensures Said(x, y, k) == Said(x, y, k + 1) == |Says(x, y)|
  {
    hide Wanted, Frames, ClosureOf, FrontierOf, Transcript, Decoded;
  }

  lemma FinishCatchUp(x0: Party, y0: Party, authored: set<Oid>, n: Node, r: Result<Step>)
    requires Ready(x0, y0, authored) && Integrates(x0.node, Payload(x0, y0), true, n, r)
    ensures r.Ok? && r.value.out == [] && CaughtUp(n, x0, y0, authored)
  {
    hide Honest, HonestHistory, Wanted, Decoded, Frames, ClosureOf, FrontierOf, Transcript, PrimitivesBelowAll;
    hide IntegrateResult;
    var mid, ir :| IntegrateResult(x0.node, Payload(x0, y0), mid, ir) && Consistent(mid)
      && match ir
         case Ok(admitted) => n == mid.(bootstrapPending := false) && r == Ok(Step([], if admitted > 0 then Payload(x0, y0) else [], admitted))
         case Err(e) => n == mid && r == Err(e);
    WantedAreKnown(x0, y0);
    HonestIsConsistent(y0.node, authored);
    CatchUp(x0.node, y0.node, authored, Decoded(Wants(x0, y0)), mid, ir);
    StaysHonest(mid, authored);
  }

  lemma HonestIsConsistent(n: Node, authored: set<Oid>)
    requires Honest(n, authored)
    ensures Consistent(n) && AllKnown(n) && Current(n)
  {
  }

  lemma StaysHonest(n: Node, authored: set<Oid>)
    requires Honest(n, authored)
    ensures Honest(n.(bootstrapPending := false), authored)
  {
    hide Consistent, MainOf;
    ConsistentElsewhere(n, n.(bootstrapPending := false));
  }

  // ---- What is asked for ----

  lemma {:induction false} WantedHas(tips: seq<Tip>, n: Node, o: Oid)
    ensures o in Decoded(Wanted(tips, n)) <==> Some(o) in tips && (o !in n.objs || o !in n.known)
  {
    hide Wanted, Decoded;
    if tips == [] {
      WantedNothing(n);
    } else {
      var k := |tips| - 1;
      assert tips == tips[..k] + [tips[k]];
      WantedHas(tips[..k], n, o);
      WantedOneMore(tips[..k], tips[k], n);
      DecodedOneMore(Wanted(tips[..k], n), tips[k]);
    }
  }

  lemma WantedNothing(n: Node)
    ensures Decoded(Wanted([], n)) == []
  {
  }

  lemma WantedOneMore(tips: seq<Tip>, t: Tip, n: Node)
    ensures Wanted(tips + [t], n) ==
      if t.Some? && (t.value !in n.objs || t.value !in n.known) then Wanted(tips, n) + [t] else Wanted(tips, n)
  {
    assert (tips + [t])[..|tips|] == tips && (tips + [t])[|tips|] == t;
    assert Wanted(tips, n) + [] == Wanted(tips, n);
  }

  lemma DecodedOneMore(tips: seq<Tip>, t: Tip)
    ensures Decoded(tips + [t]) == Decoded(tips) + if t.Some? then [t.value] else []
    ensures Decoded([]) == []
  {
    assert (tips + [t])[..|tips|] == tips;
  }

  lemma WantedAreKnown(x: Party, y: Party)
    ensures forall o :: o in Decoded(Wants(x, y)) ==> o in y.node.known
    ensures forall o :: o in FrontierOf(Elements(y.node.known)) && (o !in x.node.objs || o !in x.node.known) ==> o in Decoded(Wants(x, y))
  {
    hide Wanted, Decoded, FrontierOf;
    var f := FrontierOf(Elements(y.node.known));
    FrontierIsKnown(Elements(y.node.known));
    forall o
      ensures o in Decoded(Wants(x, y)) <==> o in f && (o !in x.node.objs || o !in x.node.known)
    {
      WantedHas(Tips(f), x.node, o);
      InTips(f, o);
    }
  }

  lemma InTips(f: seq<Oid>, o: Oid)
    ensures Some(o) in Tips(f) <==> o in f
  {
    if i :| 0 <= i < |f| && f[i] == o {
      assert Tips(f)[i] == Some(o);
    }
  }

  lemma TipsAreHeld(x: Party, y: Party, authored: set<Oid>)
    requires Honest(y.node, authored)
    ensures AllHeld(y.node.objs, ReachableFrom(Elements(Decoded(Wants(x, y)))))
  {
    hide Wanted, Decoded, FrontierOf, IsPrimitive, ReachableFrom;
    WantedAreKnown(x, y);
    ReachIsHeld(y.node.objs, Decoded(Wants(x, y)));
  }

  /** Whatever message comes next, it is handled well. */
  lemma Hear(x0: Party, y0: Party, authored: set<Oid>, k: nat, x: Party, x': Party, r: Result<Step>)
    requires Ready(x0, y0, authored) && PartyAt(x, x0, y0, authored, k) && k < |Says(y0, x0)|
    requires Hears(x, Says(y0, x0)[k], x', r)
    ensures HeardWell(x0, y0, authored, k, x', r)
  {
    hide Ready, PartyAt, Hears, HeardWell, Wanted, Frames, ClosureOf, FrontierOf, Transcript, Decoded;
    if k == 0 {
      HearHello(x0, y0, authored, x, x', r);
    } else if k == 1 {
      HearProof(x0, y0, authored, x, x', r);
    } else if k == 2 {
      HearDigest(x0, y0, authored, x, x', r);
    } else if k == 3 && Wants(y0, x0) != [] {
      HearRequest(x0, y0, authored, x, x', r);
    } else {
      HearFrame(x0, y0, authored, k, x, x', r);
    }
  }

  /** It may be handled at all: what it makes the node integrate decodes, and leaves nothing
      dangling. */
  lemma NextMayBeHeard(x0: Party, y0: Party, authored: set<Oid>, k: nat, x: Party)
    requires Ready(x0, y0, authored) && PartyAt(x, x0, y0, authored, k) && k < |Says(y0, x0)|
    ensures AllDecode(Integrated(x.link, Says(y0, x0)[k])) && Closes(x.link, x.node, Says(y0, x0)[k])
  {
    hide Honest, HonestHistory, Wanted, Frames, Buffered, ClosureOf, FrontierOf, Transcript, Decoded, PutAll, Closed, Start;
    StartIsHello(y0);
    HonestIsHeld(x0.node, authored);
    PutNothing(x0.node.objs);
    if k >= 3 + |Request(y0, x0)| {
      var payload, j := Payload(x0, y0), k - (3 + |Request(y0, x0)|);
      assert Says(y0, x0)[k] == Frames(payload)[j];
      BufferedNext(payload, j);
      if j + 1 == |Frames(payload)| {
        assert x.node == x0.node && Integrated(x.link, Says(y0, x0)[k]) == payload;
        WantedAreKnown(x0, y0);
        HonestIsHeld(y0.node, authored);
        ClosureIsClosed(x0.node.objs, y0.node.objs, Decoded(Wants(x0, y0)));
      }
    } else {
      assert Says(y0, x0)[k] == (Opening(y0, x0) + Request(y0, x0))[k];
    }
  }

  lemma PutNothing(m: ObjectMap)
    ensures PutAll(m, []) == m
  {
  }

  lemma StartIsHello(y: Party)
    ensures Start(y.profile, y.link).Hello?
  {
  }

  lemma HonestIsHeld(n: Node, authored: set<Oid>)
    requires Honest(n, authored)
    ensures Addressed(n.objs) && Closed(n.objs) && forall o :: o in n.known ==> o in n.objs
  {
  }

  // ---- Two parties, two channels ----

  datatype Net = Net(a: Party, b: Party, toA: seq<Msg>, toB: seq<Msg>)

  /** Both sides have sent their opening message. */
  ghost predicate NetInit(w: Net, authored: set<Oid>) {
    && Ready(w.a, w.b, authored)
    && w.toB == [Start(w.a.profile, w.a.link)] && w.toA == [Start(w.b.profile, w.b.link)]
  }

  ghost predicate AHears(w: Net, w': Net, r: Result<Step>) {
    && w.toA != [] && Hears(w.a, w.toA[0], w'.a, r) && w'.b == w.b && w'.toA == w.toA[1..]
    && w'.toB == w.toB + if r.Ok? then r.value.out else []
  }

  ghost predicate BHears(w: Net, w': Net, r: Result<Step>) {
    && w.toB != [] && Hears(w.b, w.toB[0], w'.b, r) && w'.a == w.a && w'.toB == w.toB[1..]
    && w'.toA == w.toA + if r.Ok? then r.value.out else []
  }

  /** Either side takes the next message off its channel. */
  ghost predicate NetNext(w: Net, w': Net, r: Result<Step>) {
    AHears(w, w', r) || BHears(w, w', r)
  }

  /** A session as far as it got: the states, and what each step reported. */
  ghost predicate Exchange(states: seq<Net>, reports: seq<Result<Step>>, authored: set<Oid>) {
    && |states| == |reports| + 1 && NetInit(states[0], authored)
    && forall i :: 0 <= i < |reports| ==> NetNext(states[i], states[i + 1], reports[i])
  }

  /** `a` has heard `i` messages and `b` has heard `j`; the channels hold what was said since. */
  ghost predicate NetAt(w: Net, w0: Net, authored: set<Oid>, i: nat, j: nat) {
    && PartyAt(w.a, w0.a, w0.b, authored, i) && PartyAt(w.b, w0.b, w0.a, authored, j)
    && i <= Said(w0.b, w0.a, j) <= |Says(w0.b, w0.a)| && j <= Said(w0.a, w0.b, i) <= |Says(w0.a, w0.b)|
    && w.toA == Says(w0.b, w0.a)[i..Said(w0.b, w0.a, j)]
    && w.toB == Says(w0.a, w0.b)[j..Said(w0.a, w0.b, i)]
  }

  lemma NetStarts(w: Net, authored: set<Oid>)
    requires NetInit(w, authored)
    ensures NetAt(w, w, authored, 0, 0)
  {
    hide Honest, HonestHistory, Wanted, Frames, ClosureOf, FrontierOf, Transcript, Decoded, Buffered;
    PartyStarts(w.a, w.b, authored);
    PartyStarts(w.b, w.a, authored);
    assert Says(w.a, w.b)[0..1] == w.toB;
    assert Says(w.b, w.a)[0..1] == w.toA;
  }

  lemma PartyStarts(x: Party, y: Party, authored: set<Oid>)
    requires Begins(x)
    ensures PartyAt(x, x, y, authored, 0)
  {
    hide Wanted, Frames, ClosureOf, FrontierOf, Transcript, Decoded;
    FramesShape(Payload(x, y));
    BufferedNext(Payload(x, y), 0);
  }

  lemma AStep(w: Net, w': Net, r: Result<Step>, w0: Net, authored: set<Oid>, i: nat, j: nat)
    requires NetInit(w0, authored) && NetAt(w, w0, authored, i, j) && AHears(w, w', r)
    ensures r.Ok? && NetAt(w', w0, authored, i + 1, j)
  {
    hide Ready, PartyAt, Hears, Says, Said;
    Taken(Says(w0.b, w0.a), i, Said(w0.b, w0.a, j));
    Hear(w0.a, w0.b, authored, i, w.a, w'.a, r);
    Added(Says(w0.a, w0.b), j, Said(w0.a, w0.b, i), Said(w0.a, w0.b, i + 1));
  }

  /** A message taken off the front of a channel. */
  lemma Taken(says: seq<Msg>, i: nat, n: nat)
    requires i <= n <= |says|
    ensures says[i..n] != [] ==> i < n && says[i..n][0] == says[i] && says[i..n][1..] == says[i + 1..n]
  {
  }

  /** Messages put at the end of a channel. */
  lemma Added(says: seq<Msg>, j: nat, n: nat, n': nat)
    requires j <= n <= n' <= |says|
    ensures says[j..n] + says[n..n'] == says[j..n']
  {
  }

  lemma BStep(w: Net, w': Net, r: Result<Step>, w0: Net, authored: set<Oid>, i: nat, j: nat)
    requires NetInit(w0, authored) && NetAt(w, w0, authored, i, j) && BHears(w, w', r)
    ensures r.Ok? && NetAt(w', w0, authored, i, j + 1)
  {
    hide Ready, PartyAt, Hears, Says, Said;
    ReadyIsSymmetric(w0.a, w0.b, authored);
    Taken(Says(w0.a, w0.b), j, Said(w0.a, w0.b, i));
    Hear(w0.b, w0.a, authored, j, w.b, w'.b, r);
    Added(Says(w0.b, w0.a), i, Said(w0.b, w0.a, j), Said(w0.b, w0.a, j + 1));
  }

  /** Under any interleaving: no step reports an error, and the state is determined by how many
      messages each side has heard. */
  lemma {:induction false} ExchangeGoesWell(states: seq<Net>, reports: seq<Result<Step>>, authored: set<Oid>, n: nat)
    returns (i: nat, j: nat)
    requires Exchange(states, reports, authored) && n < |states|
    ensures i + j == n && NetAt(states[n], states[0], authored, i, j)
    ensures forall k :: 0 <= k < n ==> reports[k].Ok?
  {
    hide NetInit, NetAt, AHears, BHears;
    if n == 0 {
      NetStarts(states[0], authored);
      return 0, 0;
    }
    i, j := ExchangeGoesWell(states, reports, authored, n - 1);
    assert NetNext(states[n - 1], states[n - 1 + 1], reports[n - 1]);
    if AHears(states[n - 1], states[n], reports[n - 1]) {
      AStep(states[n - 1], states[n], reports[n - 1], states[0], authored, i, j);
      i := i + 1;
    } else {
      BStep(states[n - 1], states[n], reports[n - 1], states[0], authored, i, j);
      j := j + 1;
    }
  }

  /** The one proof a side ever sends. */
  ghost function ProofOf(x: Party, script: Bytes): Msg {
    AuthProof(Sign(x.profile.node, TranscriptPayload(script)))
  }

  lemma OnlyProof(x: Party, y: Party)
    ensures forall m :: m in Says(x, y) && m.AuthProof? ==> m == ProofOf(x, Script(x, y))
  {
    hide Wanted, ClosureOf, FrontierOf, Transcript, Decoded, Sign;
    FramesShape(Payload(y, x));
    var frames := Answer(x, y);
    forall m | m in frames
      ensures !m.AuthProof?
    {
      var i :| 0 <= i < |frames| && frames[i] == m;
    }
  }

  /** Under any interleaving, both sides sign one and the same transcript: every proof ever on its way
      is its sender's signature over it, and it is the one a side that waits for a proof will check. */
  lemma SignedAlike(states: seq<Net>, reports: seq<Result<Step>>, authored: set<Oid>, n: nat)
    requires Exchange(states, reports, authored) && n < |states|
    ensures var w, w0 := states[n], states[0];
      var script := Script(w0.a, w0.b);
      && (forall m :: m in w.toB && m.AuthProof? ==> m == ProofOf(w0.a, script))
      && (forall m :: m in w.toA && m.AuthProof? ==> m == ProofOf(w0.b, script))
      && (w.a.link.phase.AwaitAuth? ==> w.a.link.phase == AwaitAuth(script, Key(w0.b.profile.node)))
      && (w.b.link.phase.AwaitAuth? ==> w.b.link.phase == AwaitAuth(script, Key(w0.a.profile.node)))
  {
    hide NetInit, NetNext, Says, Said, Transcript, Wanted, Buffered, NodeAt, Sign;
    var i, j := ExchangeGoesWell(states, reports, authored, n);
    RolesDiffer(states[0], authored);
    TranscriptsAgree(states[0].a, states[0].b);
    OnlyProof(states[0].a, states[0].b);
    OnlyProof(states[0].b, states[0].a);
  }

  lemma RolesDiffer(w: Net, authored: set<Oid>)
    requires NetInit(w, authored)
    ensures w.a.link.role != w.b.link.role
  {
  }

  /** No session is longer than what the two sides have to say. */
  lemma ExchangeEnds(states: seq<Net>, reports: seq<Result<Step>>, authored: set<Oid>)
    requires Exchange(states, reports, authored)
    ensures var a, b := states[0].a, states[0].b;
      |reports| <= |Says(a, b)| + |Says(b, a)|
  {
    hide NetInit, NetNext, Says, Said, PartyAt;
    var i, j := ExchangeGoesWell(states, reports, authored, |reports|);
  }

  /** With both channels empty, everything has been said and heard. */
  lemma QuietMeansDone(w: Net, w0: Net, authored: set<Oid>, i: nat, j: nat)
    requires NetAt(w, w0, authored, i, j) && w.toA == [] && w.toB == []
    ensures i == |Says(w0.b, w0.a)| && j == |Says(w0.a, w0.b)|
  {
    hide PartyAt, Wanted, Frames, ClosureOf, FrontierOf, Transcript, Decoded;
    FramesShape(Payload(w0.a, w0.b));
    FramesShape(Payload(w0.b, w0.a));
    assert i == Said(w0.b, w0.a, j) && j == Said(w0.a, w0.b, i);
  }

  /** Once everything is heard, a node knows what it knew and what lies below the peer's frontier. */
  lemma AtTheEnd(x: Party, x0: Party, y0: Party, authored: set<Oid>)
    requires Ready(x0, y0, authored) && PartyAt(x, x0, y0, authored, |Says(y0, x0)|)
    ensures Honest(x.node, authored) && x.link.phase.Established? && x.link.peerSsh == Some(Key(y0.profile.node)) && x.link.pendingBatch == []
    ensures Elements(x.node.known) == Elements(x0.node.known) + PrimitivesBelowAll(FrontierOf(Elements(y0.node.known)))
    ensures x.node.bootstrapPending == (x0.node.bootstrapPending && Wants(x0, y0) == [])
  {
    hide Honest, HonestHistory, Wanted, Frames, ClosureOf, FrontierOf, Transcript, Decoded, PrimitivesBelowAll, Buffered;
    FramesShape(Payload(x0, y0));
    LacksNothing(x0, y0, authored);
  }

  /** What was asked for, and what was known, cover the peer's frontier. */
  lemma LacksNothing(x: Party, y: Party, authored: set<Oid>)
    requires Honest(x.node, authored)
    ensures Elements(x.node.known) + PrimitivesBelowAll(Decoded(Wants(x, y))) ==
      Elements(x.node.known) + PrimitivesBelowAll(FrontierOf(Elements(y.node.known)))
    ensures Wants(x, y) == [] ==> PrimitivesBelowAll(Decoded(Wants(x, y))) == {}
  {
    hide Wanted, Decoded, FrontierOf, PrimitivesBelow, IsPrimitive, Consistent, AllKnown;
    WantedAreKnown(x, y);
    var f := FrontierOf(Elements(y.node.known));
    var want := Decoded(Wants(x, y));
    forall p
      ensures p in PrimitivesBelowAll(f) ==> p in PrimitivesBelowAll(want) || p in x.node.known
    {
      if p in PrimitivesBelowAll(f) {
        var t :| t in f && p in PrimitivesBelow(t);
        if t in x.node.known {
          KnownIsClosed(x.node, t);
        }
      }
    }
    forall p | p in PrimitivesBelowAll(want)
      ensures p in PrimitivesBelowAll(f)
    {
      var t :| t in want && p in PrimitivesBelow(t);
      WantedHas(Tips(f), x.node, t);
      InTips(f, t);
    }
    DecodedOneMore([], None);
  }

  /** When nothing is left in either channel, both sides are established with each other, and
      their `main` is the same commit: even if their known sets differ in what the filter drops. */
  lemma ExchangeConverges(states: seq<Net>, reports: seq<Result<Step>>, authored: set<Oid>)
    requires Exchange(states, reports, authored)
    requires states[|reports|].toA == [] && states[|reports|].toB == []
    ensures var w, w0 := states[|reports|], states[0];
      && w.a.node.main == w.b.node.main && w.a.node.main.Some?
      && w.a.link.phase.Established? && w.b.link.phase.Established?
      && w.a.link.peerSsh == Some(Key(w0.b.profile.node)) && w.b.link.peerSsh == Some(Key(w0.a.profile.node))
      && |reports| == |Says(w0.a, w0.b)| + |Says(w0.b, w0.a)|
  {
    hide Says, Said, PartyAt, Ready, Honest, HonestHistory, FrontierOf, PrimitivesBelowAll, Consistent, AllKnown;
    var w, w0 := states[|reports|], states[0];
    var i, j := ExchangeGoesWell(states, reports, authored, |reports|);
    QuietMeansDone(w, w0, authored, i, j);
    ReadyIsSymmetric(w0.a, w0.b, authored);
    AtTheEnd(w.a, w0.a, w0.b, authored);
    AtTheEnd(w.b, w0.b, w0.a, authored);
    HonestIsConsistent(w.a.node, authored);
    HonestIsConsistent(w.b.node, authored);
    ReadyIsHonest(w0.a, w0.b, authored);
    CaughtUpAgree(w0.a.node, w0.b.node, w.a.node, w.b.node);
  }

  lemma ReadyIsSymmetric(x: Party, y: Party, authored: set<Oid>)
    requires Ready(x, y, authored)
    ensures Ready(y, x, authored)
  {
  }

  lemma ReadyIsHonest(x: Party, y: Party, authored: set<Oid>)
    requires Ready(x, y, authored)
    ensures Consistent(x.node) && AllKnown(x.node) && Consistent(y.node) && AllKnown(y.node)
  {
  }
}
