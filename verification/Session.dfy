/** The replication session (session.rs): mutual authentication over one transcript, then an
    exchange of frontiers and of the closures each side lacks. No sockets: messages in, messages
    out. */
module Session {
  import opened Prelude
  import opened Objects
  import opened Store
  import opened Touch
  import opened GhostAdds
  import opened Fold
  import opened Reach
  import opened Signing
  import opened State
  import opened Chunks
  import opened Engine
  import opened Delivery

  datatype Role = Listener | Connector

  /** A public key line of a peer, which may not parse. */
  datatype SshKey = Key(node: NodeId) | Unparsable(text: string)

  /** A tip as text: an id, or something that is not one. */
  type Tip = Option<Oid>

  datatype Msg =
    | Hello(vaultId: string, name: string, nodeSsh: SshKey, nonce: Bytes, cb: Bytes, proto: nat)
    | AuthProof(sig: seq<nat>)
    | FrontierDigest(tips: seq<Tip>)
    | WantTips(tips: seq<Tip>)
    | Objects(raws: Batch)
    | ObjectsBatch(raws: Batch, isLast: bool)
    | Live(raws: Batch)
    | Ping
    | Pong

  datatype Phase = AwaitHello | AwaitAuth(script: Bytes, peerSsh: SshKey) | Established

  const PROTO_VERSION := 5
  const AUTH_CTX: Bytes := [99, 115, 112, 45, 97, 117, 116, 104, 45, 118, 49]  // "csp-auth-v1"
  const CATCHUP_CHUNK_BYTES: nat := 256 * 1024

  type RawSizes = f: Option<GitObject> -> nat | true witness (raw => 0)

  /** How many bytes an object takes on the wire. */
  const RawSize: RawSizes

  /** Who a vault is, to its peers, and whom it lets in. */
  datatype Profile = Profile(vaultId: string, name: string, node: NodeId, admits: (SshKey, bool) -> bool)

  /** All of one side's session state. */
  datatype Link = Link(
    role: Role,
    channelBinding: Bytes,
    myNonce: Bytes,
    phase: Phase,
    peerSsh: Option<SshKey>,
    enrollmentAuthorized: bool,
    pendingBatch: Batch)

  datatype Step = Step(out: seq<Msg>, relay: Batch, integrated: nat)

  // ---- Handshake ----

  function Transcript(clientNonce: Bytes, serverNonce: Bytes, binding: Bytes): Bytes {
    AUTH_CTX + clientNonce + serverNonce + binding
  }

  predicate BindingDisabled(cb: Bytes) {
    forall b | b in cb :: b == 0
  }

  /** What a connector makes of the binding the listener advertised. */
  predicate BindingAccepted(advertised: Bytes, observed: Bytes) {
    BindingDisabled(advertised) || observed == [] || observed == advertised
  }

  function Start(p: Profile, s: Link): Msg {
    Hello(p.vaultId, p.name, Key(p.node), s.myNonce, if s.role.Listener? then s.channelBinding else [], PROTO_VERSION)
  }

  function OnHello(p: Profile, s: Link, msg: Msg): Result<(Link, Step)> {
    match msg
    case Hello(vaultId, _, nodeSsh, nonce, cb, proto) =>
      if proto != PROTO_VERSION || vaultId != p.vaultId then Err(Protocol)
      else if s.role.Connector? && !BindingAccepted(cb, s.channelBinding) then Err(ChannelBinding)
      else
        var script := if s.role.Connector? then Transcript(s.myNonce, nonce, cb) else Transcript(nonce, s.myNonce, s.channelBinding);
        Ok((s.(phase := AwaitAuth(script, nodeSsh)), Step([AuthProof(Sign(p.node, TranscriptPayload(script)))], [], 0)))
    case _ => Err(Protocol)
  }

  function OnAuth(p: Profile, s: Link, frontier: Result<seq<Oid>>, msg: Msg): Result<(Link, Step)>
    requires s.phase.AwaitAuth?
  {
    match msg
    case AuthProof(sig) =>
      (match s.phase.peerSsh
       case Unparsable(_) => Err(BadSignature)
       case Key(peer) =>
         if !Ed25519.verify(peer, TranscriptPayload(s.phase.script), sig) then Err(BadSignature)
         else if s.role.Listener? && !p.admits(s.phase.peerSsh, s.enrollmentAuthorized) then Err(Unauthorized)
         else
           var tips :- frontier;
           Ok((s.(phase := Established, peerSsh := Some(s.phase.peerSsh)), Step([FrontierDigest(Tips(tips))], [], 0))))
    case _ => Err(Protocol)
  }

  // ---- Anti-entropy ----

  function Tips(oids: seq<Oid>): (tips: seq<Tip>)
    ensures |tips| == |oids| && forall i :: 0 <= i < |oids| ==> tips[i] == Some(oids[i])
  {
    seq(|oids|, i requires 0 <= i < |oids| => Some(oids[i]))
  }

  /** The tips that parse. */
  function Decoded(tips: seq<Tip>): seq<Oid> {
    if tips == [] then []
    else Decoded(tips[..|tips| - 1]) + if tips[|tips| - 1].Some? then [tips[|tips| - 1].value] else []
  }

  /** The advertised tips this node lacks: not held, or held but not known. */
  function Wanted(tips: seq<Tip>, n: Node): seq<Tip> {
    if tips == [] then []
    else
      var t := tips[|tips| - 1];
      Wanted(tips[..|tips| - 1], n) + if t.Some? && (t.value !in n.objs || t.value !in n.known) then [t] else []
  }

  /** The frames a payload goes out in; the last one says so. */
  ghost function Frames(raws: Batch): seq<Msg> {
    var chunks := Chunked(raws, RawSize, CATCHUP_CHUNK_BYTES);
    if chunks == [] then [ObjectsBatch([], true)]
    else seq(|chunks|, i requires 0 <= i < |chunks| => ObjectsBatch(chunks[i], i + 1 == |chunks|))
  }

  ghost predicate Integrates(n: Node, raws: Batch, catchUp: bool, n': Node, r: Result<Step>) {
    exists mid, ir :: IntegrateResult(n, raws, mid, ir) && Consistent(mid)
      && match ir
         case Ok(admitted) =>
           && n' == (if catchUp then mid.(bootstrapPending := false) else mid)
           && r == Ok(Step([], if admitted > 0 then raws else [], admitted))
         case Err(e) => n' == mid && r == Err(e)
  }

  /** The messages that make a node integrate something at once. */
  predicate Absorbs(msg: Msg) {
    msg.Objects? || msg.Live? || (msg.ObjectsBatch? && msg.isLast)
  }

  function Flushed(s: Link, msg: Msg): Link {
    if msg.ObjectsBatch? then s.(pendingBatch := []) else s
  }

  /** What the other messages do; the node stays as it is. */
  ghost predicate Replies(s: Link, n: Node, msg: Msg, s': Link, r: Result<Step>) {
    match msg
    case FrontierDigest(tips) =>
      s' == s && r == Ok(Step(if Wanted(tips, n) == [] then [] else [WantTips(Wanted(tips, n))], [], 0))
    case WantTips(tips) =>
      s' == s &&
      if AllHeld(n.objs, ReachableFrom(Elements(Decoded(tips)))) then r == Ok(Step(Frames(ClosureOf(Decoded(tips))), [], 0)) else r.Err?
    case ObjectsBatch(raws, _) => s' == s.(pendingBatch := s.pendingBatch + raws) && r == Ok(Step([], [], 0))
    case Ping => s' == s && r == Ok(Step([Pong], [], 0))
    case Pong => s' == s && r == Ok(Step([], [], 0))
    case _ => s' == s && r == Err(Protocol)
  }

  ghost predicate OnEstablished(s: Link, n: Node, msg: Msg, s': Link, n': Node, r: Result<Step>) {
    if Absorbs(msg) then s' == Flushed(s, msg) && Integrates(n, Integrated(s, msg), !msg.Live?, n', r)
    else n' == n && Replies(s, n, msg, s', r)
  }

  /** One message handled: the new session, the new node, and what to send. A refused message
      leaves the handshake where it was. */
  ghost predicate Handles(p: Profile, s: Link, n: Node, msg: Msg, s': Link, n': Node, r: Result<Step>) {
    match s.phase
    case AwaitHello => n' == n && Moves(OnHello(p, s, msg), s, s', r)
    case AwaitAuth(_, _) => n' == n && Moves(OnAuth(p, s, Ok(FrontierOf(Elements(n.known))), msg), s, s', r)
    case Established => OnEstablished(s, n, msg, s', n', r)
  }

  // ---- The same on a node from which something may be missing ----

  ghost predicate IntegratesPartly(order: EntryOrder, memo: Memo, n: Node, raws: Batch, catchUp: bool, n': Node, r: Result<Step>) {
    exists mid, ir :: IntegratePartly(order, memo, n, raws, mid, ir)
      && match ir
         case Ok(admitted) =>
           && n' == (if catchUp then mid.(bootstrapPending := false) else mid)
           && r == Ok(Step([], if admitted > 0 then raws else [], admitted))
         case Err(e) => n' == mid && r == Err(e)
  }

  ghost predicate Authenticates(order: EntryOrder, memo: Memo, p: Profile, s: Link, n: Node, msg: Msg, s': Link, r: Result<Step>)
    requires s.phase.AwaitAuth?
  {
    exists frontier :: TipsSeen(order, memo, n, frontier) && Moves(OnAuth(p, s, frontier, msg), s, s', r)
  }

  lemma SomeTips(order: EntryOrder, memo: Memo, n: Node)
    ensures exists frontier :: TipsSeen(order, memo, n, frontier)
  {
    hide Cut, FrontierOn;
    if Cut(order, n.objs, memo, Elements(n.known)) {
      assert TipsSeen(order, memo, n, Err(Error.Other));
    } else {
      assert TipsSeen(order, memo, n, Ok(FrontierOn(order, n.objs, memo, Elements(n.known))));
    }
  }

  ghost predicate HandlesPartly(order: EntryOrder, memo: Memo, p: Profile, s: Link, n: Node, msg: Msg, s': Link, n': Node, r: Result<Step>) {
    match s.phase
    case AwaitHello => n' == n && Moves(OnHello(p, s, msg), s, s', r)
    case AwaitAuth(_, _) => n' == n && Authenticates(order, memo, p, s, n, msg, s', r)
    case Established =>
      if Absorbs(msg) then s' == Flushed(s, msg) && IntegratesPartly(order, memo, n, Integrated(s, msg), !msg.Live?, n', r)
      else n' == n && Replies(s, n, msg, s', r)
  }

  predicate Moves(outcome: Result<(Link, Step)>, s: Link, s': Link, r: Result<Step>) {
    match outcome
    case Ok((after, step)) => s' == after && r == Ok(step)
    case Err(e) => s' == s && r == Err(e)
  }

  /** The objects a message makes an established session integrate at once. */
  function Integrated(s: Link, msg: Msg): Batch {
    match msg
    case Objects(raws) => raws
    case Live(raws) => raws
    case ObjectsBatch(raws, isLast) => if isLast then s.pendingBatch + raws else []
    case _ => []
  }

  /** Nothing is left dangling by what this message makes the node integrate. */
  ghost predicate Closes(s: Link, n: Node, msg: Msg) {
    s.phase.Established? ==> AllDecode(Integrated(s, msg)) && Closed(PutAll(n.objs, Integrated(s, msg)))
  }

  // ---- The session ----

  class Session {
    const role: Role
    const channelBinding: Bytes
    const myNonce: Bytes
    const profile: Profile
    var phase: Phase
    var peerSsh: Option<SshKey>
    var enrollmentAuthorized: bool
    var pendingBatch: Batch

    function View(): Link
      reads this
    {
      Link(role, channelBinding, myNonce, phase, peerSsh, enrollmentAuthorized, pendingBatch)
    }

    constructor (role: Role, channelBinding: Bytes, nonce: Bytes, profile: Profile)
      ensures View() == Link(role, channelBinding, nonce, AwaitHello, None, false, []) && this.profile == profile
    {
      this.role, this.channelBinding, myNonce, this.profile := role, channelBinding, nonce, profile;
      phase, peerSsh, enrollmentAuthorized, pendingBatch := AwaitHello, None, false, [];
    }

    method SetEnrollmentAuthorized(ok: bool)
      modifies this`enrollmentAuthorized
      ensures View() == old(View()).(enrollmentAuthorized := ok)
    {
      enrollmentAuthorized := ok;
    }

    method OnMsg(v: MemEngine, msg: Msg) returns (r: Result<Step>)
      requires v.Usable()
      modifies this, v`main, v.store, v.caches, v.state
      ensures v.Usable()
      ensures HandlesPartly(v.store.order, old(v.caches.View()), profile, old(View()), old(v.View()), msg, View(), v.View(), r)
      ensures old(v.Valid() && Closes(View(), v.View(), msg)) ==>
        v.Valid() && Handles(profile, old(View()), old(v.View()), msg, View(), v.View(), r)
    {
      hide IntegratePartly, Integrates, IntegratesPartly, Replies, Workable, Closed, PutAll, FrontierOf, TipsSeen;
      match phase
      case AwaitHello =>
        r := HandleHello(msg);
      case AwaitAuth(script, peer) =>
        r := HandleAuth(v, msg, script, peer);
      case Established =>
        r := HandleEstablished(v, msg);
    }

    method HandleHello(msg: Msg) returns (r: Result<Step>)
      modifies this`phase
      ensures Moves(OnHello(profile, old(View()), msg), old(View()), View(), r)
    {
      if !msg.Hello? || msg.proto != PROTO_VERSION || msg.vaultId != profile.vaultId {
        return Err(Protocol);
      }
      var clientNonce, serverNonce := myNonce, msg.nonce;
      var agreed := msg.cb;
      if role.Listener? {
        clientNonce, serverNonce := msg.nonce, myNonce;
        agreed := channelBinding;
      } else if !BindingDisabled(msg.cb) && channelBinding != [] && channelBinding != msg.cb {
        return Err(ChannelBinding);
      }
      var script := Transcript(clientNonce, serverNonce, agreed);
      phase := AwaitAuth(script, msg.nodeSsh);
      return Ok(Step([AuthProof(Sign(profile.node, TranscriptPayload(script)))], [], 0));
    }

    method HandleAuth(v: MemEngine, msg: Msg, script: Bytes, peer: SshKey) returns (r: Result<Step>)
      requires phase == AwaitAuth(script, peer) && v.Usable()
      modifies this`phase, this`peerSsh, v.caches
      ensures v.Usable() && v.View() == old(v.View())
      ensures Authenticates(v.store.order, old(v.caches.View()), profile, old(View()), v.View(), msg, View(), r)
      ensures Closed(v.store.objs) ==>
        Moves(OnAuth(profile, old(View()), Ok(FrontierOf(Elements(v.state.known))), msg), old(View()), View(), r)
    {
      hide Workable, FrontierOf, TipsSeen, Closed;
      SomeTips(v.store.order, v.caches.View(), v.View());
      if !msg.AuthProof? {
        return Err(Protocol);
      }
      if peer.Unparsable? || !Ed25519.verify(peer.node, TranscriptPayload(script), msg.sig) {
        return Err(BadSignature);
      }
      if role.Listener? && !profile.admits(peer, enrollmentAuthorized) {
        return Err(Unauthorized);
      }
      var tips :- v.FrontierTips();
      peerSsh := Some(peer);
      phase := Established;
      return Ok(Step([FrontierDigest(Tips(tips))], [], 0));
    }

    method HandleEstablished(v: MemEngine, msg: Msg) returns (r: Result<Step>)
      requires phase.Established? && v.Usable()
      modifies this`pendingBatch, v`main, v.store, v.caches, v.state
      ensures v.Usable()
      ensures HandlesPartly(v.store.order, old(v.caches.View()), profile, old(View()), old(v.View()), msg, View(), v.View(), r)
      ensures old(v.Valid() && Closes(View(), v.View(), msg)) ==>
        v.Valid() && OnEstablished(old(View()), old(v.View()), msg, View(), v.View(), r)
    {
      hide IntegratesPartly, Integrates, Workable, Closed, PutAll, Frames, ReachableFrom, RawsOf, AllHeld, Wanted;
      hide Decoded, TipsSeen, True;
      match msg {
        case FrontierDigest(tips) =>
          var want := FindWanted(v, tips);
          return Ok(Step(if want == [] then [] else [WantTips(want)], [], 0));
        case WantTips(tips) =>
          var raws :- v.ExportClosure(Decoded(tips));
          var out := MakeFrames(raws);
          return Ok(Step(out, [], 0));
        case Objects(raws) =>
          r := Absorb(v, raws, true);
        case Live(raws) =>
          r := Absorb(v, raws, false);
        case ObjectsBatch(raws, isLast) =>
          var batch := pendingBatch + raws;
          if !isLast {
            pendingBatch := batch;
            return Ok(Step([], [], 0));
          }
          pendingBatch := [];
          r := Absorb(v, batch, true);
        case Ping =>
          return Ok(Step([Pong], [], 0));
        case Pong =>
          return Ok(Step([], [], 0));
        case _ =>
          return Err(Protocol);
      }
    }
  }

  /** Integrate a batch; the end of a catch-up also ends the bootstrap. */
  method Absorb(v: MemEngine, raws: Batch, catchUp: bool) returns (r: Result<Step>)
    requires v.Usable()
    modifies v`main, v.store, v.caches, v.state
    ensures v.Usable()
    ensures IntegratesPartly(v.store.order, old(v.caches.View()), old(v.View()), raws, catchUp, v.View(), r)
    ensures AllDecode(raws) && Closed(PutAll(old(v.store.objs), raws)) ==>
      v.Valid() && Integrates(old(v.View()), raws, catchUp, v.View(), r)
  {
    hide IntegrateResult, IntegratePartly, Workable, Closed, PutAll, AllDecode;
    ghost var memo := v.caches.View();
    var admitted := v.Integrate(raws);
    ghost var mid := v.View();
    if admitted.Err? {
      return Err(admitted.error);
    }
    if catchUp {
      v.MarkBootstrapComplete();
    }
    return Ok(Step([], if admitted.value > 0 then raws else [], admitted.value));
  }

  method FindWanted(v: MemEngine, tips: seq<Tip>) returns (want: seq<Tip>)
    ensures want == Wanted(tips, v.View())
  {
    want := [];
    for i := 0 to |tips|
      invariant want == Wanted(tips[..i], v.View())
    {
      assert tips[..i + 1][..i] == tips[..i];
      if tips[i].Some? && (tips[i].value !in v.store.objs || tips[i].value !in v.state.known) {
        want := want + [tips[i]];
      }
    }
    assert tips[..|tips|] == tips;
  }

  method MakeFrames(raws: Batch) returns (out: seq<Msg>)
    ensures out == Frames(raws)
  {
    hide Chunked;
    var chunks := ChunkObjects(raws, RawSize, CATCHUP_CHUNK_BYTES);
    if chunks == [] {
      return [ObjectsBatch([], true)];
    }
    out := [];
    for i := 0 to |chunks|
      invariant |out| == i && forall j :: 0 <= j < i ==> out[j] == ObjectsBatch(chunks[j], j + 1 == |chunks|)
    {
      out := out + [ObjectsBatch(chunks[i], i + 1 == |chunks|)];
    }
  }
}
