/** Nodes from which something is missing (fold.rs, engine.rs, session.rs). A live push may leave a
    primitive's history cut off. The ghost-add check then keeps the primitive, but the frontier cannot
    be told any more: what that means for `main`, for the next handshake, and for ever getting what is
    missing. */
module Partial {
  import opened Prelude
  import opened Objects
  import opened Store
  import opened Dag
  import opened Order
  import opened Touch
  import opened GhostAdds
  import opened Fold
  import opened FoldLaws
  import opened Signing
  import opened TreeCodec
  import opened Reach
  import opened State
  import opened Materialize
  import opened Engine
  import opened CommitLaws
  import opened Runs
  import opened Delivery
  import Session
  import opened Scenarios
  import opened Lost

  /** A known primitive that is no ghost-add, and whose history the store does not hold in full. */
  ghost predicate CutOff(n: Node, o: Oid) {
    o in n.known && o in n.objs && IsPrimitive(o) && !GhostAdd(o) && !Walkable(n.objs, o)
  }

  /** Whatever a cache holds, and from wherever: the frontier cannot be told. */
  lemma CutOffCuts(order: EntryOrder, memo: Memo, n: Node, o: Oid)
    requires True(memo) && CutOff(n, o)
    ensures Cut(order, n.objs, memo, Elements(n.known))
  {
    hide True, GhostAdd, Recalled, Walkable, IsPrimitive;
    RecalledIsTrue(order, n.objs, memo, o);
    assert o in EffectiveOn(order, n.objs, memo, Elements(n.known));
  }

  // ---- No way out ----

  /** A proof is accepted if and only if it would be on a complete node, and the frontier, which the
      node advertises in return, can be told. */
  lemma AuthSucceedsIff(order: EntryOrder, memo: Memo, p: Session.Profile, s: Session.Link, n: Node, msg: Session.Msg,
      s': Session.Link, n': Node, r: Result<Session.Step>)
    requires s.phase.AwaitAuth? && Session.HandlesPartly(order, memo, p, s, n, msg, s', n', r)
    ensures r.Ok? <==> Session.OnAuth(p, s, Ok([]), msg).Ok? && !Cut(order, n.objs, memo, Elements(n.known))
    ensures s'.phase.Established? <==> r.Ok?
  {
    hide Cut, FrontierOn;
  }

  /** So no handshake of such a node succeeds, whatever the peer sends. */
  lemma NoHandshake(order: EntryOrder, memo: Memo, p: Session.Profile, s: Session.Link, n: Node, msg: Session.Msg,
      s': Session.Link, n': Node, r: Result<Session.Step>, o: Oid)
    requires True(memo) && CutOff(n, o) && s.phase.AwaitAuth?
    requires Session.HandlesPartly(order, memo, p, s, n, msg, s', n', r)
    ensures r.Err? && !s'.phase.Established? && n' == n
  {
    hide True, CutOff, Cut, FrontierOn;
    CutOffCuts(order, memo, n, o);
    AuthSucceedsIff(order, memo, p, s, n, msg, s', n', r);
  }

  /** Nor does it ever ask for what is missing: a tip it holds and knows is not wanted. */
  lemma {:induction false} NeverWanted(n: Node, o: Oid, tips: seq<Session.Tip>)
    requires o in n.known && o in n.objs
    ensures Some(o) !in Session.Wanted(tips, n)
  {
    if tips != [] {
      NeverWanted(n, o, tips[..|tips| - 1]);
    }
  }

  lemma {:induction false} PutIncludes(m: ObjectMap, raws: Batch)
    requires Addressed(m)
    ensures Addressed(PutAll(m, raws)) && Includes(m, PutAll(m, raws))
    decreases |raws|
  {
    if raws != [] && raws[0].Some? {
      var obj := raws[0].value;
      if Sha(obj) in m {
        ShaInjective(m[Sha(obj)], obj);
      }
      PutIncludes(m[Sha(obj) := obj], raws[1..]);
    }
  }

  /** It stays so, and `main` stays as it was, until what is missing arrives. */
  lemma StaysCutOff(order: EntryOrder, memo: Memo, n: Node, raws: Batch, n': Node, r: Result<nat>, o: Oid)
    requires True(memo) && Workable(n) && CutOff(n, o) && IntegratePartly(order, memo, n, raws, n', r)
    requires !Walkable(n'.objs, o)
    ensures CutOff(n', o) && n'.main == n.main
  {
    hide True, GhostAdd, Walkable, IsPrimitive, Cut, PutAll, ObserveAll, Spoiled, Refusable, FrontierOn, FoldTips;
    hide Grown, Admit;
    PutIncludes(n.objs, raws);
    AdmitOnlyAdds(n.known, raws);
    GrownIncludes(n.objs, PutAll(n.objs, raws), n'.objs);
    var known := Admit(n.known, raws);
    if AllDecode(raws) && AdmitsPartly(order, memo, n, raws, n', r) && known != n.known {
      var m :| FoldsOver(order, memo, PutAll(n.objs, raws), m, raws, known, n', r);
      LessIsWalkable(m, n'.objs, o);
      assert o in m;
      CutOffCuts(order, memo, n.(objs := m, known := known), o);
    }
  }

  lemma GrownIncludes(a: ObjectMap, b: ObjectMap, c: ObjectMap)
    requires Includes(a, b)
    ensures Grown(b, c) ==> Includes(a, c)
  {
  }

  lemma LessIsWalkable(m: ObjectMap, m': ObjectMap, o: Oid)
    requires Extends(m, m') && !Walkable(m', o)
    ensures !Walkable(m, o)
  {
    hide Ancestors;
  }

  // ---- How a node gets there ----

  lemma PushHasNoFolds(sender: ObjectMap, o: Oid)
    requires Addressed(sender) && Closed(sender) && HasCommit(sender, o) && IsPrimitive(o)
    ensures AllDecode(PushOf(o)) && forall obj :: Some(obj) in PushOf(o) && obj.Commit? ==> Sha(obj) == o && Primitive(obj.commit)
    ensures Preimage(o) in PushOf(o) && Preimage(o).Some?
  {
    hide Reachable, Closed, RawsOf;
    Touch.ClosedCommit(sender, o);
    TreeIsHeld(sender, TreeOf(o));
    PushDecodes(sender, o);
    AddressedPreimage(sender, o);
    forall obj | Some(obj) in PushOf(o) && obj.Commit?
      ensures Sha(obj) == o && Primitive(obj.commit)
    {
      PreimageOfSha(obj);
    }
  }

  lemma {:induction false} PutCommits(m: ObjectMap, raws: Batch, o: Oid, p: Oid)
    requires AllDecode(raws) && p != o && !HasCommit(m, p)
    requires forall obj :: Some(obj) in raws && obj.Commit? ==> Sha(obj) == o
    ensures !HasCommit(PutAll(m, raws), p)
  {
    if HasCommit(PutAll(m, raws), p) {
      PutAllHas(m, raws, p);
      assert false;
    }
  }

  /** A live push of a primitive cuts its history off at the receiver if and only if the receiver does
      not hold the fold commit it was made on. The push then fails, after the primitive became known. */
  lemma PushCutsOff(order: EntryOrder, memo: Memo, n: Node, sender: ObjectMap, o: Oid, parent: Oid, n': Node, r: Result<nat>)
    requires True(memo) && Consistent(n) && Addressed(sender) && Closed(sender) && HasCommit(sender, o)
    requires IsPrimitive(o) && VerifyPrimitive(CommitAt(o).value) && !GhostAdd(o) && Parents(o) == [parent] && o !in n.known
    requires IntegratePartly(order, memo, n, PushOf(o), n', r)
    ensures n'.known == n.known + [o]
    ensures CutOff(n', o) <==> !HasCommit(n.objs, parent)
    ensures CutOff(n', o) ==> r.Err? && n'.main == n.main
  {
    hide True, GhostAdd, Cut, PutAll, ObserveAll, Spoiled, Refusable, FrontierOn, FoldTips, Grown, Admit, Closed;
    hide PushOf, AllDecode, VerifyPrimitive, Walkable, FoldValid, SpineHeld;
    var raws := PushOf(o);
    PushHasNoFolds(sender, o);
    OneAdmitted(n.known, raws, o);
    PutIncludes(n.objs, raws);
    assert !Refusable(PutAll(n.objs, raws), raws) by { NothingToRefuse(PutAll(n.objs, raws), raws, o); }
    var m :| FoldsOver(order, memo, PutAll(n.objs, raws), m, raws, n.known + [o], n', r);
    assert m == PutAll(n.objs, raws);
    AllArePut(n.objs, raws);
    OnlyOwnParent(o, parent);
    if HasCommit(n.objs, parent) {
      ParentMakesWalkable(n.objs, m, n'.objs, o, parent);
    } else {
      PutCommits(n.objs, raws, o, parent);
      CutAtParent(m, o, parent);
      CutOffCuts(order, memo, n.(objs := m, known := n.known + [o]), o);
    }
  }

  lemma NothingToRefuse(m: ObjectMap, raws: Batch, o: Oid)
    requires forall obj :: Some(obj) in raws && obj.Commit? ==> Sha(obj) == o && Primitive(obj.commit)
    ensures !Refusable(m, raws)
  {
    hide FoldValid, SpineHeld;
  }

  lemma OnlyOwnParent(o: Oid, parent: Oid)
    requires Parents(o) == [parent]
    ensures parent != o && parent in Lineage(o) && Lineage(o) == {o} + Lineage(parent)
  {
    hide Ancestors;
    LineageOfOne(o, parent);
    ParentIsAncestor(o, parent);
    AncestorRank(o, parent);
  }

  lemma CutAtParent(m: ObjectMap, o: Oid, parent: Oid)
    requires parent in Lineage(o) && !HasCommit(m, parent)
    ensures !Walkable(m, o)
  {
    hide Ancestors;
  }

  lemma ParentMakesWalkable(before: ObjectMap, m: ObjectMap, after: ObjectMap, o: Oid, parent: Oid)
    requires Addressed(before) && Closed(before) && HasCommit(before, parent) && Lineage(o) == {o} + Lineage(parent)
    requires Includes(before, m) && Extends(m, after) && HasCommit(m, o)
    ensures Walkable(after, o)
  {
    hide Ancestors, Closed, Addressed;
    ClosedIsWalkable(before, parent);
  }

  lemma {:induction false} OneAdmitted(known: seq<Oid>, raws: Batch, o: Oid)
    requires forall obj :: Some(obj) in raws && obj.Commit? ==> Sha(obj) == o
    requires IsPrimitive(o) && VerifyPrimitive(CommitAt(o).value) && o !in known
    ensures Admit(known, raws) == if Preimage(o) in raws then known + [o] else known
  {
    hide VerifyPrimitive;
    if raws != [] {
      var k := |raws| - 1;
      assert raws == raws[..k] + [raws[k]];
      OneAdmitted(known, raws[..k], o);
      if raws[k].Some? {
        PreimageOfSha(raws[k].value);
      }
    }
  }

  // ---- And when it arrives ----

  /** Getting what was missing is not enough: a batch that brings no new primitive computes no `main`,
      so the one there leaves out the primitive that was cut off. */
  lemma BackfillIsNotEnough(order: EntryOrder, memo: Memo, n: Node, raws: Batch, n': Node, r: Result<nat>, o: Oid)
    requires Workable(n) && o in Effective(Elements(n.known)) && n.main.Some? && o !in Ancestors(n.main.value)
    requires IntegratePartly(order, memo, n, raws, n', r)
    requires forall raw :: raw in raws && Admissible(raw) ==> Sha(raw.value) in n.known
    ensures n'.known == n.known && n'.main == n.main
    ensures n'.main != Some(MainOf(Elements(n'.known)))
  {
    hide PutAll, ObserveAll, Spoiled, Refusable, Grown, AllDecode, Ancestors, MainOf, Effective, Admissible, FoldsOver;
    NothingToAdmit(n.known, raws);
    EffectiveBelowMain(Elements(n.known), o);
  }

  lemma {:induction false} NothingToAdmit(known: seq<Oid>, raws: Batch)
    requires forall raw :: raw in raws && Admissible(raw) ==> Sha(raw.value) in known
    ensures Admit(known, raws) == known
  {
    hide Admissible;
    if raws != [] {
      var k := |raws| - 1;
      assert raws[k] in raws && forall raw :: raw in raws[..k] ==> raw in raws;
      NothingToAdmit(known, raws[..k]);
    }
  }

  // ---- It happens ----

  lemma FreshLacks(o: Oid)
    ensures !HasCommit(map[Sha(EMPTY_TREE) := EMPTY_TREE, M0() := Genesis()], Wrapper(o))
  {
    hide M0, Wrapper;
    GenesisCommit();
    WrapperCommit(o);
    PreimageOfSha(EMPTY_TREE);
  }

  /** A new node that has committed twice. */
  method TwoCommits(a: NodeId, order: EntryOrder, thread: Caches, p: Path, content: Bytes) returns (e: MemEngine, first: Oid, o: Oid)
    requires thread.Valid()
    modifies thread
    ensures fresh(e) && fresh(e.store) && fresh(e.state) && e.Valid() && e.caches == thread
    ensures HasCommit(e.store.objs, o) && IsPrimitive(o) && !GhostAdd(o) && VerifyPrimitive(CommitAt(o).value)
    ensures Parents(o) == [Wrapper(first)]
  {
    hide Honest, HonestHistory, Workable, Closed, Wrapper, FrontierOf, TreeId, M0, True, HashesOf, Grown;
    hide VerifyPrimitive, Fresh, GhostAdd, IsPrimitive;
    e := FreshNode(a, order, thread);
    FreshHonest(e.View(), {});
    FreshIsEmpty(e.View());
    NothingAuthored();
    FileCounts(p, content);
    ghost var authored;
    first, authored := Publish(e, map[p := content], {});
    o, authored := Publish(e, map[], authored);
    AuthoredIsHeld(e.View(), authored, o);
  }

  lemma FileCounts(p: Path, content: Bytes)
    ensures HashesOf(map[p := content]) != map[] && HashesOf(map[]) == map[]
  {
    assert p in HashesOf(map[p := content]);
  }

  lemma FreshIsEmpty(n: Node)
    requires Fresh(n)
    ensures n.known == [] && n.main == Some(M0()) && n.materialized == map[] && !n.bootstrapPending
  {
    hide Grown, M0;
  }

  lemma AuthoredIsHeld(n: Node, authored: set<Oid>, o: Oid)
    requires HonestHistory(authored) && Honest(n, authored) && o in authored && o in n.known
    ensures HasCommit(n.objs, o) && VerifyPrimitive(CommitAt(o).value)
  {
    hide VerifyPrimitive, Closed, Ancestors, RisesTo;
    AddressedPreimage(n.objs, o);
    assert SoundCommit(o);
  }

  lemma PushFails(order: EntryOrder, memo: Memo, n: Node, sender: ObjectMap, o: Oid, raws: Batch, n': Node, r: Result<nat>)
    requires True(memo) && Consistent(n) && n.known == [] && Addressed(sender) && Closed(sender) && HasCommit(sender, o)
    requires IsPrimitive(o) && VerifyPrimitive(CommitAt(o).value) && !GhostAdd(o) && |Parents(o)| == 1
    requires !HasCommit(n.objs, Parents(o)[0])
    requires raws == [Preimage(o)] + RawsOf(NewUnder(o)) && IntegratePartly(order, memo, n, raws, n', r)
    ensures r.Err? && n'.known == [o] && n'.main == n.main && CutOff(n', o)
  {
    hide True, Consistent, Closed, Addressed, VerifyPrimitive, GhostAdd, IsPrimitive, IntegratePartly, CutOff;
    PushCutsOff(order, memo, n, sender, o, Parents(o)[0], n', r);
  }

  /** Both ends say hello; the connector's proof is one the listener has no fault to find with. */
  method Greet(vault: string, x: Session.Session, v: MemEngine, y: Session.Session, w: MemEngine) returns (proof: Session.Msg)
    requires v.Usable() && w.Usable() && v != w && v.store != w.store && v.state != w.state && x != y
    requires x.profile == Session.Profile(vault, "", v.node, AdmitAll()) && y.profile == Session.Profile(vault, "", w.node, AdmitAll())
    requires x.View() == Session.Link(Session.Listener, [], [1], Session.AwaitHello, None, false, [])
    requires y.View() == Session.Link(Session.Connector, [], [2], Session.AwaitHello, None, false, [])
    modifies x, v`main, v.store, v.caches, v.state, y, w`main, w.store, w.caches, w.state
    ensures v.Usable() && v.View() == old(v.View())
    ensures x.phase.AwaitAuth? && Session.OnAuth(x.profile, x.View(), Ok([]), proof).Ok?
  {
    hide Workable, True, Sign, Session.HandlesPartly, Session.Handles, Session.Closes, Session.OnHello, Session.OnAuth;
    var helloX, helloY := Session.Start(x.profile, x.View()), Session.Start(y.profile, y.View());
    ghost var memo, n, s := v.caches.View(), v.View(), x.View();
    GreetingsFit(x.profile, s, y.profile, y.View());
    var rx := x.OnMsg(v, helloY);
    HelloHeard(v.store.order, memo, x.profile, s, n, helloY, x.View(), v.View(), rx);
    memo, n, s := w.caches.View(), w.View(), y.View();
    var ry := y.OnMsg(w, helloX);
    HelloHeard(w.store.order, memo, y.profile, s, n, helloX, y.View(), w.View(), ry);
    proof := ry.value.out[0];
  }

  /** A listener and a connector of one vault: each takes the other's greeting, and the listener the
      connector's proof. */
  lemma GreetingsFit(p: Session.Profile, s: Session.Link, q: Session.Profile, t: Session.Link)
    requires p == Session.Profile(q.vaultId, "", p.node, AdmitAll()) && q == Session.Profile(p.vaultId, "", q.node, AdmitAll())
    requires s == Session.Link(Session.Listener, [], [1], Session.AwaitHello, None, false, [])
    requires t == Session.Link(Session.Connector, [], [2], Session.AwaitHello, None, false, [])
    ensures var hs, ht := Session.OnHello(p, s, Session.Start(q, t)), Session.OnHello(q, t, Session.Start(p, s));
      && hs.Ok? && hs.value.0.phase.AwaitAuth? && ht.Ok? && |ht.value.1.out| == 1
      && Session.OnAuth(p, hs.value.0, Ok([]), ht.value.1.out[0]).Ok?
  {
    hide Sign;
    SignedIsAccepted(q.node, Session.Transcript([2], [1], []));
  }

  lemma HelloHeard(order: EntryOrder, memo: Memo, p: Session.Profile, s: Session.Link, n: Node, msg: Session.Msg,
      s': Session.Link, n': Node, r: Result<Session.Step>)
    requires s.phase.AwaitHello? && Session.HandlesPartly(order, memo, p, s, n, msg, s', n', r)
    ensures n' == n && Session.Moves(Session.OnHello(p, s, msg), s, s', r)
  {
  }

  lemma SignedIsAccepted(node: NodeId, script: Bytes)
    ensures Ed25519.verify(node, TranscriptPayload(script), Sign(node, TranscriptPayload(script)))
  {
    assert Correct(Ed25519);
  }

  /** The second commit is pushed to a new node, which holds neither the first nor its fold. */
  method PushAlone(sender: MemEngine, receiver: MemEngine, first: Oid, o: Oid) returns (pushed: Result<nat>)
    requires sender.Valid() && receiver.Valid() && sender != receiver && sender.store != receiver.store && sender.state != receiver.state
    requires HasCommit(sender.store.objs, o) && IsPrimitive(o) && !GhostAdd(o) && VerifyPrimitive(CommitAt(o).value)
    requires Parents(o) == [Wrapper(first)]
    requires receiver.state.known == [] && receiver.store.objs == map[Sha(EMPTY_TREE) := EMPTY_TREE, M0() := Genesis()]
    modifies receiver`main, receiver.store, receiver.caches, receiver.state`known, receiver.state`observed
    ensures sender.Valid() && receiver.Usable() && CutOff(receiver.View(), o)
    ensures pushed.Err? && receiver.state.known == [o] && receiver.main == old(receiver.main)
  {
    hide Workable, Closed, Addressed, CutOff, IntegratePartly, M0, True, GhostAdd, VerifyPrimitive, IsPrimitive;
    hide Wrapper, PutAll;
    ghost var n, memo := receiver.View(), receiver.caches.View();
    EngineIsComplete(sender);
    EngineIsComplete(receiver);
    FreshLacks(first);
    var raws := sender.ExportPrimitive(o);
    pushed := receiver.Integrate(raws.value);
    PushFails(receiver.store.order, memo, n, sender.store.objs, o, raws.value, receiver.View(), pushed);
  }

  /** A node that is cut off meets another, which proves itself as it should, and is refused. */
  method MeetInVain(vault: string, receiver: MemEngine, sender: MemEngine, ghost o: Oid)
    returns (proof: Session.Msg, ghost link: Session.Link, met: Result<Session.Step>)
    requires receiver.Usable() && sender.Usable() && CutOff(receiver.View(), o)
    requires sender != receiver && sender.store != receiver.store && sender.state != receiver.state
    modifies receiver`main, receiver.store, receiver.caches, receiver.state, sender`main, sender.store, sender.caches, sender.state
    ensures link.phase.AwaitAuth? && Session.OnAuth(Session.Profile(vault, "", receiver.node, AdmitAll()), link, Ok([]), proof).Ok?
    ensures met.Err?
  {
    hide Workable, CutOff, True, Session.HandlesPartly, Session.OnAuth;
    var x, y := TwoEnds(vault, receiver.node, sender.node);
    proof := Greet(vault, x, receiver, y, sender);
    link := x.View();
    ghost var memo, n := receiver.caches.View(), receiver.View();
    met := x.OnMsg(receiver, proof);
    NoHandshake(receiver.store.order, memo, x.profile, link, n, proof, x.View(), receiver.View(), met, o);
  }

  lemma EngineIsComplete(e: MemEngine)
    requires e.Valid()
    ensures Consistent(e.View()) && e.Usable() && Addressed(e.store.objs) && Closed(e.store.objs) && True(e.caches.View())
  {
  }

  /** A node commits twice, and a new one hears only the second commit, as a live push. The push fails,
      `main` stays the root although the commit is known, and when the two then meet, a proof that any
      complete node would accept is refused. */
  method DanglingPush(vault: string, a: NodeId, b: NodeId, order: EntryOrder, thread: Caches, p: Path, content: Bytes)
    returns (o: Oid, pushed: Result<nat>, known: seq<Oid>, main: Option<Oid>,
      proof: Session.Msg, ghost link: Session.Link, met: Result<Session.Step>)
    requires thread.Valid()
    modifies thread
    ensures pushed.Err? && known == [o] && main == Some(M0())
    ensures link.phase.AwaitAuth? && Session.OnAuth(Session.Profile(vault, "", b, AdmitAll()), link, Ok([]), proof).Ok? && met.Err?
  {
    hide Workable, Closed, CutOff, M0, True, Session.OnAuth, GhostAdd, VerifyPrimitive, IsPrimitive, Wrapper, Fresh;
    var sender, first;
    sender, first, o := TwoCommits(a, order, thread, p, content);
    var receiver := FreshNode(b, order, thread);
    FreshIsEmpty(receiver.View());
    pushed := PushAlone(sender, receiver, first, o);
    known, main := receiver.state.known, receiver.main;
    EngineIsComplete(sender);
    proof, link, met := MeetInVain(vault, receiver, sender, o);
  }
}
