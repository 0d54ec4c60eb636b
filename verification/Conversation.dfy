/** Two engines and two sessions, driven message by message until nothing is left to hear
    (session.rs): whatever the schedule, every message is handled, the drive ends, and the engines
    agree on `main`. */
module Conversation {
  import opened Prelude
  import opened Objects
  import opened Store
  import opened Fold
  import opened State
  import opened GhostAdds
  import opened Engine
  import opened Runs
  import Session
  import opened Convergence

  ghost function PartyOf(s: Session.Session, v: MemEngine): Party
    reads s, v, v.store, v.state
  {
    Party(s.profile, s.View(), v.View())
  }

  /** The two sides share nothing but, if they run on one thread, the caches. */
  ghost predicate Apart(a: Session.Session, va: MemEngine, b: Session.Session, vb: MemEngine) {
    a != b && va != vb && va.store != vb.store && va.state != vb.state
  }

  /** Hand one side the next message it has to hear. */
  method HearNext(s: Session.Session, v: MemEngine, msg: Session.Msg, ghost x0: Party, ghost y0: Party, ghost authored: set<Oid>, ghost k: nat)
    returns (r: Result<Session.Step>)
    requires v.Valid() && Ready(x0, y0, authored) && PartyAt(PartyOf(s, v), x0, y0, authored, k)
    requires k < |Says(y0, x0)| && msg == Says(y0, x0)[k]
    modifies s, v`main, v.store, v.caches, v.state
    ensures v.Valid() && r.Ok?
    ensures Hears(old(PartyOf(s, v)), msg, PartyOf(s, v), r)
  {
    hide Ready, PartyAt, Says, HeardWell, Session.Handles, Session.Closes, Session.Integrated;
    ghost var x := PartyOf(s, v);
    NextMayBeHeard(x0, y0, authored, k, x);
    r := s.OnMsg(v, msg);
    Hear(x0, y0, authored, k, x, PartyOf(s, v), r);
    HeardWellIsOk(x0, y0, authored, k, PartyOf(s, v), r);
  }

  lemma HeardWellIsOk(x0: Party, y0: Party, authored: set<Oid>, k: nat, x: Party, r: Result<Session.Step>)
    requires HeardWell(x0, y0, authored, k, x, r)
    ensures r.Ok?
  {
  }

  /** The next message on either channel is the next one to hear. */
  lemma NextOnChannel(w0: Net, states: seq<Net>, reports: seq<Result<Session.Step>>, authored: set<Oid>, w: Net, i: nat, j: nat)
    requires Talked(w0, states, reports, authored, w, i, j)
    ensures Ready(w0.a, w0.b, authored) && Ready(w0.b, w0.a, authored)
    ensures PartyAt(w.a, w0.a, w0.b, authored, i) && PartyAt(w.b, w0.b, w0.a, authored, j)
    ensures w.toA != [] ==> i < |Says(w0.b, w0.a)| && w.toA[0] == Says(w0.b, w0.a)[i]
    ensures w.toB != [] ==> j < |Says(w0.a, w0.b)| && w.toB[0] == Says(w0.a, w0.b)[j]
    ensures i <= |Says(w0.b, w0.a)| && j <= |Says(w0.a, w0.b)|
  {
    hide PartyAt, Says, Said, Ready, Exchange;
    ReadyIsSymmetric(w0.a, w0.b, authored);
    Taken(Says(w0.b, w0.a), i, Said(w0.b, w0.a, j));
    Taken(Says(w0.a, w0.b), j, Said(w0.a, w0.b, i));
  }

  /** Let two ready sides talk until both channels are empty; at each point where both have
      something to hear, the schedule says whose turn it is. */
  method Converse(a: Session.Session, va: MemEngine, b: Session.Session, vb: MemEngine, schedule: nat -> bool, ghost authored: set<Oid>)
    returns (heard: nat, ghost states: seq<Net>, ghost reports: seq<Result<Session.Step>>)
    requires va.Valid() && vb.Valid() && Apart(a, va, b, vb) && Ready(PartyOf(a, va), PartyOf(b, vb), authored)
    modifies a, va`main, va.store, va.caches, va.state, b, vb`main, vb.store, vb.caches, vb.state
    ensures va.Valid() && vb.Valid() && va.main == vb.main && va.main.Some?
    ensures a.phase.Established? && b.phase.Established?
    ensures heard == |reports| && Exchange(states, reports, authored)
    ensures states[0].a == old(PartyOf(a, va)) && states[0].b == old(PartyOf(b, vb))
    ensures states[heard] == Net(PartyOf(a, va), PartyOf(b, vb), [], [])
  {
    hide Ready, PartyAt, Says, Said, Hears, NetAt, Exchange, Consistent, Talked;
    var toB, toA := [Session.Start(a.profile, a.View())], [Session.Start(b.profile, b.View())];
    ghost var w0 := Net(PartyOf(a, va), PartyOf(b, vb), toA, toB);
    ghost var w, i: nat, j: nat := w0, 0, 0;
    states, reports, heard := [w0], [], 0;
    TalkStarts(w0, authored);
    while toA != [] || toB != []
      invariant va.Valid() && vb.Valid()
      invariant w == Net(PartyOf(a, va), PartyOf(b, vb), toA, toB)
      invariant Talked(w0, states, reports, authored, w, i, j) && heard == i + j
      decreases |Says(w0.b, w0.a)| + |Says(w0.a, w0.b)| - i - j
    {
      NextOnChannel(w0, states, reports, authored, w, i, j);
      ghost var before := w;
      var r: Result<Session.Step>;
      if toB == [] || (toA != [] && schedule(heard)) {
        r := HearNext(a, va, toA[0], w0.a, w0.b, authored, i);
        toA, toB := toA[1..], toB + r.value.out;
        w := Net(PartyOf(a, va), PartyOf(b, vb), toA, toB);
        ATalks(w0, states, reports, authored, before, i, j, w, r);
        i := i + 1;
      } else {
        r := HearNext(b, vb, toB[0], w0.b, w0.a, authored, j);
        toB, toA := toB[1..], toA + r.value.out;
        w := Net(PartyOf(a, va), PartyOf(b, vb), toA, toB);
        BTalks(w0, states, reports, authored, before, i, j, w, r);
        j := j + 1;
      }
      states, reports, heard := states + [w], reports + [r], heard + 1;
    }
    TalkEnds(w0, states, reports, authored, w, i, j);
  }

  /** An exchange so far: what was heard, and where that has led. */
  ghost predicate Talked(w0: Net, states: seq<Net>, reports: seq<Result<Session.Step>>, authored: set<Oid>, w: Net, i: nat, j: nat) {
    && Exchange(states, reports, authored) && states[0] == w0 && states[|reports|] == w
    && NetInit(w0, authored) && NetAt(w, w0, authored, i, j) && |reports| == i + j
  }

  lemma TalkStarts(w: Net, authored: set<Oid>)
    requires NetInit(w, authored)
    ensures Talked(w, [w], [], authored, w, 0, 0)
  {
    hide NetInit, NetAt;
    NetStarts(w, authored);
    ExchangeStarts(w, authored);
  }

  lemma ATalks(w0: Net, states: seq<Net>, reports: seq<Result<Session.Step>>, authored: set<Oid>, w: Net, i: nat, j: nat,
      w': Net, r: Result<Session.Step>)
    requires Talked(w0, states, reports, authored, w, i, j) && AHears(w, w', r)
    ensures Talked(w0, states + [w'], reports + [r], authored, w', i + 1, j)
  {
    hide NetInit, NetAt, AHears, Exchange;
    AStep(w, w', r, w0, authored, i, j);
    ExchangeGrows(states, reports, authored, w', r);
    StatesBefore(states, reports, authored);
  }

  lemma BTalks(w0: Net, states: seq<Net>, reports: seq<Result<Session.Step>>, authored: set<Oid>, w: Net, i: nat, j: nat,
      w': Net, r: Result<Session.Step>)
    requires Talked(w0, states, reports, authored, w, i, j) && BHears(w, w', r)
    ensures Talked(w0, states + [w'], reports + [r], authored, w', i, j + 1)
  {
    hide NetInit, NetAt, BHears, Exchange;
    BStep(w, w', r, w0, authored, i, j);
    ExchangeGrows(states, reports, authored, w', r);
    StatesBefore(states, reports, authored);
  }

  lemma StatesBefore(states: seq<Net>, reports: seq<Result<Session.Step>>, authored: set<Oid>)
    requires Exchange(states, reports, authored)
    ensures |states| == |reports| + 1
  {
    hide NetInit, NetNext;
  }

  lemma TalkEnds(w0: Net, states: seq<Net>, reports: seq<Result<Session.Step>>, authored: set<Oid>, w: Net, i: nat, j: nat)
    requires Talked(w0, states, reports, authored, w, i, j) && w.toA == [] && w.toB == []
    ensures Exchange(states, reports, authored) && states[0] == w0 && states[|reports|] == w && |reports| == i + j
    ensures w.a.link.phase.Established? && w.b.link.phase.Established? && w.a.node.main == w.b.node.main && w.a.node.main.Some?
  {
    hide NetInit, NetAt, Exchange;
    StatesBefore(states, reports, authored);
    ExchangeConverges(states, reports, authored);
  }

  lemma ExchangeStarts(w: Net, authored: set<Oid>)
    requires NetInit(w, authored)
    ensures Exchange([w], [], authored)
  {
    hide NetInit;
  }

  lemma ExchangeGrows(states: seq<Net>, reports: seq<Result<Session.Step>>, authored: set<Oid>, w: Net, r: Result<Session.Step>)
    requires Exchange(states, reports, authored) && NetNext(states[|reports|], w, r)
    ensures Exchange(states + [w], reports + [r], authored)
  {
    hide NetInit, NetNext;
    var ss, rs := states + [w], reports + [r];
    forall i | 0 <= i < |rs|
      ensures NetNext(ss[i], ss[i + 1], rs[i])
    {
      if i < |reports| {
        assert NetNext(states[i], states[i + 1], reports[i]);
      }
    }
  }
}
