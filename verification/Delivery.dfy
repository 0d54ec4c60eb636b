/** What nodes send each other (engine.rs): the closure of some tips, or one primitive with what it
    adds. When a batch leaves nothing dangling, and what a receiver knows after it. */
module Delivery {
  import opened Prelude
  import opened Objects
  import opened Store
  import opened Dag
  import opened Order
  import Touch
  import opened Fold
  import opened CommitLaws
  import opened FoldLaws
  import opened Reach
  import opened Engine
  import opened Runs

  ghost function ClosureOf(tips: seq<Oid>): Batch {
    RawsOf(ReachableFrom(Elements(tips)))
  }

  ghost function PushOf(o: Oid): Batch {
    [Preimage(o)] + RawsOf(NewUnder(o))
  }

  /** A batch taken from a closed store leaves nothing dangling in a closed store, as long as
      everything it refers to arrives or is there already. */
  lemma BatchCloses(m: ObjectMap, sender: ObjectMap, raws: Batch)
    requires Addressed(m) && Closed(m) && Addressed(sender) && Closed(sender) && AllDecode(raws)
    requires forall r :: r in raws ==> r.Some? && Sha(r.value) in sender
    requires forall r, ref :: r in raws && r.Some? && ref in Refs(r.value) ==> ref in PutAll(m, raws)
    ensures Closed(PutAll(m, raws))
  {
    AllArePut(m, raws);
    var after := PutAll(m, raws);
    forall o | o in after
      ensures RefsHeld(after, after[o])
    {
      PutAllHas(m, raws, o);
      if o in m && after[o] == m[o] {
        assert RefsHeld(m, m[o]);
      } else {
        StoresAgree(after, sender, o);
        assert RefsHeld(sender, sender[o]);
        assert Some(after[o]) in raws;
        forall ref | ref in Refs(after[o])
          ensures ref in sender ==> after[ref] == sender[ref]
        {
          if ref in sender {
            StoresAgree(after, sender, ref);
          }
        }
      }
    }
  }

  lemma RawsDecode(m: ObjectMap, s: set<Oid>)
    requires Addressed(m) && AllHeld(m, s)
    ensures AllDecode(RawsOf(s))
    ensures forall r :: r in RawsOf(s) ==> r.Some? && Sha(r.value) in s && Sha(r.value) in m
    ensures forall o :: o in s ==> Some(m[o]) in RawsOf(s)
  {
    forall r | r in RawsOf(s)
      ensures r.Some? && Sha(r.value) in s && Sha(r.value) in m
    {
      RawsHas(s, r);
      var o :| o in s && r == Preimage(o);
      AddressedPreimage(m, o);
    }
    forall o | o in s
      ensures Some(m[o]) in RawsOf(s)
    {
      AddressedPreimage(m, o);
      RawsHas(s, Some(m[o]));
    }
  }

  lemma ReachIsHeld(m: ObjectMap, tips: seq<Oid>)
    requires Addressed(m) && Closed(m) && forall t :: t in tips ==> t in m
    ensures AllHeld(m, ReachableFrom(Elements(tips)))
    ensures forall o, r :: o in ReachableFrom(Elements(tips)) && r in RefsAt(o) ==> r in ReachableFrom(Elements(tips))
  {
    hide RefsAt, Reachable, Addressed, Closed;
    var s := ReachableFrom(Elements(tips));
    forall o | o in s
      ensures o in m && forall r :: r in RefsAt(o) ==> r in s
    {
      var t :| t in Elements(tips) && o in Reachable(t);
      CommitsReachedAreHistory(m, t);
      assert o in m;
      ReachableIsRefClosed(t);
      forall r | r in RefsAt(o)
        ensures r in s
      {
        assert r in Reachable(t);
      }
    }
  }

  /** The closure of tips a closed store holds decodes, and closes any closed store. */
  lemma ClosureIsClosed(m: ObjectMap, sender: ObjectMap, tips: seq<Oid>)
    requires Addressed(m) && Closed(m) && Addressed(sender) && Closed(sender)
    requires forall t :: t in tips ==> t in sender
    ensures AllDecode(ClosureOf(tips)) && Closed(PutAll(m, ClosureOf(tips)))
  {
    hide ReachableFrom, Reachable, Closed, Addressed, PutAll, AllDecode;
    var s := ReachableFrom(Elements(tips));
    ReachIsHeld(sender, tips);
    RawsDecode(sender, s);
    AllArePut(m, ClosureOf(tips));
    forall r, ref | r in ClosureOf(tips) && r.Some? && ref in Refs(r.value)
      ensures ref in PutAll(m, ClosureOf(tips))
    {
      PreimageOfSha(r.value);
      assert ref in RefsAt(Sha(r.value));
      assert ref in s;
      assert Some(sender[ref]) in ClosureOf(tips);
      AddressedAt(sender, ref);
    }
    BatchCloses(m, sender, ClosureOf(tips));
  }

  lemma AddressedAt(m: ObjectMap, o: Oid)
    requires Addressed(m) && o in m
    ensures Sha(m[o]) == o
  {
  }

  /** Its commits are exactly the history of the tips. */
  lemma ClosureCommits(sender: ObjectMap, tips: seq<Oid>, obj: GitObject)
    requires Addressed(sender) && Closed(sender) && forall t :: t in tips ==> HasCommit(sender, t)
    requires obj.Commit?
    ensures Some(obj) in ClosureOf(tips) <==> exists t :: t in tips && Sha(obj) in Lineage(t)
  {
    hide Reachable, Closed, Addressed, Ancestors, RawsOf;
    var s := ReachableFrom(Elements(tips));
    RawsHas(s, Some(obj));
    PreimageOfSha(obj);
    if Some(obj) in ClosureOf(tips) {
      var o :| o in s && Some(obj) == Preimage(o);
      PreimageSound(o);
      var t :| t in Elements(tips) && o in Reachable(t);
      CommitsReachedAreHistory(sender, t);
    }
    if t :| t in tips && Sha(obj) in Lineage(t) {
      HistoryIsReachable(t);
      assert t in Elements(tips) && Sha(obj) in Reachable(t);
    }
  }

  lemma ClosurePrimitives(sender: ObjectMap, tips: seq<Oid>, o: Oid)
    requires Addressed(sender) && Closed(sender) && forall t :: t in tips ==> HasCommit(sender, t)
    ensures o in PrimitivesBelowAll(tips) <==> exists obj :: Some(obj) in ClosureOf(tips) && IsEdit(obj) && o == Sha(obj)
  {
    hide Closed, Addressed, Ancestors, ClosureOf;
    if o in PrimitivesBelowAll(tips) {
      var t :| t in tips && o in PrimitivesBelow(t);
      var obj := Commit(CommitAt(o).value);
      PreimageSound(o);
      ClosureCommits(sender, tips, obj);
    }
    if obj :| Some(obj) in ClosureOf(tips) && IsEdit(obj) && o == Sha(obj) {
      ClosureCommits(sender, tips, obj);
      var t :| t in tips && Sha(obj) in Lineage(t);
      PreimageOfSha(obj);
      assert o in PrimitivesBelow(t);
    }
  }

  /** Catching up: an honest node that integrates the closure of another honest node's tips knows
      exactly what it knew and the primitives below those tips, and is honest still. */
  lemma CatchUp(receiver: Node, sender: Node, authored: set<Oid>, tips: seq<Oid>, after: Node, r: Result<nat>)
    requires HonestHistory(authored) && Honest(receiver, authored) && Honest(sender, authored) && Consistent(after)
    requires forall t :: t in tips ==> t in sender.known
    requires IntegrateResult(receiver, ClosureOf(tips), after, r)
    ensures r.Ok? && Honest(after, authored)
    ensures Elements(after.known) == Elements(receiver.known) + PrimitivesBelowAll(tips)
  {
    hide HonestHistory, IntegrateResult, AllKnown, Closed, Addressed, IsPrimitive, ClosureOf, PrimitivesBelowAll;
    hide CounterOf, Current, Ancestors, FromNodes;
    KnownAreCommits(sender);
    ClosureIsClosed(receiver.objs, sender.objs, tips);
    ClosureIsFromNodes(sender, authored, tips);
    DeliveryKeepsHonest(receiver, authored, ClosureOf(tips), after, r);
    forall o
      ensures o in Elements(after.known) <==> o in Elements(receiver.known) + PrimitivesBelowAll(tips)
    {
      ClosurePrimitives(sender.objs, tips, o);
    }
  }

  lemma KnownAreCommits(n: Node)
    requires Consistent(n)
    ensures forall o :: o in n.known ==> HasCommit(n.objs, o)
  {
    forall o | o in n.known
      ensures HasCommit(n.objs, o)
    {
      AddressedPreimage(n.objs, o);
    }
  }

  lemma ClosureIsFromNodes(sender: Node, authored: set<Oid>, tips: seq<Oid>)
    requires Consistent(sender) && Elements(sender.known) <= authored && forall t :: t in tips ==> t in sender.known
    ensures FromNodes(ClosureOf(tips), authored)
  {
    hide Closed, Addressed, Ancestors, ClosureOf, IsPrimitive, CounterOf;
    KnownAreCommits(sender);
    forall obj | Some(obj) in ClosureOf(tips) && obj.Commit?
      ensures exists p :: p in authored && Sha(obj) in Lineage(p)
    {
      ClosureCommits(sender.objs, tips, obj);
      var t :| t in tips && Sha(obj) in Lineage(t);
      assert t in Elements(sender.known);
    }
  }

  /** Both nodes caught up with each other's frontier: the same `main`, even if one of them knows
      primitives the filter drops and the other has never heard of them. */
  lemma CaughtUpAgree(a: Node, b: Node, a': Node, b': Node)
    requires Consistent(a) && AllKnown(a) && Consistent(b) && AllKnown(b)
    requires Current(a') && Elements(a'.known) == Elements(a.known) + PrimitivesBelowAll(FrontierOf(Elements(b.known)))
    requires Current(b') && Elements(b'.known) == Elements(b.known) + PrimitivesBelowAll(FrontierOf(Elements(a.known)))
    ensures a'.main == b'.main
  {
    hide MainOf, FrontierOf, PrimitivesBelowAll, Consistent, AllKnown, IsPrimitive, Touch.GhostAdd;
    EffectiveBelowFrontier(a);
    EffectiveBelowFrontier(b);
    assert Effective(Elements(a'.known)) == Effective(Elements(a.known)) + Effective(Elements(b.known));
    assert Effective(Elements(b'.known)) == Effective(Elements(a.known)) + Effective(Elements(b.known));
    MainIgnoresGhostAdds(Elements(a'.known), Elements(b'.known));
  }

  /** What lies below the frontier is known, and includes everything effective. */
  lemma EffectiveBelowFrontier(n: Node)
    requires Consistent(n) && AllKnown(n)
    ensures PrimitivesBelowAll(FrontierOf(Elements(n.known))) <= Elements(n.known)
    ensures Effective(Elements(n.known)) <= PrimitivesBelowAll(FrontierOf(Elements(n.known)))
  {
    hide Consistent, AllKnown, FrontierOf, PrimitivesBelow, Effective;
    var known := Elements(n.known);
    FrontierIsKnown(known);
    forall o | o in PrimitivesBelowAll(FrontierOf(known))
      ensures o in known
    {
      var tip :| tip in FrontierOf(known) && o in PrimitivesBelow(tip);
      KnownIsClosed(n, tip);
    }
    forall o | o in Effective(known)
      ensures o in PrimitivesBelowAll(FrontierOf(known))
    {
      EffectiveBelowTip(known, o);
    }
  }

  lemma EffectiveBelowTip(known: set<Oid>, o: Oid)
    requires o in Effective(known)
    ensures exists tip :: tip in FrontierOf(known) && o in PrimitivesBelow(tip)
  {
    hide FrontierOf, Ancestors, Touch.GhostAdd, IsPrimitive, KeyOf, KeyLess;
    FrontierIsMaximalAntichain(known);
    var tip :| tip in FrontierOf(known) && o in Lineage(tip);
    assert o in PrimitivesBelow(tip);
  }

  /** A live push of one primitive leaves nothing dangling exactly when the receiver already holds
      the fold commit it was authored on. */
  lemma PushIsClosed(m: ObjectMap, sender: ObjectMap, o: Oid, parent: Oid)
    requires Addressed(m) && Closed(m) && Addressed(sender) && Closed(sender)
    requires HasCommit(sender, o) && Parents(o) == [parent]
    ensures AllDecode(PushOf(o))
    ensures Closed(PutAll(m, PushOf(o))) <==> o in m || parent in m
  {
    hide Reachable, Closed, Addressed, PutAll, AllDecode;
    AddressedPreimage(sender, o);
    AddressedAt(sender, o);
    Touch.ClosedCommit(sender, o);
    Touch.ClosedCommit(sender, parent);
    TreeIsHeld(sender, TreeOf(o));
    TreeIsHeld(sender, TreeOf(parent));
    var raws := PushOf(o);
    PushDecodes(sender, o);
    AllArePut(m, raws);
    if Closed(PutAll(m, raws)) {
      assert Some(sender[o]) in raws;
      ParentArrived(m, sender, o, parent);
    }
    if o in m {
      StoresAgree(m, sender, o);
      Touch.ClosedCommit(m, o);
    }
    if parent in m {
      StoresAgree(m, sender, parent);
      Touch.ClosedCommit(m, parent);
      TreeIsHeld(m, TreeOf(parent));
      forall r, ref | r in raws && r.Some? && ref in Refs(r.value)
        ensures ref in PutAll(m, raws)
      {
        RefOfPush(m, sender, o, parent, r.value, ref);
      }
      BatchCloses(m, sender, raws);
    }
  }

  lemma TreeIsHeld(m: ObjectMap, tree: Oid)
    requires Addressed(m) && Closed(m) && HasTree(m, tree)
    ensures AllHeld(m, Reachable(tree)) && RefClosed(Reachable(tree))
    ensures forall x :: x in Reachable(tree) ==> !IsCommit(x)
  {
    hide Closed, Reachable;
    CommitsReachedAreHistory(m, tree);
    ReachableIsRefClosed(tree);
    AddressedPreimage(m, tree);
  }

  lemma PushDecodes(sender: ObjectMap, o: Oid)
    requires Addressed(sender) && Closed(sender) && HasCommit(sender, o)
    requires AllHeld(sender, Reachable(TreeOf(o)))
    ensures AllDecode(PushOf(o)) && Some(sender[o]) in PushOf(o)
    ensures forall r :: r in PushOf(o) ==> r.Some? && Sha(r.value) in sender && (Sha(r.value) == o || Sha(r.value) in NewUnder(o))
    ensures forall x :: x in NewUnder(o) ==> Some(sender[x]) in PushOf(o)
  {
    hide Reachable, Closed, RawsOf;
    AddressedPreimage(sender, o);
    RawsDecode(sender, NewUnder(o));
  }

  lemma RefOfPush(m: ObjectMap, sender: ObjectMap, o: Oid, parent: Oid, obj: GitObject, ref: Oid)
    requires Addressed(m) && Addressed(sender) && Closed(sender) && HasCommit(sender, o) && Parents(o) == [parent]
    requires parent in m && AllHeld(m, Reachable(TreeOf(parent)))
    requires AllHeld(sender, Reachable(TreeOf(o))) && RefClosed(Reachable(TreeOf(o)))
    requires Some(obj) in PushOf(o) && ref in Refs(obj)
    ensures ref in PutAll(m, PushOf(o))
  {
    hide Reachable, Closed, RawsOf, PutAll;
    PushDecodes(sender, o);
    AllArePut(m, PushOf(o));
    PreimageOfSha(obj);
    AddressedPreimage(sender, o);
    assert ref in RefsAt(Sha(obj));
    assert TreeOf(o) in Reachable(TreeOf(o)) by {
      ReachableSteps(TreeOf(o));
    }
    if ref != parent && ref !in Reachable(TreeOf(parent)) {
      assert ref in NewUnder(o);
      AddressedAt(sender, ref);
    }
  }

  lemma ParentArrived(m: ObjectMap, sender: ObjectMap, o: Oid, parent: Oid)
    requires Addressed(m) && Closed(m) && Addressed(sender) && Closed(sender) && HasCommit(sender, o) && Parents(o) == [parent]
    requires AllHeld(sender, Reachable(TreeOf(o))) && IsCommit(parent)
    requires forall x :: x in Reachable(TreeOf(o)) ==> !IsCommit(x)
    requires Closed(PutAll(m, PushOf(o)))
    ensures parent in m
  {
    hide Reachable, RawsOf, PutAll;
    PushDecodes(sender, o);
    AllArePut(m, PushOf(o));
    AddressedPreimage(sender, o);
    AddressedAt(sender, o);
    var after := PutAll(m, PushOf(o));
    assert after[o] == sender[o] && RefsHeld(after, after[o]);
    assert parent in Refs(sender[o]) && parent in after;
    PutAllHas(m, PushOf(o), parent);
    AddressedAt(PutAll(m, PushOf(o)), parent);
    ParentIsAncestor(o, parent);
    AncestorRank(o, parent);
  }
}
