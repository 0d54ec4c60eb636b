/** The strict total order on primitives (order.rs): counter, then node id, then commit id. */
module Order {
  import opened Prelude
  import opened Objects

  datatype OrderKey = OrderKey(counter: nat, node: NodeId, sha: Oid)

  predicate KeyLess(a: OrderKey, b: OrderKey) {
    a.counter < b.counter ||
    (a.counter == b.counter && (Less(a.node, b.node) || (a.node == b.node && Less(a.sha, b.sha))))
  }

  /** No two distinct keys tie, and no key comes before itself. */
  lemma KeyTotal(a: OrderKey, b: OrderKey)
    ensures a == b || KeyLess(a, b) || KeyLess(b, a)
    ensures !(KeyLess(a, b) && KeyLess(b, a))
    ensures !KeyLess(a, a)
  {
    LessTotal(a.node, b.node);
    LessTotal(a.sha, b.sha);
  }

  lemma KeyTransitive(a: OrderKey, b: OrderKey, c: OrderKey)
    requires KeyLess(a, b) && KeyLess(b, c)
    ensures KeyLess(a, c)
  {
    if a.counter == b.counter == c.counter {
      if Less(a.node, b.node) && Less(b.node, c.node) {
        LessTransitive(a.node, b.node, c.node);
      }
      if Less(a.sha, b.sha) && Less(b.sha, c.sha) {
        LessTransitive(a.sha, b.sha, c.sha);
      }
    }
  }

  /** The two strings agree up to byte `i`, where `x` ends or has the smaller byte. */
  predicate FirstAt(x: seq<nat>, y: seq<nat>, i: nat) {
    i <= |x| && i < |y| && x[..i] == y[..i] && (i < |x| ==> x[i] < y[i])
  }

  lemma {:induction false} LessIfFirst(x: seq<nat>, y: seq<nat>, i: nat)
    requires FirstAt(x, y, i)
    ensures Less(x, y)
  {
    if i > 0 {
      assert x[0] == x[..i][0] && y[0] == y[..i][0];
      assert x[1..][..i - 1] == x[..i][1..] && y[1..][..i - 1] == y[..i][1..];
      LessIfFirst(x[1..], y[1..], i - 1);
    }
  }

  lemma {:induction false} FirstIfLess(x: seq<nat>, y: seq<nat>) returns (i: nat)
    requires Less(x, y)
    ensures FirstAt(x, y, i)
  {
    i := 0;
    if x != [] && x[0] == y[0] {
      var j := FirstIfLess(x[1..], y[1..]);
      i := j + 1;
      assert x[..i] == [x[0]] + x[1..][..j] && y[..i] == [y[0]] + y[1..][..j];
    }
  }

  /** Counters first; of equal ones the node ids, byte by byte; and of the same node the commit ids. */
  lemma KeysCompare(a: OrderKey, b: OrderKey)
    ensures a.counter < b.counter ==> KeyLess(a, b)
    ensures a.counter == b.counter && (exists i :: FirstAt(a.node, b.node, i)) ==> KeyLess(a, b)
    ensures a.counter == b.counter && a.node == b.node && (exists i :: FirstAt(a.sha, b.sha, i)) ==> KeyLess(a, b)
    ensures KeyLess(a, b) ==>
      || a.counter < b.counter
      || (a.counter == b.counter && exists i :: FirstAt(a.node, b.node, i))
      || (a.counter == b.counter && a.node == b.node && exists i :: FirstAt(a.sha, b.sha, i))
  {
    hide Less, FirstAt;
    if i :| FirstAt(a.node, b.node, i) {
      LessIfFirst(a.node, b.node, i);
    }
    if i :| FirstAt(a.sha, b.sha, i) {
      LessIfFirst(a.sha, b.sha, i);
    }
    if Less(a.node, b.node) {
      var i := FirstIfLess(a.node, b.node);
    }
    if Less(a.sha, b.sha) {
      var i := FirstIfLess(a.sha, b.sha);
    }
  }

  /** The key of the commit at an id; meant for primitives. */
  ghost function KeyOf(o: Oid): OrderKey {
    match CommitAt(o)
    case Some(c) => if Primitive(c) then OrderKey(c.message.counter, c.message.node, o) else OrderKey(0, [], o)
    case None => OrderKey(0, [], o)
  }

  lemma KeyOfTotal(a: Oid, b: Oid)
    ensures a == b || KeyLess(KeyOf(a), KeyOf(b)) || KeyLess(KeyOf(b), KeyOf(a))
    ensures !(KeyLess(KeyOf(a), KeyOf(b)) && KeyLess(KeyOf(b), KeyOf(a)))
    ensures !KeyLess(KeyOf(a), KeyOf(a))
  {
    KeyTotal(KeyOf(a), KeyOf(b));
  }

  // ---- Latest and sorted ----

  ghost predicate IsLatest(o: Oid, s: set<Oid>) {
    o in s && forall x :: x in s && x != o ==> KeyLess(KeyOf(x), KeyOf(o))
  }

  ghost function Latest(s: set<Oid>): (o: Oid)
    requires s != {}
    ensures IsLatest(o, s)
  {
    LatestExists(s);
    var o :| IsLatest(o, s);
    o
  }

  lemma LatestUnique(s: set<Oid>, a: Oid, b: Oid)
    requires IsLatest(a, s) && IsLatest(b, s)
    ensures a == b
  {
    KeyOfTotal(a, b);
  }

  lemma {:induction false} LatestExists(s: set<Oid>)
    requires s != {}
    ensures exists o :: IsLatest(o, s)
    decreases |s|
  {
    var a :| a in s;
    var rest := s - {a};
    assert s == rest + {a};
    if rest == {} {
      assert IsLatest(a, s);
    } else {
      LatestExists(rest);
      var b :| IsLatest(b, rest);
      KeyOfTotal(a, b);
      if KeyLess(KeyOf(b), KeyOf(a)) {
        forall x | x in s && x != a
          ensures KeyLess(KeyOf(x), KeyOf(a))
        {
          if x != b {
            KeyTransitive(KeyOf(x), KeyOf(b), KeyOf(a));
          }
        }
        assert IsLatest(a, s);
      } else {
        assert IsLatest(b, s);
      }
    }
  }

  ghost predicate StrictlySorted(xs: seq<Oid>) {
    forall i, j :: 0 <= i < j < |xs| ==> KeyLess(KeyOf(xs[i]), KeyOf(xs[j]))
  }

  /** The members of a set in ascending order. */
  ghost function Sorted(s: set<Oid>): (xs: seq<Oid>)
    ensures StrictlySorted(xs) && Elements(xs) == s && |xs| == |s|
    decreases |s|
  {
    if s == {} then []
    else
      var top := Latest(s);
      assert s == (s - {top}) + {top};
      var below := Sorted(s - {top});
      SortedOneMore(below, s, top);
      below + [top]
  }

  lemma SortedOneMore(below: seq<Oid>, s: set<Oid>, top: Oid)
    requires IsLatest(top, s) && StrictlySorted(below) && Elements(below) == s - {top}
    ensures StrictlySorted(below + [top]) && Elements(below + [top]) == s
  {
    hide KeyOf, KeyLess;
    assert forall x :: x in below ==> x in Elements(below);
    assert s == Elements(below) + {top};
  }

  /** No commit comes after one with a greater key; repeats stand side by side. */
  ghost predicate Ascending(xs: seq<Oid>) {
    forall i, j :: 0 <= i < j < |xs| ==> !KeyLess(KeyOf(xs[j]), KeyOf(xs[i]))
  }

  lemma AscendingIsSorted(xs: seq<Oid>)
    requires Ascending(xs) && NoDuplicates(xs)
    ensures xs == Sorted(Elements(xs))
  {
    hide KeyOf, KeyLess;
    forall i, j | 0 <= i < j < |xs|
      ensures KeyLess(KeyOf(xs[i]), KeyOf(xs[j]))
    {
      KeyOfTotal(xs[i], xs[j]);
    }
    SortedUnique(xs);
  }

  lemma SortedHasNoDuplicates(xs: seq<Oid>)
    requires StrictlySorted(xs)
    ensures NoDuplicates(xs)
  {
    forall i, j | 0 <= i < j < |xs|
      ensures xs[i] != xs[j]
    {
      KeyOfTotal(xs[i], xs[j]);
    }
  }

  /** There is only one way to sort a set. */
  lemma {:induction false} SortedUnique(xs: seq<Oid>)
    requires StrictlySorted(xs)
    ensures xs == Sorted(Elements(xs))
    decreases |xs|
  {
    if xs == [] {
      assert Elements(xs) == {};
    } else {
      var n := |xs| - 1;
      var s := Elements(xs);
      assert xs[n] in s;
      assert IsLatest(xs[n], s);
      LatestUnique(s, xs[n], Latest(s));
      KeyOfTotal(xs[n], xs[n]);
      assert xs == xs[..n] + [xs[n]];
      assert Elements(xs[..n]) == s - {xs[n]};
      SortedUnique(xs[..n]);
    }
  }
}
