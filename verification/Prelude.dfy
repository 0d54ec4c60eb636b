/** Result types shared by every component, and the byte-wise order that object ids,
    node ids and path names are compared by. */
module Prelude {

  type Byte = n: nat | n < 256
  type Bytes = seq<Byte>

  datatype Option<+T> = None | Some(value: T)

  /** The error kinds the engine distinguishes; message texts are not modelled. */
  datatype Error =
    | ObjectNotFound(oid: seq<nat>)
    | Malformed
    | BadSignature
    | ChannelBinding
    | Unauthorized
    | FoldVerify
    | Protocol
    | Config
    | Other

  datatype Result<+T> = Ok(value: T) | Err(error: Error) {
    predicate IsFailure() { Err? }
    function PropagateFailure<U>(): Result<U>
      requires Err?
    {
      Err(error)
    }
    function Extract(): T
      requires Ok?
    {
      value
    }
  }

  /** Byte-wise comparison of two strings of bytes: a proper prefix comes first. */
  predicate Less(a: seq<nat>, b: seq<nat>) {
    b != [] && (a == [] || a[0] < b[0] || (a[0] == b[0] && Less(a[1..], b[1..])))
  }

  lemma {:induction false} LessTotal(a: seq<nat>, b: seq<nat>)
    ensures a == b || Less(a, b) || Less(b, a)
    ensures !(Less(a, b) && Less(b, a))
    ensures !Less(a, a)
  {
    if a != [] {
      LessTotal(a[1..], a[1..]);
    }
    if a != [] && b != [] {
      LessTotal(a[1..], b[1..]);
      if a[0] == b[0] && a[1..] == b[1..] {
        assert a == [a[0]] + a[1..] == b;
      }
    }
  }

  lemma {:induction false} LessTransitive(a: seq<nat>, b: seq<nat>, c: seq<nat>)
    requires Less(a, b) && Less(b, c)
    ensures Less(a, c)
  {
    if a != [] && a[0] == b[0] == c[0] {
      LessTransitive(a[1..], b[1..], c[1..]);
    }
  }

  predicate IsLeast(least: seq<nat>, s: set<seq<nat>>) {
    least in s && forall x | x in s :: x != least ==> Less(least, x)
  }

  /** The least element of a nonempty set of byte strings. */
  function Least(s: set<seq<nat>>): (least: seq<nat>)
    requires s != {}
    ensures IsLeast(least, s)
  {
    LeastExists(s);
    LeastUnique(s);
    var least :| IsLeast(least, s);
    least
  }

  lemma LeastUnique(s: set<seq<nat>>)
    ensures forall a, b :: IsLeast(a, s) && IsLeast(b, s) ==> a == b
  {
    forall a, b | IsLeast(a, s) && IsLeast(b, s)
      ensures a == b
    {
      LessTotal(a, b);
    }
  }

  lemma {:induction false} LeastExists(s: set<seq<nat>>)
    requires s != {}
    ensures exists least :: IsLeast(least, s)
    decreases |s|
  {
    var a :| a in s;
    var rest := s - {a};
    assert s == rest + {a};
    if rest == {} {
      assert IsLeast(a, s);
    } else {
      LeastExists(rest);
      var b :| IsLeast(b, rest);
      LessTotal(a, b);
      if Less(a, b) {
        forall x | x in s && x != a
          ensures Less(a, x)
        {
          if x != b {
            LessTransitive(a, b, x);
          }
        }
        assert IsLeast(a, s);
      } else {
        assert IsLeast(b, s);
      }
    }
  }

  /** A finite set with a rank has an element no other element outranks. */
  lemma {:induction false} HighestExists<T>(s: set<T>, rank: T -> nat)
    requires s != {}
    ensures exists top :: top in s && forall x :: x in s ==> rank(x) <= rank(top)
    decreases |s|
  {
    var a :| a in s;
    var rest := s - {a};
    assert s == rest + {a};
    if rest != {} {
      HighestExists(rest, rank);
      var b :| b in rest && forall x :: x in rest ==> rank(x) <= rank(b);
      var top := if rank(a) <= rank(b) then b else a;
      assert top in s;
    }
  }

  function Max(a: nat, b: nat): nat {
    if a < b then b else a
  }

  predicate NoDuplicates<T(==)>(s: seq<T>) {
    forall i, j :: 0 <= i < j < |s| ==> s[i] != s[j]
  }

  lemma FirstIsMember<T>(s: seq<T>)
    ensures s != [] ==> s[0] in s
  {
  }

  function Elements<T(==)>(s: seq<T>): set<T> {
    set x | x in s
  }
}
