/** Splitting a catch-up payload into frames (session.rs): in order, greedily, and with as few
    frames as the size limit allows. */
module Chunks {
  import opened Prelude

  type Size<!T> = T -> nat

  function Total<T>(raws: seq<T>, size: Size<T>): nat {
    if raws == [] then 0 else Total(raws[..|raws| - 1], size) + size(raws[|raws| - 1])
  }

  /** One frame's worth: within the limit, or a single object whatever its size. */
  predicate Fits<T>(chunk: seq<T>, size: Size<T>, limit: nat) {
    |chunk| == 1 || Total(chunk, size) <= limit
  }

  function Concat<T>(chunks: seq<seq<T>>): seq<T> {
    if chunks == [] then [] else chunks[0] + Concat(chunks[1..])
  }

  /** Grow a first chunk of `n` objects as long as the next object still fits in. */
  function FirstSizeFrom<T>(raws: seq<T>, n: nat, size: Size<T>, limit: nat): (k: nat)
    requires n <= |raws|
    ensures n <= k <= |raws|
    decreases |raws| - n
  {
    if n < |raws| && Fits(raws[..n + 1], size, limit) then FirstSizeFrom(raws, n + 1, size, limit) else n
  }

  ghost function Chunked<T>(raws: seq<T>, size: Size<T>, limit: nat): (chunks: seq<seq<T>>)
    decreases |raws|
  {
    if raws == [] then []
    else
      var k := FirstSizeFrom(raws, 1, size, limit);
      [raws[..k]] + Chunked(raws[k..], size, limit)
  }

  lemma {:induction false} FirstSizeIs<T>(raws: seq<T>, n: nat, k: nat, size: Size<T>, limit: nat)
    requires 1 <= n <= k <= |raws| && Fits(raws[..k], size, limit)
    requires k == |raws| || !Fits(raws[..k + 1], size, limit)
    ensures FirstSizeFrom(raws, n, size, limit) == k
    decreases k - n
  {
    if n < k {
      TotalGrows(raws, n + 1, k, size);
      FirstSizeIs(raws, n + 1, k, size, limit);
    }
  }

  lemma {:induction false} TotalGrows<T>(raws: seq<T>, i: nat, j: nat, size: Size<T>)
    requires i <= j <= |raws|
    ensures Total(raws[..i], size) <= Total(raws[..j], size)
    decreases j - i
  {
    if i < j {
      assert raws[..j][..j - 1] == raws[..j - 1];
      TotalGrows(raws, i, j - 1, size);
    }
  }

  lemma {:induction false} FirstSizeFits<T>(raws: seq<T>, n: nat, size: Size<T>, limit: nat)
    requires 1 <= n <= |raws| && Fits(raws[..n], size, limit)
    ensures var k := FirstSizeFrom(raws, n, size, limit);
      Fits(raws[..k], size, limit) && (k == |raws| || !Fits(raws[..k + 1], size, limit))
    decreases |raws| - n
  {
    if n < |raws| && Fits(raws[..n + 1], size, limit) {
      FirstSizeFits(raws, n + 1, size, limit);
    }
  }

  method ChunkObjects<T>(raws: seq<T>, size: Size<T>, limit: nat) returns (out: seq<seq<T>>)
    ensures out == Chunked(raws, size, limit)
  {
    hide Chunked, FirstSizeFrom;
    out := [];
    var current: seq<T>, currentBytes := [], 0;
    var i := 0;
    assert current + raws[i..] == raws;
    while i < |raws|
      invariant 0 <= i <= |raws|
      invariant out + Chunked(current + raws[i..], size, limit) == Chunked(raws, size, limit)
      invariant currentBytes == Total(current, size)
      invariant Fits(current, size, limit) || current == []
      invariant i > 0 ==> current != []
    {
      var len := size(raws[i]);
      if current != [] && currentBytes + len > limit {
        ClosesChunk(out, current, raws[i..], size, limit);
        out := out + [current];
        current, currentBytes := [], 0;
      }
      TakesNext(current, raws, i, size);
      currentBytes := currentBytes + len;
      current := current + [raws[i]];
      i := i + 1;
    }
    if current != [] {
      LastChunk(current, size, limit);
      assert current + raws[i..] == current;
      out := out + [current];
    } else {
      NoChunk<T>(size, limit);
    }
  }

  lemma TakesNext<T>(current: seq<T>, raws: seq<T>, i: nat, size: Size<T>)
    requires i < |raws|
    ensures current + raws[i..] == (current + [raws[i]]) + raws[i + 1..]
    ensures Total(current + [raws[i]], size) == Total(current, size) + size(raws[i])
  {
    assert (current + [raws[i]])[..|current|] == current;
  }

  lemma NoChunk<T>(size: Size<T>, limit: nat)
    ensures Chunked([], size, limit) == []
  {
  }

  lemma LastChunk<T>(current: seq<T>, size: Size<T>, limit: nat)
    requires current != [] && Fits(current, size, limit)
    ensures Chunked(current, size, limit) == [current]
  {
    assert current[..|current|] == current;
    FirstSizeIs(current, 1, |current|, size, limit);
  }

  /** A chunk that cannot take the next object is the first chunk. */
  lemma ClosesChunk<T>(out: seq<seq<T>>, current: seq<T>, rest: seq<T>, size: Size<T>, limit: nat)
    requires current != [] && rest != [] && Fits(current, size, limit)
    requires Total(current, size) + size(rest[0]) > limit
    ensures out + Chunked(current + rest, size, limit) == out + [current] + Chunked([] + rest, size, limit)
  {
    var all := current + rest;
    var k := |current|;
    assert all[..k] == current && all[..k + 1] == current + [rest[0]] && all[k..] == rest == [] + rest;
    assert (current + [rest[0]])[..k] == current;
    FirstSizeIs(all, 1, k, size, limit);
  }

  // ---- Nothing lost, nothing too big ----

  lemma {:induction false} ChunksAreExact<T>(raws: seq<T>, size: Size<T>, limit: nat)
    ensures Concat(Chunked(raws, size, limit)) == raws
    ensures forall c :: c in Chunked(raws, size, limit) ==> c != [] && Fits(c, size, limit)
    decreases |raws|
  {
    hide Chunked, FirstSizeFrom, Fits, Concat;
    if raws == [] {
      NoChunk<T>(size, limit);
      ConcatNothing<T>();
    } else {
      var k := FirstChunk(raws, size, limit);
      ChunksAreExact(raws[k..], size, limit);
      ConcatCons(raws[..k], Chunked(raws[k..], size, limit));
      assert raws == raws[..k] + raws[k..];
    }
  }

  lemma FirstChunk<T>(raws: seq<T>, size: Size<T>, limit: nat) returns (k: nat)
    requires raws != []
    ensures k == FirstSizeFrom(raws, 1, size, limit) && 1 <= k <= |raws| && Fits(raws[..k], size, limit)
    ensures Chunked(raws, size, limit) == [raws[..k]] + Chunked(raws[k..], size, limit)
  {
    k := FirstSizeFrom(raws, 1, size, limit);
    FirstSizeFits(raws, 1, size, limit);
  }

  lemma ConcatNothing<T>()
    ensures Concat<T>([]) == []
  {
  }

  lemma ConcatCons<T>(c: seq<T>, rest: seq<seq<T>>)
    ensures Concat([c] + rest) == c + Concat(rest)
  {
    assert ([c] + rest)[1..] == rest;
  }

  // ---- As few as possible ----

  /** Putting a frame's worth in front costs at most one chunk more. */
  lemma {:induction false} OneMoreChunk<T>(c: seq<T>, t: seq<T>, size: Size<T>, limit: nat)
    requires c == [] || Fits(c, size, limit)
    ensures |Chunked(c + t, size, limit)| <= 1 + |Chunked(t, size, limit)|
    decreases |t|, 1
  {
    hide Chunked, FirstSizeFrom, Fits;
    if c == [] {
      assert c + t == t;
    } else {
      var all := c + t;
      assert all[..|c|] == c;
      var k := FirstChunk(all, size, limit);
      FirstSizeReaches(all, 1, |c|, size, limit);
      assert all[k..] == t[k - |c|..];
      FewerLeft(t, k - |c|, size, limit);
    }
  }

  lemma {:induction false} FirstSizeReaches<T>(raws: seq<T>, n: nat, k: nat, size: Size<T>, limit: nat)
    requires 1 <= n <= k <= |raws| && Fits(raws[..k], size, limit)
    ensures k <= FirstSizeFrom(raws, n, size, limit)
    decreases k - n
  {
    if n < k {
      TotalGrows(raws, n + 1, k, size);
      FirstSizeReaches(raws, n + 1, k, size, limit);
    }
  }

  /** Dropping objects from the front never costs a chunk. */
  lemma {:induction false} FewerLeft<T>(t: seq<T>, j: nat, size: Size<T>, limit: nat)
    requires j <= |t|
    ensures |Chunked(t[j..], size, limit)| <= |Chunked(t, size, limit)|
    decreases |t|, 0
  {
    hide Chunked, FirstSizeFrom, Fits;
    if t == [] {
      assert t[j..] == t;
    } else {
      var k := FirstChunk(t, size, limit);
      if j >= k {
        assert t[j..] == t[k..][j - k..];
        FewerLeft(t[k..], j - k, size, limit);
      } else {
        assert t[j..] == t[..k][j..] + t[k..];
        TailFits(t[..k], j, size, limit);
        OneMoreChunk(t[..k][j..], t[k..], size, limit);
      }
    }
  }

  lemma {:induction false} TotalSplits<T>(a: seq<T>, b: seq<T>, size: Size<T>)
    ensures Total(a + b, size) == Total(a, size) + Total(b, size)
    decreases |b|
  {
    if b == [] {
      assert a + b == a;
    } else {
      var n := |b| - 1;
      assert (a + b)[..|a + b| - 1] == a + b[..n];
      TotalSplits(a, b[..n], size);
    }
  }

  lemma TailFits<T>(c: seq<T>, j: nat, size: Size<T>, limit: nat)
    requires j < |c| && Fits(c, size, limit)
    ensures Fits(c[j..], size, limit)
  {
    assert c == c[..j] + c[j..];
    TotalSplits(c[..j], c[j..], size);
  }

  /** No way of cutting the same objects into frames, in order, uses fewer of them. */
  lemma {:induction false} FewestChunks<T>(packing: seq<seq<T>>, size: Size<T>, limit: nat)
    requires forall c :: c in packing ==> c == [] || Fits(c, size, limit)
    ensures |Chunked(Concat(packing), size, limit)| <= |packing|
  {
    hide Chunked, Fits;
    if packing == [] {
      NoChunk<T>(size, limit);
    } else {
      assert packing[0] in packing;
      FewestChunks(packing[1..], size, limit);
      OneMoreChunk(packing[0], Concat(packing[1..]), size, limit);
    }
  }
}
