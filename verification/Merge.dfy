/** Three-way merge (merge.rs): line-level diff3 for one file, and the map-level merge of two
    working trees. `theirs` is always the operand later in the total order, and wins conflicts. */
module Merge {
  import opened Prelude

  type Line = Bytes
  type Text = seq<Line>

  const NEWLINE: Byte := 10

  // ---- Lines ----

  function Concat(ls: Text): Bytes {
    if ls == [] then [] else ls[0] + Concat(ls[1..])
  }

  /** Where the first line of `s` ends, terminator included. */
  function FirstLine(s: Bytes): (n: nat)
    requires s != []
    ensures 0 < n <= |s|
    ensures NEWLINE !in s[..n - 1] && (n < |s| ==> s[n - 1] == NEWLINE)
  {
    if s[0] == NEWLINE || |s| == 1 then 1 else 1 + FirstLine(s[1..])
  }

  function SplitLines(s: Bytes): Text
    decreases |s|
  {
    if s == [] then [] else [s[..FirstLine(s)]] + SplitLines(s[FirstLine(s)..])
  }

  /** A line with its terminator, and no other newline in it. */
  predicate Complete(l: Line) {
    l != [] && NEWLINE !in l[..|l| - 1] && l[|l| - 1] == NEWLINE
  }

  /** Lines as a split leaves them: all complete, except that the last may lack its newline. */
  predicate Terminated(ls: Text) {
    forall i :: 0 <= i < |ls| ==> ls[i] != [] && NEWLINE !in ls[i][..|ls[i]| - 1] && (i < |ls| - 1 ==> Complete(ls[i]))
  }

  lemma {:induction false} FirstLineIs(l: Line, rest: Bytes)
    requires l != [] && NEWLINE !in l[..|l| - 1] && (rest != [] ==> Complete(l))
    ensures FirstLine(l + rest) == |l|
  {
    if |l| > 1 {
      assert l[0] == l[..|l| - 1][0];
      assert (l + rest)[1..] == l[1..] + rest;
      assert l[..|l| - 1] == [l[0]] + l[1..][..|l| - 2];
      FirstLineIs(l[1..], rest);
    }
  }

  /** One line at the front splits off. */
  lemma SplitStep(l: Line, rest: Bytes)
    requires l != [] && NEWLINE !in l[..|l| - 1] && (rest != [] ==> Complete(l))
    ensures SplitLines(l + rest) == [l] + SplitLines(rest)
  {
    FirstLineIs(l, rest);
    assert (l + rest)[..|l|] == l && (l + rest)[|l|..] == rest;
  }

  lemma TerminatedCons(l: Line, ls: Text)
    requires l != [] && NEWLINE !in l[..|l| - 1] && (ls != [] ==> Complete(l)) && Terminated(ls)
    ensures Terminated([l] + ls)
  {
    forall i | 1 <= i < |[l] + ls|
      ensures ([l] + ls)[i] == ls[i - 1]
    {
    }
  }

  lemma ConcatCons(l: Line, ls: Text)
    ensures Concat([l] + ls) == l + Concat(ls)
  {
    assert ([l] + ls)[1..] == ls;
  }

  lemma FirstSplits(s: Bytes) returns (l: Line, rest: Bytes)
    requires s != []
    ensures s == l + rest && |rest| < |s| && SplitLines(s) == [l] + SplitLines(rest)
    ensures l != [] && NEWLINE !in l[..|l| - 1] && (rest != [] ==> Complete(l))
  {
    hide FirstLine;
    var n := FirstLine(s);
    l, rest := s[..n], s[n..];
    assert l[..|l| - 1] == s[..n - 1] && l[|l| - 1] == s[n - 1];
  }

  lemma {:induction false} SplitThenConcat(s: Bytes)
    ensures Concat(SplitLines(s)) == s
    ensures Terminated(SplitLines(s))
    decreases |s|
  {
    if s != [] {
      hide SplitLines, Terminated, Complete;
      var l, rest := FirstSplits(s);
      SplitThenConcat(rest);
      SplitNothing(rest);
      TerminatedCons(l, SplitLines(rest));
      ConcatCons(l, SplitLines(rest));
    }
  }

  lemma SplitNothing(s: Bytes)
    ensures SplitLines(s) == [] <==> s == []
  {
    hide FirstLine;
  }

  lemma {:induction false} ConcatThenSplit(ls: Text)
    requires Terminated(ls)
    ensures SplitLines(Concat(ls)) == ls
  {
    if ls != [] {
      hide SplitLines;
      TerminatedParts(ls);
      ConcatThenSplit(ls[1..]);
      SplitStep(ls[0], Concat(ls[1..]));
    }
  }

  lemma TerminatedParts(ls: Text)
    requires Terminated(ls) && ls != []
    ensures ls[0] != [] && NEWLINE !in ls[0][..|ls[0]| - 1] && Terminated(ls[1..])
    ensures Concat(ls[1..]) != [] ==> Complete(ls[0])
  {
    forall i | 0 <= i < |ls[1..]|
      ensures ls[1..][i] == ls[i + 1]
    {
    }
    if ls[1..] == [] {
      assert Concat(ls[1..]) == [];
    }
  }

  lemma {:induction false} ConcatAppend(x: Text, y: Text)
    ensures Concat(x + y) == Concat(x) + Concat(y)
  {
    if x == [] {
      assert x + y == y;
    } else {
      assert (x + y)[1..] == x[1..] + y;
      ConcatAppend(x[1..], y);
    }
  }

  /** The line that starts at `start` ends just before `end`. */
  lemma CutLine(s: Bytes, start: nat, end: nat)
    requires start < end <= |s| && forall j :: start <= j < end - 1 ==> s[j] != NEWLINE
    requires end == |s| || s[end - 1] == NEWLINE
    ensures SplitLines(s[start..]) == [s[start..end]] + SplitLines(s[end..])
  {
    var l, rest := s[start..end], s[end..];
    assert s[start..] == l + rest;
    assert l[|l| - 1] == s[end - 1];
    assert l[..|l| - 1] == s[start..end - 1];
    SplitStep(l, rest);
  }

  method SplitLinesLoop(s: Bytes) returns (lines: Text)
    ensures lines == SplitLines(s)
  {
    hide SplitLines;
    lines := [];
    var start, i := 0, 0;
    assert s[0..] == s;
    while i < |s|
      invariant 0 <= start <= i <= |s|
      invariant forall j :: start <= j < i ==> s[j] != NEWLINE
      invariant lines + SplitLines(s[start..]) == SplitLines(s)
    {
      if s[i] == NEWLINE {
        CutLine(s, start, i + 1);
        Append3(lines, [s[start..i + 1]], SplitLines(s[i + 1..]));
        lines := lines + [s[start..i + 1]];
        start := i + 1;
      }
      i := i + 1;
    }
    NoMoreLines();
    if start < |s| {
      CutLine(s, start, |s|);
      assert s[|s|..] == [];
      assert s[start..] == s[start..|s|];
      lines := lines + [s[start..]];
    } else {
      assert s[start..] == [];
    }
  }

  lemma Append3(x: Text, y: Text, z: Text)
    ensures x + (y + z) == x + y + z
  {
  }

  lemma NoMoreLines()
    ensures SplitLines([]) == []
  {
  }

  // ---- Alignments ----

  /** Which line of a base each line of a text equals: line-equal and strictly increasing. */
  type Alignment = map<nat, nat>

  ghost predicate Aligns(base: Text, x: Text, m: Alignment) {
    && (forall i :: i in m ==> i < |base| && m[i] < |x| && base[i] == x[m[i]])
    && (forall i, j :: i in m && j in m && i < j ==> m[i] < m[j])
  }

  ghost predicate AlwaysAligns(f: (Text, Text) -> Alignment) {
    forall base, x :: Aligns(base, x, f(base, x))
  }

  type Aligner = f: (Text, Text) -> Alignment | AlwaysAligns(f) witness (base, x) => map[]

  /** The longest-common-subsequence matcher: any deterministic alignment. */
  const EqualPairs: Aligner

  // ---- diff3 ----

  /** The lines one chunk between two anchors resolves to. */
  function Resolve(bc: Text, oc: Text, tc: Text): Text {
    if Concat(oc) == Concat(tc) then oc
    else if Concat(oc) == Concat(bc) then tc
    else if Concat(tc) == Concat(bc) then oc
    else tc
  }

  /** Two alignments of one base, as seen from base line `k` with `po` and `pt` the first lines of
      ours and theirs not settled yet. */
  ghost predicate Fits(b: Text, o: Text, t: Text, ma: Alignment, mb: Alignment, k: nat, po: nat, pt: nat) {
    && Aligns(b, o, ma) && Aligns(b, t, mb)
    && k <= |b| && po <= |o| && pt <= |t|
    && (forall i :: k <= i && i in ma ==> po <= ma[i])
    && (forall i :: k <= i && i in mb ==> pt <= mb[i])
  }

  /** The merged lines from base line `k` on, when everything before `pb`, `po`, `pt` is settled
      and the lines from there up to `k` are waiting for the next anchor. */
  function MergeFrom(b: Text, o: Text, t: Text, ma: Alignment, mb: Alignment, k: nat, pb: nat, po: nat, pt: nat): Text
    requires Fits(b, o, t, ma, mb, k, po, pt) && pb <= k
    decreases |b| - k
  {
    if k == |b| then
      Resolve(b[pb..], o[po..], t[pt..])
    else if k in ma && k in mb then
      Resolve(b[pb..k], o[po..ma[k]], t[pt..mb[k]]) + [b[k]] +
      MergeFrom(b, o, t, ma, mb, k + 1, k + 1, ma[k] + 1, mb[k] + 1)
    else
      MergeFrom(b, o, t, ma, mb, k + 1, pb, po, pt)
  }

  /** The lines diff3 picks. */
  function MergedLines(b: Text, o: Text, t: Text, ma: Alignment, mb: Alignment): Text
    requires Aligns(b, o, ma) && Aligns(b, t, mb)
  {
    MergeFrom(b, o, t, ma, mb, 0, 0, 0, 0)
  }

  method PushChunk(out: Bytes, bc: Text, oc: Text, tc: Text) returns (out': Bytes)
    ensures out' == out + Concat(Resolve(bc, oc, tc))
  {
    var bs, os, ts := Concat(bc), Concat(oc), Concat(tc);
    if os == ts {
      out' := out + os;
    } else if os == bs {
      out' := out + ts;
    } else if ts == bs {
      out' := out + os;
    } else {
      out' := out + ts;
    }
  }

  /** The base lines below `n` matched on both sides, in ascending order. */
  ghost predicate AnchorsBelow(ma: Alignment, mb: Alignment, anchors: seq<(nat, nat, nat)>, n: nat) {
    && (forall j :: 0 <= j < |anchors| ==>
          anchors[j].0 < n && anchors[j].0 in ma && anchors[j].0 in mb && anchors[j].1 == ma[anchors[j].0] && anchors[j].2 == mb[anchors[j].0])
    && (forall j, k :: 0 <= j < k < |anchors| ==> anchors[j].0 < anchors[k].0)
    && (forall i :: i < n && i in ma && i in mb ==> exists j :: 0 <= j < |anchors| && anchors[j].0 == i)
  }

  lemma NextAnchorBelow(ma: Alignment, mb: Alignment, anchors: seq<(nat, nat, nat)>, n: nat)
    requires AnchorsBelow(ma, mb, anchors, n)
    ensures AnchorsBelow(ma, mb, if n in ma && n in mb then anchors + [(n, ma[n], mb[n])] else anchors, n + 1)
  {
    if n in ma && n in mb {
      var more := anchors + [(n, ma[n], mb[n])];
      assert more[|anchors|].0 == n;
      forall i | i <= n && i in ma && i in mb
        ensures exists j :: 0 <= j < |more| && more[j].0 == i
      {
        if i < n {
          var j :| 0 <= j < |anchors| && anchors[j].0 == i;
          assert more[j].0 == i;
        }
      }
    }
  }

  lemma NoAnchorsYet(ma: Alignment, mb: Alignment)
    ensures AnchorsBelow(ma, mb, [], 0)
  {
  }

  method CommonAnchors(ma: Alignment, mb: Alignment, n: nat) returns (anchors: seq<(nat, nat, nat)>)
    requires forall i :: i in ma ==> i < n
    ensures ListsAnchors(ma, mb, anchors)
  {
    hide AnchorsBelow, ListsAnchors;
    anchors := [];
    var bi := 0;
    NoAnchorsYet(ma, mb);
    while bi < n
      invariant bi <= n && AnchorsBelow(ma, mb, anchors, bi)
    {
      NextAnchorBelow(ma, mb, anchors, bi);
      if bi in ma && bi in mb {
        anchors := anchors + [(bi, ma[bi], mb[bi])];
      }
      bi := bi + 1;
    }
    AllAnchors(ma, mb, anchors, n);
  }

  lemma AllAnchors(ma: Alignment, mb: Alignment, anchors: seq<(nat, nat, nat)>, n: nat)
    requires AnchorsBelow(ma, mb, anchors, n) && forall i :: i in ma ==> i < n
    ensures ListsAnchors(ma, mb, anchors)
  {
  }

  lemma {:induction false} SkipToAnchor(b: Text, o: Text, t: Text, ma: Alignment, mb: Alignment, k: nat, k': nat, pb: nat, po: nat, pt: nat)
    requires Fits(b, o, t, ma, mb, k, po, pt) && pb <= k <= k' <= |b|
    requires forall i :: k <= i < k' ==> !(i in ma && i in mb)
    ensures MergeFrom(b, o, t, ma, mb, k, pb, po, pt) == MergeFrom(b, o, t, ma, mb, k', pb, po, pt)
    decreases k' - k
  {
    if k < k' {
      SkipToAnchor(b, o, t, ma, mb, k + 1, k', pb, po, pt);
    }
  }

  /** What is still to come splits at the next anchor. */
  lemma NextAnchor(b: Text, o: Text, t: Text, ma: Alignment, mb: Alignment, bi: nat, pb: nat, po: nat, pt: nat)
    requires Fits(b, o, t, ma, mb, pb, po, pt) && pb <= bi < |b| && bi in ma && bi in mb
    requires forall i :: pb <= i < bi ==> !(i in ma && i in mb)
    ensures Fits(b, o, t, ma, mb, bi + 1, ma[bi] + 1, mb[bi] + 1)
    ensures Concat(MergeFrom(b, o, t, ma, mb, pb, pb, po, pt)) ==
      Concat(Resolve(b[pb..bi], o[po..ma[bi]], t[pt..mb[bi]])) + b[bi] +
      Concat(MergeFrom(b, o, t, ma, mb, bi + 1, bi + 1, ma[bi] + 1, mb[bi] + 1))
  {
    SkipToAnchor(b, o, t, ma, mb, pb, bi, pb, po, pt);
    var chunk := Resolve(b[pb..bi], o[po..ma[bi]], t[pt..mb[bi]]);
    ConcatAppend(chunk + [b[bi]], MergeFrom(b, o, t, ma, mb, bi + 1, bi + 1, ma[bi] + 1, mb[bi] + 1));
    ConcatAppend(chunk, [b[bi]]);
    assert Concat([b[bi]]) == b[bi];
  }

  /** The same at the next of the listed anchors, with every slice in range. */
  lemma AtAnchor(b: Text, o: Text, t: Text, ma: Alignment, mb: Alignment, anchors: seq<(nat, nat, nat)>, j: nat, pb: nat, po: nat, pt: nat)
    requires ListsAnchors(ma, mb, anchors) && j < |anchors| && pb == (if j == 0 then 0 else anchors[j - 1].0 + 1)
    requires Fits(b, o, t, ma, mb, pb, po, pt)
    ensures var (bi, oi, ti) := anchors[j];
      && pb <= bi < |b| && po <= oi < |o| && pt <= ti < |t|
      && Fits(b, o, t, ma, mb, bi + 1, oi + 1, ti + 1)
      && Concat(MergeFrom(b, o, t, ma, mb, pb, pb, po, pt)) ==
           Concat(Resolve(b[pb..bi], o[po..oi], t[pt..ti])) + b[bi] + Concat(MergeFrom(b, o, t, ma, mb, bi + 1, bi + 1, oi + 1, ti + 1))
  {
    hide MergeFrom, Resolve, Concat;
    NoAnchorBetween(ma, mb, anchors, j);
    NextAnchor(b, o, t, ma, mb, anchors[j].0, pb, po, pt);
  }

  lemma FitsFromStart(b: Text, o: Text, t: Text, ma: Alignment, mb: Alignment)
    requires Aligns(b, o, ma) && Aligns(b, t, mb)
    ensures Fits(b, o, t, ma, mb, 0, 0, 0) && forall i :: i in ma ==> i < |b|
  {
  }

  method Diff3(base: Bytes, ours: Bytes, theirs: Bytes, ma: Alignment, mb: Alignment) returns (out: Bytes)
    requires Aligns(SplitLines(base), SplitLines(ours), ma)
    requires Aligns(SplitLines(base), SplitLines(theirs), mb)
    ensures out == Concat(MergedLines(SplitLines(base), SplitLines(ours), SplitLines(theirs), ma, mb))
  {
    hide MergeFrom, Resolve, Concat, SplitLines, Aligns, Fits, ListsAnchors;
    var b := SplitLinesLoop(base);
    var o := SplitLinesLoop(ours);
    var t := SplitLinesLoop(theirs);
    FitsFromStart(b, o, t, ma, mb);
    var anchors := CommonAnchors(ma, mb, |b|);
    out := [];
    var pb, po, pt := 0, 0, 0;
    var j := 0;
    while j < |anchors|
      invariant 0 <= j <= |anchors|
      invariant pb == (if j == 0 then 0 else anchors[j - 1].0 + 1)
      invariant Fits(b, o, t, ma, mb, pb, po, pt)
      invariant Concat(MergedLines(b, o, t, ma, mb)) == out + Concat(MergeFrom(b, o, t, ma, mb, pb, pb, po, pt))
    {
      var bi, oi, ti := anchors[j].0, anchors[j].1, anchors[j].2;
      AtAnchor(b, o, t, ma, mb, anchors, j, pb, po, pt);
      out := PushChunk(out, b[pb..bi], o[po..oi], t[pt..ti]);
      out := out + b[bi];
      pb, po, pt := bi + 1, oi + 1, ti + 1;
      j := j + 1;
    }
    LastChunk(b, o, t, ma, mb, anchors, pb, po, pt);
    out := PushChunk(out, b[pb..], o[po..], t[pt..]);
  }

  lemma LastChunk(b: Text, o: Text, t: Text, ma: Alignment, mb: Alignment, anchors: seq<(nat, nat, nat)>, pb: nat, po: nat, pt: nat)
    requires ListsAnchors(ma, mb, anchors) && pb == (if anchors == [] then 0 else anchors[|anchors| - 1].0 + 1)
    requires Fits(b, o, t, ma, mb, pb, po, pt)
    ensures pb <= |b| && po <= |o| && pt <= |t|
    ensures MergeFrom(b, o, t, ma, mb, pb, pb, po, pt) == Resolve(b[pb..], o[po..], t[pt..])
  {
    NoAnchorBetween(ma, mb, anchors, |anchors|);
    SkipToAnchor(b, o, t, ma, mb, pb, |b|, pb, po, pt);
  }

  ghost predicate ListsAnchors(ma: Alignment, mb: Alignment, anchors: seq<(nat, nat, nat)>) {
    && (forall j :: 0 <= j < |anchors| ==>
          anchors[j].0 in ma && anchors[j].0 in mb && anchors[j].1 == ma[anchors[j].0] && anchors[j].2 == mb[anchors[j].0])
    && (forall j, k :: 0 <= j < k < |anchors| ==> anchors[j].0 < anchors[k].0)
    && (forall i :: i in ma && i in mb ==> exists j :: 0 <= j < |anchors| && anchors[j].0 == i)
  }

  lemma NoAnchorBetween(ma: Alignment, mb: Alignment, anchors: seq<(nat, nat, nat)>, j: nat)
    requires ListsAnchors(ma, mb, anchors) && j <= |anchors|
    ensures forall i :: i in ma && i in mb ==> (j > 0 && i <= anchors[j - 1].0) || (j < |anchors| && anchors[j].0 <= i)
  {
    forall i | i in ma && i in mb
      ensures (j > 0 && i <= anchors[j - 1].0) || (j < |anchors| && anchors[j].0 <= i)
    {
      var h :| 0 <= h < |anchors| && anchors[h].0 == i;
      assert h < j || j <= h;
    }
  }

  // ---- One file, and a whole tree ----

  predicate Continuation(x: Byte) {
    0x80 <= x <= 0xBF
  }

  /** Well-formed UTF-8 (The Unicode Standard, Table 3-7). */
  predicate ValidUtf8(s: Bytes) {
    if s == [] then true
    else if s[0] <= 0x7F then ValidUtf8(s[1..])
    else if 0xC2 <= s[0] <= 0xDF then
      |s| >= 2 && Continuation(s[1]) && ValidUtf8(s[2..])
    else if 0xE0 <= s[0] <= 0xEF then
      |s| >= 3 && Continuation(s[1]) && Continuation(s[2]) &&
      (s[0] == 0xE0 ==> 0xA0 <= s[1]) && (s[0] == 0xED ==> s[1] <= 0x9F) && ValidUtf8(s[3..])
    else if 0xF0 <= s[0] <= 0xF4 then
      |s| >= 4 && Continuation(s[1]) && Continuation(s[2]) && Continuation(s[3]) &&
      (s[0] == 0xF0 ==> 0x90 <= s[1]) && (s[0] == 0xF4 ==> s[1] <= 0x8F) && ValidUtf8(s[4..])
    else false
  }

  predicate IsBinary(s: Bytes) {
    !ValidUtf8(s) || 0 in s
  }

  /** The alignment the engine uses. */
  function Pairs(base: Text, x: Text): (m: Alignment)
    ensures Aligns(base, x, m)
  {
    assert AlwaysAligns(EqualPairs);
    EqualPairs(base, x)
  }

  function MergedBlob(base: Bytes, ours: Bytes, theirs: Bytes): Bytes {
    if IsBinary(base) || IsBinary(ours) || IsBinary(theirs) then theirs
    else
      var b, o, t := SplitLines(base), SplitLines(ours), SplitLines(theirs);
      Concat(MergedLines(b, o, t, Pairs(b, o), Pairs(b, t)))
  }

  method MergeBlob(base: Bytes, ours: Bytes, theirs: Bytes) returns (merged: Bytes)
    ensures merged == MergedBlob(base, ours, theirs)
  {
    if IsBinary(base) || IsBinary(ours) || IsBinary(theirs) {
      return theirs;
    }
    var b, o, t := SplitLines(base), SplitLines(ours), SplitLines(theirs);
    merged := Diff3(base, ours, theirs, Pairs(b, o), Pairs(b, t));
  }

  type Files = map<string, Bytes>

  function Lookup(m: Files, p: string): Option<Bytes> {
    if p in m then Some(m[p]) else None
  }

  /** What one path resolves to, given what base, ours and theirs have there. */
  function MergedEntry(b: Option<Bytes>, o: Option<Bytes>, t: Option<Bytes>): Option<Bytes> {
    if o == t then o
    else if o == b then t
    else if t == b then o
    else if b.Some? && o.Some? && t.Some? then Some(MergedBlob(b.value, o.value, t.value))
    else t
  }

  function MergedTrees(base: Files, ours: Files, theirs: Files): Files {
    map p | p in base.Keys + ours.Keys + theirs.Keys &&
            MergedEntry(Lookup(base, p), Lookup(ours, p), Lookup(theirs, p)).Some? ::
      MergedEntry(Lookup(base, p), Lookup(ours, p), Lookup(theirs, p)).value
  }

  lemma MergedTreesAt(base: Files, ours: Files, theirs: Files, p: string)
    ensures Lookup(MergedTrees(base, ours, theirs), p) == MergedEntry(Lookup(base, p), Lookup(ours, p), Lookup(theirs, p))
  {
  }

  /** `out` is the merge so far: nothing yet at the paths still to do. */
  ghost predicate MergedBut(out: Files, paths: set<string>, base: Files, ours: Files, theirs: Files) {
    forall p :: Lookup(out, p) == if p in paths then None else Lookup(MergedTrees(base, ours, theirs), p)
  }

  lemma MergedNothing(base: Files, ours: Files, theirs: Files)
    ensures MergedBut(map[], base.Keys + ours.Keys + theirs.Keys, base, ours, theirs)
  {
  }

  lemma MergedOneMore(out: Files, paths: set<string>, p: string, base: Files, ours: Files, theirs: Files)
    requires MergedBut(out, paths, base, ours, theirs) && p in paths
    ensures var chosen := MergedEntry(Lookup(base, p), Lookup(ours, p), Lookup(theirs, p));
      MergedBut(if chosen.Some? then out[p := chosen.value] else out, paths - {p}, base, ours, theirs)
  {
    hide MergedEntry, MergedTrees;
    MergedTreesAt(base, ours, theirs, p);
    assert Lookup(out, p) == None;
  }

  lemma SameLookups(m: Files, m': Files)
    requires forall p :: Lookup(m, p) == Lookup(m', p)
    ensures m == m'
  {
    assert forall p :: p in m <==> Lookup(m, p).Some?;
    assert forall p :: p in m' <==> Lookup(m', p).Some?;
    forall p | p in m
      ensures p in m' && m[p] == m'[p]
    {
      assert Lookup(m, p) == Lookup(m', p);
    }
    forall p | p in m'
      ensures p in m
    {
      assert Lookup(m, p) == Lookup(m', p);
    }
  }

  lemma MergedAll(out: Files, base: Files, ours: Files, theirs: Files)
    requires MergedBut(out, {}, base, ours, theirs)
    ensures out == MergedTrees(base, ours, theirs)
  {
    hide MergedTrees;
    SameLookups(out, MergedTrees(base, ours, theirs));
  }

  method MergeTrees(base: Files, ours: Files, theirs: Files) returns (out: Files)
    ensures out == MergedTrees(base, ours, theirs)
  {
    hide MergedBlob, MergedTrees, MergedBut;
    out := map[];
    var paths := base.Keys + ours.Keys + theirs.Keys;
    MergedNothing(base, ours, theirs);
    while paths != {}
      invariant MergedBut(out, paths, base, ours, theirs)
    {
      var p :| p in paths;
      var b, o, t := Lookup(base, p), Lookup(ours, p), Lookup(theirs, p);
      var chosen: Option<Bytes>;
      if o == t {
        chosen := o;
      } else if o == b {
        chosen := t;
      } else if t == b {
        chosen := o;
      } else if b.Some? && o.Some? && t.Some? {
        var merged := MergeBlob(b.value, o.value, t.value);
        chosen := Some(merged);
      } else {
        chosen := t;
      }
      MergedOneMore(out, paths, p, base, ours, theirs);
      if chosen.Some? {
        out := out[p := chosen.value];
      }
      paths := paths - {p};
    }
    MergedAll(out, base, ours, theirs);
  }
}
