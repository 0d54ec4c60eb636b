/** What the three-way merge promises: no line is torn or glued, and edits that do not overlap
    all survive, in one file and across files. */
module MergeLaws {
  import opened Prelude
  import opened Merge

  // ---- Every merged text is made of whole lines of ours and theirs ----

  predicate AllComplete(ls: Text) {
    forall l :: l in ls ==> Complete(l)
  }

  lemma CompleteThenTerminated(x: Text, y: Text)
    requires AllComplete(x) && Terminated(y)
    ensures Terminated(x + y)
  {
    forall i | 0 <= i < |x + y|
      ensures (x + y)[i] == if i < |x| then x[i] else y[i - |x|]
    {
    }
    assert forall i :: 0 <= i < |x| ==> x[i] in x;
  }

  lemma SliceTerminated(ls: Text, i: nat, j: nat)
    requires Terminated(ls) && i <= j <= |ls|
    ensures Terminated(ls[i..j])
    ensures j < |ls| ==> AllComplete(ls[i..j])
  {
    forall k | 0 <= k < j - i
      ensures ls[i..j][k] == ls[i + k]
    {
    }
  }

  /** A chunk, its anchor line, and what follows it. An anchor line without a newline ends all three
      texts, so nothing follows it. */
  lemma AnchorKeepsLines(b: Text, o: Text, t: Text, k: nat, oi: nat, ti: nat, pb: nat, po: nat, pt: nat, rest: Text)
    requires pb <= k < |b| && po <= oi < |o| && pt <= ti < |t| && b[k] == o[oi] == t[ti]
    requires Terminated(b) && Terminated(o) && Terminated(t) && Terminated(rest)
    requires forall l :: l in rest ==> l in o || l in t
    requires k + 1 == |b| && oi + 1 == |o| && ti + 1 == |t| ==> rest == []
    ensures var lines := Resolve(b[pb..k], o[po..oi], t[pt..ti]) + [b[k]] + rest;
      Terminated(lines) && forall l :: l in lines ==> l in o || l in t
  {
    hide Resolve, Terminated, Complete;
    var oc, tc := o[po..oi], t[pt..ti];
    SliceTerminated(o, po, oi);
    SliceTerminated(t, pt, ti);
    ResolvePicks(b[pb..k], oc, tc);
    AnchorEnds(b, k);
    AnchorEnds(o, oi);
    AnchorEnds(t, ti);
    TerminatedCons(b[k], rest);
    CompleteThenTerminated(Resolve(b[pb..k], oc, tc), [b[k]] + rest);
    assert Resolve(b[pb..k], oc, tc) + [b[k]] + rest == Resolve(b[pb..k], oc, tc) + ([b[k]] + rest);
  }

  lemma {:induction false} MergeKeepsLinesFrom(b: Text, o: Text, t: Text, ma: Alignment, mb: Alignment, k: nat, pb: nat, po: nat, pt: nat)
    requires Fits(b, o, t, ma, mb, k, po, pt) && pb <= k
    requires Terminated(b) && Terminated(o) && Terminated(t)
    ensures Terminated(MergeFrom(b, o, t, ma, mb, k, pb, po, pt))
    ensures forall l :: l in MergeFrom(b, o, t, ma, mb, k, pb, po, pt) ==> l in o || l in t
    ensures po == |o| && pt == |t| && pb == |b| ==> MergeFrom(b, o, t, ma, mb, k, pb, po, pt) == []
    decreases |b| - k
  {
    hide Resolve, Terminated, Complete;
    if k == |b| {
      SliceTerminated(o, po, |o|);
      SliceTerminated(t, pt, |t|);
      ResolvePicks(b[pb..], o[po..], t[pt..]);
      assert o[po..] == o[po..|o|] && t[pt..] == t[pt..|t|];
    } else if k in ma && k in mb {
      MergeKeepsLinesFrom(b, o, t, ma, mb, k + 1, k + 1, ma[k] + 1, mb[k] + 1);
      AnchorKeepsLines(b, o, t, k, ma[k], mb[k], pb, po, pt, MergeFrom(b, o, t, ma, mb, k + 1, k + 1, ma[k] + 1, mb[k] + 1));
    } else {
      MergeKeepsLinesFrom(b, o, t, ma, mb, k + 1, pb, po, pt);
    }
  }

  lemma ResolvePicks(bc: Text, oc: Text, tc: Text)
    ensures Resolve(bc, oc, tc) == oc || Resolve(bc, oc, tc) == tc
    ensures bc == tc ==> Concat(Resolve(bc, oc, tc)) == Concat(oc)
    ensures bc == oc ==> Concat(Resolve(bc, oc, tc)) == Concat(tc)
  {
  }

  lemma AnchorEnds(ls: Text, k: nat)
    requires Terminated(ls) && k < |ls|
    ensures ls[k] != [] && NEWLINE !in ls[k][..|ls[k]| - 1]
    ensures k + 1 < |ls| ==> Complete(ls[k])
  {
  }

  /** For all three texts and all alignments, re-splitting the merged text gives back exactly the
      lines that were picked, each of them a line of ours or of theirs: no two lines are glued
      together, even where a last line lacks its newline. */
  lemma MergeKeepsLines(base: Bytes, ours: Bytes, theirs: Bytes, ma: Alignment, mb: Alignment)
    requires Aligns(SplitLines(base), SplitLines(ours), ma)
    requires Aligns(SplitLines(base), SplitLines(theirs), mb)
    ensures var picked := MergedLines(SplitLines(base), SplitLines(ours), SplitLines(theirs), ma, mb);
      && SplitLines(Concat(picked)) == picked
      && forall l :: l in picked ==> l in SplitLines(ours) || l in SplitLines(theirs)
  {
    var b, o, t := SplitLines(base), SplitLines(ours), SplitLines(theirs);
    SplitThenConcat(base);
    SplitThenConcat(ours);
    SplitThenConcat(theirs);
    MergeKeepsLinesFrom(b, o, t, ma, mb, 0, 0, 0, 0);
    ConcatThenSplit(MergedLines(b, o, t, ma, mb));
  }

  // ---- Disjoint edits both survive ----

  /** A stretch of the base: left alone by both, rewritten by one side only, or by both. */
  datatype Block =
    | Keep(lines: Text)
    | OursEdit(before: Text, after: Text)
    | TheirsEdit(before: Text, after: Text)
    | Contested(base: Text, ours: Text, theirs: Text)
  {
    function Base(): Text {
      if Keep? then lines else if Contested? then base else before
    }
    function Ours(): Text {
      if Keep? then lines else if Contested? then ours else if OursEdit? then after else before
    }
    function Theirs(): Text {
      if Keep? then lines else if Contested? then theirs else if TheirsEdit? then after else before
    }
    /** The stretch with the edit that was made to it; of two, theirs, unless it changed nothing. */
    function Merged(): Text {
      if Keep? then lines else if Contested? then (if Concat(theirs) == Concat(base) then ours else theirs) else after
    }
  }

  function BaseOf(bs: seq<Block>): Text {
    if bs == [] then [] else bs[0].Base() + BaseOf(bs[1..])
  }

  function OursOf(bs: seq<Block>): Text {
    if bs == [] then [] else bs[0].Ours() + OursOf(bs[1..])
  }

  function TheirsOf(bs: seq<Block>): Text {
    if bs == [] then [] else bs[0].Theirs() + TheirsOf(bs[1..])
  }

  function MergedOf(bs: seq<Block>): Text {
    if bs == [] then [] else bs[0].Merged() + MergedOf(bs[1..])
  }

  /** Any two edited stretches have at least one kept line between them. */
  predicate Separated(bs: seq<Block>) {
    && (forall i :: 0 <= i < |bs| && bs[i].Keep? ==> bs[i].lines != [])
    && (forall i :: 0 <= i < |bs| - 1 ==> bs[i].Keep? || bs[i + 1].Keep?)
  }

  /** From line `at` of the base and line `to` of the other text, `n` lines are matched one for one. */
  predicate MatchedFrom(m: Alignment, at: nat, to: nat, n: nat) {
    forall i :: at <= i < at + n ==> i in m && m[i] == to + (i - at)
  }

  /** No base line in the stretch is matched on both sides. */
  predicate NoAnchorIn(ma: Alignment, mb: Alignment, i: nat, j: nat) {
    forall k :: i <= k < j ==> !(k in ma && k in mb)
  }

  /** Each side's alignment matches, line for line, every stretch that side left alone, and no line of
      a contested stretch is matched on both sides. */
  predicate MatchesUnchanged(bs: seq<Block>, ma: Alignment, mb: Alignment, pb: nat, po: nat, pt: nat)
    decreases |bs|
  {
    bs == [] ||
    (&& (bs[0].Keep? || bs[0].TheirsEdit? ==> MatchedFrom(ma, pb, po, |bs[0].Base()|))
     && (bs[0].Keep? || bs[0].OursEdit? ==> MatchedFrom(mb, pb, pt, |bs[0].Base()|))
     && (bs[0].Contested? ==> NoAnchorIn(ma, mb, pb, pb + |bs[0].Base()|))
     && MatchesUnchanged(bs[1..], ma, mb, pb + |bs[0].Base()|, po + |bs[0].Ours()|, pt + |bs[0].Theirs()|))
  }

  /** Three texts, from given lines on, spell out the blocks. */
  ghost predicate Spells(b: Text, o: Text, t: Text, pb: nat, po: nat, pt: nat, bs: seq<Block>) {
    && pb <= |b| && po <= |o| && pt <= |t|
    && b[pb..] == BaseOf(bs) && o[po..] == OursOf(bs) && t[pt..] == TheirsOf(bs)
  }

  lemma SpellsNext(b: Text, o: Text, t: Text, pb: nat, po: nat, pt: nat, bs: seq<Block>)
    requires Spells(b, o, t, pb, po, pt, bs) && bs != []
    ensures Spells(b, o, t, pb + |bs[0].Base()|, po + |bs[0].Ours()|, pt + |bs[0].Theirs()|, bs[1..])
    ensures b[pb..pb + |bs[0].Base()|] == bs[0].Base()
    ensures o[po..po + |bs[0].Ours()|] == bs[0].Ours()
    ensures t[pt..pt + |bs[0].Theirs()|] == bs[0].Theirs()
  {
    hide Spells, BaseOf, OursOf, TheirsOf, Block.Base, Block.Ours, Block.Theirs, Block.Merged, MergedOf;
    var x, y, z := bs[0].Base(), bs[0].Ours(), bs[0].Theirs();
    SpellsMeans(b, o, t, pb, po, pt, bs);
    FirstBlock(bs);
    Advance(b, pb, x, BaseOf(bs[1..]));
    Advance(o, po, y, OursOf(bs[1..]));
    Advance(t, pt, z, TheirsOf(bs[1..]));
    SpellsMeans(b, o, t, pb + |x|, po + |y|, pt + |z|, bs[1..]);
  }

  lemma FirstBlock(bs: seq<Block>)
    requires bs != []
    ensures BaseOf(bs) == bs[0].Base() + BaseOf(bs[1..])
    ensures OursOf(bs) == bs[0].Ours() + OursOf(bs[1..])
    ensures TheirsOf(bs) == bs[0].Theirs() + TheirsOf(bs[1..])
    ensures MergedOf(bs) == bs[0].Merged() + MergedOf(bs[1..])
  {
  }

  lemma SpellsMeans(b: Text, o: Text, t: Text, pb: nat, po: nat, pt: nat, bs: seq<Block>)
    ensures Spells(b, o, t, pb, po, pt, bs) <==>
      && pb <= |b| && po <= |o| && pt <= |t|
      && b[pb..] == BaseOf(bs) && o[po..] == OursOf(bs) && t[pt..] == TheirsOf(bs)
  {
  }

  lemma Advance(s: Text, i: nat, x: Text, y: Text)
    requires i <= |s| && s[i..] == x + y
    ensures i + |x| <= |s| && s[i..i + |x|] == x && s[i + |x|..] == y
  {
    assert |s[i..]| == |x| + |y|;
    assert s[i..i + |x|] == s[i..][..|x|];
    assert s[i + |x|..] == s[i..][|x|..];
  }

  /** Kept lines are anchors: they come out as they are. */
  lemma {:induction false} KeepStretch(b: Text, o: Text, t: Text, ma: Alignment, mb: Alignment, pb: nat, po: nat, pt: nat, n: nat)
    requires Fits(b, o, t, ma, mb, pb, po, pt) && pb + n <= |b|
    requires MatchedFrom(ma, pb, po, n) && MatchedFrom(mb, pb, pt, n)
    ensures Fits(b, o, t, ma, mb, pb + n, po + n, pt + n)
    ensures MergeFrom(b, o, t, ma, mb, pb, pb, po, pt) == b[pb..pb + n] + MergeFrom(b, o, t, ma, mb, pb + n, pb + n, po + n, pt + n)
    decreases n
  {
    hide MergeFrom, Resolve, Fits;
    if n == 0 {
      assert b[pb..pb] == [];
    } else {
      KeepLine(b, o, t, ma, mb, pb, po, pt);
      KeepStretch(b, o, t, ma, mb, pb + 1, po + 1, pt + 1, n - 1);
      assert b[pb..pb + n] == [b[pb]] + b[pb + 1..pb + n];
      var rest := MergeFrom(b, o, t, ma, mb, pb + n, pb + n, po + n, pt + n);
      assert [b[pb]] + (b[pb + 1..pb + n] + rest) == b[pb..pb + n] + rest;
    }
  }

  lemma KeepLine(b: Text, o: Text, t: Text, ma: Alignment, mb: Alignment, pb: nat, po: nat, pt: nat)
    requires Fits(b, o, t, ma, mb, pb, po, pt) && pb < |b|
    requires pb in ma && ma[pb] == po && pb in mb && mb[pb] == pt
    ensures Fits(b, o, t, ma, mb, pb + 1, po + 1, pt + 1)
    ensures MergeFrom(b, o, t, ma, mb, pb, pb, po, pt) == [b[pb]] + MergeFrom(b, o, t, ma, mb, pb + 1, pb + 1, po + 1, pt + 1)
  {
    hide MergeFrom, Resolve, Fits;
    var rest := MergeAnchor(b, o, t, ma, mb, pb, pb, po, pt);
    assert b[pb..pb] == [] && o[po..po] == [] && t[pt..pt] == [];
    NothingToResolve();
    assert [] + [b[pb]] + rest == [b[pb]] + rest;
  }

  /** A stretch ends where all three texts end, or where both alignments match the next line. */
  ghost predicate Ends(b: Text, o: Text, t: Text, ma: Alignment, mb: Alignment, e: nat, eo: nat, et: nat) {
    (e == |b| && eo == |o| && et == |t|) ||
    (e < |b| && e in ma && ma[e] == eo && e in mb && mb[e] == et)
  }

  lemma EndsFits(b: Text, o: Text, t: Text, ma: Alignment, mb: Alignment, e: nat, eo: nat, et: nat)
    requires Aligns(b, o, ma) && Aligns(b, t, mb) && Ends(b, o, t, ma, mb, e, eo, et)
    ensures Fits(b, o, t, ma, mb, e, eo, et)
    ensures forall i :: i < e && i in ma ==> ma[i] < eo
    ensures forall i :: i < e && i in mb ==> mb[i] < et
  {
  }

  /** At its end, the pending part of a stretch is one chunk, and the rest starts afresh. */
  lemma FlushAtEnd(b: Text, o: Text, t: Text, ma: Alignment, mb: Alignment, qb: nat, qo: nat, qt: nat, e: nat, eo: nat, et: nat)
    requires Fits(b, o, t, ma, mb, e, qo, qt) && qb <= e && qo <= eo && qt <= et
    requires Ends(b, o, t, ma, mb, e, eo, et) && Fits(b, o, t, ma, mb, e, eo, et)
    ensures Concat(MergeFrom(b, o, t, ma, mb, e, qb, qo, qt)) ==
      Concat(Resolve(b[qb..e], o[qo..eo], t[qt..et])) + Concat(MergeFrom(b, o, t, ma, mb, e, e, eo, et))
  {
    hide Concat, Resolve, MergeFrom, Fits;
    FitsMeans(b, o, t, ma, mb, e, eo, et);
    var chunk := Resolve(b[qb..e], o[qo..eo], t[qt..et]);
    assert b[e..e] == [] && o[eo..eo] == [] && t[et..et] == [];
    NothingToResolve();
    if e == |b| {
      assert b[qb..] == b[qb..e] && o[qo..] == o[qo..eo] && t[qt..] == t[qt..et];
      assert b[e..] == [] && o[eo..] == [] && t[et..] == [];
      MergeEnd(b, o, t, ma, mb, qb, qo, qt);
      MergeEnd(b, o, t, ma, mb, e, eo, et);
    } else {
      var rest := MergeAnchor(b, o, t, ma, mb, e, qb, qo, qt);
      var same := MergeAnchor(b, o, t, ma, mb, e, e, eo, et);
      assert chunk + [b[e]] + rest == chunk + ([b[e]] + rest);
      assert [] + [b[e]] + rest == [b[e]] + rest;
      ConcatAppend(chunk, [b[e]] + rest);
    }
  }

  lemma MergeEnd(b: Text, o: Text, t: Text, ma: Alignment, mb: Alignment, pb: nat, po: nat, pt: nat)
    requires Fits(b, o, t, ma, mb, |b|, po, pt) && pb <= |b|
    ensures po <= |o| && pt <= |t|
    ensures MergeFrom(b, o, t, ma, mb, |b|, pb, po, pt) == Resolve(b[pb..], o[po..], t[pt..])
  {
    hide Resolve;
  }

  lemma MergeAnchor(b: Text, o: Text, t: Text, ma: Alignment, mb: Alignment, k: nat, pb: nat, po: nat, pt: nat) returns (rest: Text)
    requires Fits(b, o, t, ma, mb, k, po, pt) && pb <= k < |b| && k in ma && k in mb
    ensures po <= ma[k] < |o| && pt <= mb[k] < |t| && Fits(b, o, t, ma, mb, k + 1, ma[k] + 1, mb[k] + 1)
    ensures rest == MergeFrom(b, o, t, ma, mb, k + 1, k + 1, ma[k] + 1, mb[k] + 1)
    ensures MergeFrom(b, o, t, ma, mb, k, pb, po, pt) == Resolve(b[pb..k], o[po..ma[k]], t[pt..mb[k]]) + [b[k]] + rest
  {
    hide Resolve;
    rest := MergeFrom(b, o, t, ma, mb, k + 1, k + 1, ma[k] + 1, mb[k] + 1);
  }

  lemma NothingToResolve()
    ensures Resolve([], [], []) == [] && Concat([]) == []
  {
  }

  lemma ConcatAround(x: Text, at: nat, i: nat, j: nat)
    requires i <= at < j <= |x|
    ensures Concat(x[i..j]) == Concat(x[i..at]) + x[at] + Concat(x[at + 1..j])
  {
    assert x[i..j] == x[i..at] + ([x[at]] + x[at + 1..j]);
    ConcatAppend(x[i..at], [x[at]] + x[at + 1..j]);
  }

  /** Equal slices of two texts stay equal on both sides of line `k`. */
  lemma SameSlices(b: Text, i: nat, e: nat, t: Text, i': nat, e': nat, k: nat)
    requires i <= k < e <= |b| && i' <= e' <= |t| && e - i == e' - i' && b[i..e] == t[i'..e']
    ensures b[i..k] == t[i'..i' + (k - i)] && b[k + 1..e] == t[i' + (k - i) + 1..e']
  {
    var j := k - i;
    Subslice(b, i, e, 0, j);
    Subslice(t, i', e', 0, j);
    Subslice(b, i, e, j + 1, e - i);
    Subslice(t, i', e', j + 1, e - i);
  }

  lemma Subslice(s: Text, i: nat, e: nat, p: nat, q: nat)
    requires i <= e <= |s| && p <= q <= e - i
    ensures s[i..e][p..q] == s[i + p..i + q]
  {
    var x, y := s[i..e][p..q], s[i + p..i + q];
    forall h | 0 <= h < q - p
      ensures x[h] == y[h]
    {
      assert x[h] == s[i..e][p + h] == s[i + (p + h)];
    }
  }

  /** A stretch theirs left alone comes out as ours, however ours is aligned inside it. */
  lemma {:induction false} OursStretch(b: Text, o: Text, t: Text, ma: Alignment, mb: Alignment,
      k: nat, qb: nat, qo: nat, qt: nat, e: nat, eo: nat, et: nat)
    requires Fits(b, o, t, ma, mb, k, qo, qt) && qb <= k <= e <= |b| && qo <= eo <= |o| && et <= |t|
    requires e - qb == et - qt && b[qb..e] == t[qt..et]
    requires forall i :: qb <= i < e ==> i in mb && mb[i] == qt + (i - qb)
    requires Ends(b, o, t, ma, mb, e, eo, et)
    ensures Fits(b, o, t, ma, mb, e, eo, et)
    ensures Concat(MergeFrom(b, o, t, ma, mb, k, qb, qo, qt)) ==
      Concat(o[qo..eo]) + Concat(MergeFrom(b, o, t, ma, mb, e, e, eo, et))
    decreases e - k
  {
    hide Concat, Resolve, MergeFrom, Ends;
    EndsFits(b, o, t, ma, mb, e, eo, et);
    if k == e {
      ResolvePicks(b[qb..e], o[qo..eo], t[qt..et]);
      FlushAtEnd(b, o, t, ma, mb, qb, qo, qt, e, eo, et);
    } else if k in ma {
      SameSlices(b, qb, e, t, qt, et, k);
      ResolvePicks(b[qb..k], o[qo..ma[k]], t[qt..mb[k]]);
      NextAnchorFrom(b, o, t, ma, mb, k, qb, qo, qt);
      OursStretch(b, o, t, ma, mb, k + 1, k + 1, ma[k] + 1, mb[k] + 1, e, eo, et);
      ConcatAround(o, ma[k], qo, eo);
      Regroup(Concat(o[qo..ma[k]]), b[k], Concat(o[ma[k] + 1..eo]), Concat(MergeFrom(b, o, t, ma, mb, e, e, eo, et)));
    } else {
      SkipToAnchor(b, o, t, ma, mb, k, k + 1, qb, qo, qt);
      OursStretch(b, o, t, ma, mb, k + 1, qb, qo, qt, e, eo, et);
    }
  }

  /** A stretch ours left alone comes out as theirs. */
  lemma {:induction false} TheirsStretch(b: Text, o: Text, t: Text, ma: Alignment, mb: Alignment,
      k: nat, qb: nat, qo: nat, qt: nat, e: nat, eo: nat, et: nat)
    requires Fits(b, o, t, ma, mb, k, qo, qt) && qb <= k <= e <= |b| && eo <= |o| && qt <= et <= |t|
    requires e - qb == eo - qo && b[qb..e] == o[qo..eo]
    requires forall i :: qb <= i < e ==> i in ma && ma[i] == qo + (i - qb)
    requires Ends(b, o, t, ma, mb, e, eo, et)
    ensures Fits(b, o, t, ma, mb, e, eo, et)
    ensures Concat(MergeFrom(b, o, t, ma, mb, k, qb, qo, qt)) ==
      Concat(t[qt..et]) + Concat(MergeFrom(b, o, t, ma, mb, e, e, eo, et))
    decreases e - k
  {
    hide Concat, Resolve, MergeFrom, Ends;
    EndsFits(b, o, t, ma, mb, e, eo, et);
    if k == e {
      ResolvePicks(b[qb..e], o[qo..eo], t[qt..et]);
      FlushAtEnd(b, o, t, ma, mb, qb, qo, qt, e, eo, et);
    } else if k in mb {
      SameSlices(b, qb, e, o, qo, eo, k);
      ResolvePicks(b[qb..k], o[qo..ma[k]], t[qt..mb[k]]);
      NextAnchorFrom(b, o, t, ma, mb, k, qb, qo, qt);
      TheirsStretch(b, o, t, ma, mb, k + 1, k + 1, ma[k] + 1, mb[k] + 1, e, eo, et);
      ConcatAround(t, mb[k], qt, et);
      Regroup(Concat(t[qt..mb[k]]), b[k], Concat(t[mb[k] + 1..et]), Concat(MergeFrom(b, o, t, ma, mb, e, e, eo, et)));
    } else {
      SkipToAnchor(b, o, t, ma, mb, k, k + 1, qb, qo, qt);
      TheirsStretch(b, o, t, ma, mb, k + 1, qb, qo, qt, e, eo, et);
    }
  }

  lemma Regroup(a: Bytes, b: Bytes, c: Bytes, d: Bytes)
    ensures a + b + (c + d) == a + b + c + d
  {
  }

  lemma NextAnchorFrom(b: Text, o: Text, t: Text, ma: Alignment, mb: Alignment, k: nat, pb: nat, po: nat, pt: nat)
    requires Fits(b, o, t, ma, mb, k, po, pt) && pb <= k < |b| && k in ma && k in mb
    ensures Fits(b, o, t, ma, mb, k + 1, ma[k] + 1, mb[k] + 1)
    ensures Concat(MergeFrom(b, o, t, ma, mb, k, pb, po, pt)) ==
      Concat(Resolve(b[pb..k], o[po..ma[k]], t[pt..mb[k]])) + b[k] +
      Concat(MergeFrom(b, o, t, ma, mb, k + 1, k + 1, ma[k] + 1, mb[k] + 1))
  {
    hide Concat, Resolve, MergeFrom, Fits;
    var rest := MergeAnchor(b, o, t, ma, mb, k, pb, po, pt);
    var chunk := Resolve(b[pb..k], o[po..ma[k]], t[pt..mb[k]]);
    ConcatAppend(chunk + [b[k]], rest);
    ConcatAppend(chunk, [b[k]]);
    OneLine(b[k]);
  }

  lemma {:induction false} BlocksSurvive(b: Text, o: Text, t: Text, ma: Alignment, mb: Alignment,
      pb: nat, po: nat, pt: nat, bs: seq<Block>)
    requires Fits(b, o, t, ma, mb, pb, po, pt) && Spells(b, o, t, pb, po, pt, bs)
    requires Separated(bs) && MatchesUnchanged(bs, ma, mb, pb, po, pt)
    ensures Concat(MergeFrom(b, o, t, ma, mb, pb, pb, po, pt)) == Concat(MergedOf(bs))
    decreases |bs|
  {
    hide Concat, Resolve, MergeFrom, Spells, Fits, MatchedFrom;
    if bs == [] {
      NothingLeft(b, o, t, ma, mb, pb, po, pt);
    } else {
      var x, rest := bs[0], bs[1..];
      var e, eo, et := pb + |x.Base()|, po + |x.Ours()|, pt + |x.Theirs()|;
      StretchSurvives(b, o, t, ma, mb, pb, po, pt, bs);
      assert forall i :: 0 <= i < |rest| ==> rest[i] == bs[i + 1];
      BlocksSurvive(b, o, t, ma, mb, e, eo, et, rest);
      ConcatAppend(x.Merged(), MergedOf(rest));
    }
  }

  lemma NothingLeft(b: Text, o: Text, t: Text, ma: Alignment, mb: Alignment, pb: nat, po: nat, pt: nat)
    requires Fits(b, o, t, ma, mb, pb, po, pt) && Spells(b, o, t, pb, po, pt, [])
    ensures MergeFrom(b, o, t, ma, mb, pb, pb, po, pt) == []
  {
    assert b[pb..] == [] && o[po..] == [] && t[pt..] == [];
  }

  /** If the first block is an edit, a kept line comes after it, or nothing. */
  predicate SetApartFirst(bs: seq<Block>) {
    bs != [] && !bs[0].Keep? && |bs| > 1 ==> bs[1].Keep? && bs[1].lines != []
  }

  /** The first block comes out with whichever edit was made to it. */
  lemma StretchSurvives(b: Text, o: Text, t: Text, ma: Alignment, mb: Alignment,
      pb: nat, po: nat, pt: nat, bs: seq<Block>)
    requires Fits(b, o, t, ma, mb, pb, po, pt) && Spells(b, o, t, pb, po, pt, bs)
    requires bs != [] && SetApartFirst(bs) && MatchesUnchanged(bs, ma, mb, pb, po, pt)
    ensures var e, eo, et := pb + |bs[0].Base()|, po + |bs[0].Ours()|, pt + |bs[0].Theirs()|;
      && Fits(b, o, t, ma, mb, e, eo, et) && Spells(b, o, t, e, eo, et, bs[1..])
      && Concat(MergeFrom(b, o, t, ma, mb, pb, pb, po, pt)) ==
         Concat(bs[0].Merged()) + Concat(MergeFrom(b, o, t, ma, mb, e, e, eo, et))
  {
    hide Concat, Resolve, MergeFrom, Fits, Spells, BaseOf, OursOf, TheirsOf, MatchedFrom, SetApartFirst, MatchesUnchanged;
    hide NoAnchorIn;
    hide Block.Base, Block.Ours, Block.Theirs, Block.Merged;
    var e, eo, et := pb + |bs[0].Base()|, po + |bs[0].Ours()|, pt + |bs[0].Theirs()|;
    SpellsNext(b, o, t, pb, po, pt, bs);
    SpellsMeans(b, o, t, e, eo, et, bs[1..]);
    FirstMatches(bs, ma, mb, pb, po, pt);
    SidesOf(bs[0]);
    if bs[0].Keep? {
      KeepSurvives(b, o, t, ma, mb, pb, po, pt, |bs[0].Base()|);
    } else if bs[0].Contested? {
      FitsMeans(b, o, t, ma, mb, pb, po, pt);
      EditEnds(b, o, t, ma, mb, e, eo, et, bs);
      StretchIsOneChunk(b, o, t, ma, mb, pb, po, pt, e, eo, et);
    } else {
      FitsMeans(b, o, t, ma, mb, pb, po, pt);
      EditEnds(b, o, t, ma, mb, e, eo, et, bs);
      EditSurvives(b, o, t, ma, mb, pb, po, pt, e, eo, et, bs[0].OursEdit?);
    }
  }

  lemma FirstMatches(bs: seq<Block>, ma: Alignment, mb: Alignment, pb: nat, po: nat, pt: nat)
    requires bs != [] && MatchesUnchanged(bs, ma, mb, pb, po, pt)
    ensures bs[0].Keep? || bs[0].TheirsEdit? ==> MatchedFrom(ma, pb, po, |bs[0].Base()|)
    ensures bs[0].Keep? || bs[0].OursEdit? ==> MatchedFrom(mb, pb, pt, |bs[0].Base()|)
    ensures bs[0].Contested? ==> NoAnchorIn(ma, mb, pb, pb + |bs[0].Base()|)
    ensures MatchesUnchanged(bs[1..], ma, mb, pb + |bs[0].Base()|, po + |bs[0].Ours()|, pt + |bs[0].Theirs()|)
  {
    hide MatchedFrom, NoAnchorIn;
  }

  lemma SidesOf(x: Block)
    ensures !x.Contested? ==> x.Merged() == if x.OursEdit? then x.Ours() else x.Theirs()
    ensures !x.Contested? ==> if x.OursEdit? then x.Theirs() == x.Base() else x.Ours() == x.Base()
    ensures x.Keep? ==> x.Theirs() == x.Base()
    ensures x.Contested? ==> Concat(x.Merged()) == Concat(Resolve(x.Base(), x.Ours(), x.Theirs()))
  {
  }

  lemma KeepSurvives(b: Text, o: Text, t: Text, ma: Alignment, mb: Alignment, pb: nat, po: nat, pt: nat, n: nat)
    requires Fits(b, o, t, ma, mb, pb, po, pt) && pb + n <= |b|
    requires MatchedFrom(ma, pb, po, n) && MatchedFrom(mb, pb, pt, n)
    ensures Fits(b, o, t, ma, mb, pb + n, po + n, pt + n)
    ensures Concat(MergeFrom(b, o, t, ma, mb, pb, pb, po, pt)) ==
      Concat(b[pb..pb + n]) + Concat(MergeFrom(b, o, t, ma, mb, pb + n, pb + n, po + n, pt + n))
  {
    hide Concat, MergeFrom, Fits, MatchedFrom;
    KeepStretch(b, o, t, ma, mb, pb, po, pt, n);
    ConcatAppend(b[pb..pb + n], MergeFrom(b, o, t, ma, mb, pb + n, pb + n, po + n, pt + n));
  }

  /** A stretch one side left alone comes out as the other side has it. */
  lemma EditSurvives(b: Text, o: Text, t: Text, ma: Alignment, mb: Alignment, pb: nat, po: nat, pt: nat, e: nat, eo: nat, et: nat, byOurs: bool)
    requires Fits(b, o, t, ma, mb, pb, po, pt) && pb <= e <= |b| && po <= eo <= |o| && pt <= et <= |t|
    requires if byOurs then b[pb..e] == t[pt..et] && MatchedFrom(mb, pb, pt, e - pb) else b[pb..e] == o[po..eo] && MatchedFrom(ma, pb, po, e - pb)
    requires Ends(b, o, t, ma, mb, e, eo, et)
    ensures Fits(b, o, t, ma, mb, e, eo, et)
    ensures Concat(MergeFrom(b, o, t, ma, mb, pb, pb, po, pt)) ==
      Concat(if byOurs then o[po..eo] else t[pt..et]) + Concat(MergeFrom(b, o, t, ma, mb, e, e, eo, et))
  {
    hide Concat, MergeFrom, Fits, MatchedFrom, Ends;
    FitsMeans(b, o, t, ma, mb, pb, po, pt);
    assert |b[pb..e]| == e - pb;
    if byOurs {
      assert |t[pt..et]| == et - pt;
      MatchedMeans(mb, pb, pt, e - pb);
      OursStretch(b, o, t, ma, mb, pb, pb, po, pt, e, eo, et);
    } else {
      assert |o[po..eo]| == eo - po;
      MatchedMeans(ma, pb, po, e - pb);
      TheirsStretch(b, o, t, ma, mb, pb, pb, po, pt, e, eo, et);
    }
  }

  lemma FitsMeans(b: Text, o: Text, t: Text, ma: Alignment, mb: Alignment, k: nat, po: nat, pt: nat)
    requires Fits(b, o, t, ma, mb, k, po, pt)
    ensures Aligns(b, o, ma) && Aligns(b, t, mb) && k <= |b| && po <= |o| && pt <= |t|
  {
  }

  lemma MatchedMeans(m: Alignment, at: nat, to: nat, n: nat)
    requires MatchedFrom(m, at, to, n)
    ensures forall i :: at <= i < at + n ==> i in m && m[i] == to + (i - at)
  {
  }

  /** After an edit comes a kept line, or the end. */
  lemma EditEnds(b: Text, o: Text, t: Text, ma: Alignment, mb: Alignment, e: nat, eo: nat, et: nat, bs: seq<Block>)
    requires Aligns(b, o, ma) && bs != [] && SetApartFirst(bs) && !bs[0].Keep?
    requires Spells(b, o, t, e, eo, et, bs[1..])
    requires MatchesUnchanged(bs[1..], ma, mb, e, eo, et)
    ensures Ends(b, o, t, ma, mb, e, eo, et)
  {
    if |bs| > 1 {
      assert bs[1..][0] == bs[1] && bs[1].Keep? && bs[1].lines != [];
      assert e in ma && e in mb;
    }
  }

  /** Stretches with at least one untouched line between any two are merged one by one: an edit made
      by one side comes out, and of a contested stretch theirs does, unless only ours changed it. For
      every pair of alignments that match what each side left alone, and nothing on both sides of a
      contested stretch. */
  lemma DisjointEditsSurvive(bs: seq<Block>, ma: Alignment, mb: Alignment)
    requires Separated(bs)
    requires Aligns(BaseOf(bs), OursOf(bs), ma) && Aligns(BaseOf(bs), TheirsOf(bs), mb)
    requires MatchesUnchanged(bs, ma, mb, 0, 0, 0)
    ensures Concat(MergedLines(BaseOf(bs), OursOf(bs), TheirsOf(bs), ma, mb)) == Concat(MergedOf(bs))
  {
    BlocksSurvive(BaseOf(bs), OursOf(bs), TheirsOf(bs), ma, mb, 0, 0, 0, bs);
  }

  // ---- Touching edits ----

  /** Blocks that end in a kept line, with every edit before it set apart. */
  predicate EndsKept(bs: seq<Block>) {
    Separated(bs) && (bs != [] ==> bs[|bs| - 1].Keep?)
  }

  predicate StartsKept(bs: seq<Block>) {
    Separated(bs) && (bs != [] ==> bs[0].Keep?)
  }

  /** The edit leaves the text as it was. */
  predicate Idle(x: Block) {
    Concat(x.Base()) == Concat(x.Merged())
  }

  predicate OppositeEdits(x: Block, y: Block) {
    (x.OursEdit? && y.TheirsEdit?) || (x.TheirsEdit? && y.OursEdit?)
  }

  /** A stretch without an anchor is one chunk. */
  lemma StretchIsOneChunk(b: Text, o: Text, t: Text, ma: Alignment, mb: Alignment, pb: nat, po: nat, pt: nat, e: nat, eo: nat, et: nat)
    requires Fits(b, o, t, ma, mb, pb, po, pt) && pb <= e <= |b| && po <= eo <= |o| && pt <= et <= |t|
    requires NoAnchorIn(ma, mb, pb, e) && Ends(b, o, t, ma, mb, e, eo, et)
    ensures Fits(b, o, t, ma, mb, e, eo, et)
    ensures Concat(MergeFrom(b, o, t, ma, mb, pb, pb, po, pt)) ==
      Concat(Resolve(b[pb..e], o[po..eo], t[pt..et])) + Concat(MergeFrom(b, o, t, ma, mb, e, e, eo, et))
  {
    hide Concat, Resolve, MergeFrom;
    FitsMeans(b, o, t, ma, mb, pb, po, pt);
    EndsFits(b, o, t, ma, mb, e, eo, et);
    SkipToAnchor(b, o, t, ma, mb, pb, e, pb, po, pt);
    FlushAtEnd(b, o, t, ma, mb, pb, po, pt, e, eo, et);
  }

  /** What two touching edits of opposite sides are together: one contested stretch. */
  function Joint(x: Block, y: Block): Block {
    Contested(x.Base() + y.Base(), x.Ours() + y.Ours(), x.Theirs() + y.Theirs())
  }

  /** Of such a stretch both rewritings come out exactly when one of them changed nothing, and
      otherwise theirs alone does, with what ours had before. */
  lemma JointKeepsBoth(x: Block, y: Block)
    requires OppositeEdits(x, y)
    ensures (Concat(Joint(x, y).Merged()) == Concat(x.Merged()) + Concat(y.Merged())) <==> (Idle(x) || Idle(y))
    ensures !Idle(x) && !Idle(y) ==> Concat(Joint(x, y).Merged()) == Concat(x.Theirs()) + Concat(y.Theirs())
  {
    hide Concat;
    ConcatAppend(x.Base(), y.Base());
    ConcatAppend(x.Ours(), y.Ours());
    ConcatAppend(x.Theirs(), y.Theirs());
    var a, a', c, c' := Concat(x.before), Concat(x.after), Concat(y.before), Concat(y.after);
    Cancel(a', c, c');
    Cancel(a, c, c');
    CancelRight(a, a', c);
    CancelRight(a, a', c');
  }

  lemma Cancel(a: Bytes, c: Bytes, c': Bytes)
    ensures a + c == a + c' <==> c == c'
  {
    assert (a + c)[|a|..] == c && (a + c')[|a|..] == c';
  }

  lemma CancelRight(a: Bytes, a': Bytes, c: Bytes)
    ensures a + c == a' + c <==> a == a'
  {
    if a + c == a' + c {
      assert |a + c| == |a' + c| && |a| == |a'|;
      assert (a + c)[..|a|] == a && (a' + c)[..|a'|] == a';
    }
  }

  lemma NoBlocks()
    ensures BaseOf([]) == [] && OursOf([]) == [] && TheirsOf([]) == [] && MergedOf([]) == []
  {
  }

  lemma NoLines()
    ensures Concat([]) == []
  {
  }

  lemma TailMatters(b: Bytes, x: Bytes, y: Bytes, c: Bytes)
    ensures b + (x + c) == b + (y + c) <==> x == y
  {
    Cancel(b, x + c, y + c);
    CancelRight(x, y, c);
  }

  lemma {:induction false} MergedAppend(a: seq<Block>, b: seq<Block>)
    ensures MergedOf(a + b) == MergedOf(a) + MergedOf(b)
  {
    if a == [] {
      assert a + b == b;
    } else {
      assert (a + b)[1..] == a[1..] + b;
      MergedAppend(a[1..], b);
    }
  }

  /** Two edits of opposite sides with nothing between them, among any other stretches that are set
      apart, and matched line for line wherever a side left the base alone. If no line inside is
      matched on both sides, both come out if and only if one of them changed nothing; otherwise
      what comes out there is theirs. */
  lemma TouchingEditsConflict(head: seq<Block>, x: Block, y: Block, tail: seq<Block>, ma: Alignment, mb: Alignment)
    requires EndsKept(head) && OppositeEdits(x, y) && StartsKept(tail)
    requires var bs := head + [x, y] + tail;
      Aligns(BaseOf(bs), OursOf(bs), ma) && Aligns(BaseOf(bs), TheirsOf(bs), mb) && MatchesUnchanged(bs, ma, mb, 0, 0, 0)
    requires NoAnchorIn(ma, mb, |BaseOf(head)|, |BaseOf(head)| + |x.Base()| + |y.Base()|)
    ensures var bs := head + [x, y] + tail;
      var merged := Concat(MergedLines(BaseOf(bs), OursOf(bs), TheirsOf(bs), ma, mb));
      && (merged == Concat(MergedOf(bs)) <==> (Idle(x) || Idle(y)))
      && (!Idle(x) && !Idle(y) ==>
            merged == Concat(MergedOf(head)) + (Concat(x.Theirs()) + Concat(y.Theirs()) + Concat(MergedOf(tail))))
  {
    hide Concat, Fits, MatchedFrom, Idle, BaseOf, OursOf, TheirsOf, MergedOf, MergedLines, MatchesUnchanged, Aligns;
    hide NoAnchorIn, Separated, Block.Base, Block.Ours, Block.Theirs, Block.Merged;
    var bs, z := head + [x, y] + tail, Joint(x, y);
    var joint := head + [z] + tail;
    JointSpells(head, x, y, tail);
    JointIsApart(head, z, tail);
    JointMatches(head, x, y, tail, ma, mb, 0, 0, 0);
    DisjointEditsSurvive(joint, ma, mb);
    JointKeepsBoth(x, y);
    MergedAround(head, [z], tail);
    MergedAround(head, [x, y], tail);
    MergedTwo(x, y);
    MergedOne(z);
    ConcatAppend(x.Merged(), y.Merged());
    TailMatters(Concat(MergedOf(head)), Concat(z.Merged()), Concat(x.Merged()) + Concat(y.Merged()), Concat(MergedOf(tail)));
  }

  /** The joint stretch spells out the same three texts. */
  lemma JointSpells(head: seq<Block>, x: Block, y: Block, tail: seq<Block>)
    ensures var bs, joint := head + [x, y] + tail, head + [Joint(x, y)] + tail;
      BaseOf(joint) == BaseOf(bs) && OursOf(joint) == OursOf(bs) && TheirsOf(joint) == TheirsOf(bs)
  {
    hide BaseOf, OursOf, TheirsOf;
    var z := Joint(x, y);
    PairTexts(x, y);
    TextsAppend(head, [x, y] + tail);
    TextsAppend(head, [z] + tail);
    TextsAppend([x, y], tail);
    TextsAppend([z], tail);
    assert head + [x, y] + tail == head + ([x, y] + tail) && head + [z] + tail == head + ([z] + tail);
  }

  lemma PairTexts(x: Block, y: Block)
    ensures BaseOf([Joint(x, y)]) == BaseOf([x, y])
    ensures OursOf([Joint(x, y)]) == OursOf([x, y])
    ensures TheirsOf([Joint(x, y)]) == TheirsOf([x, y])
  {
    hide BaseOf, OursOf, TheirsOf, Block.Base, Block.Ours, Block.Theirs;
    var z := Joint(x, y);
    assert [x, y][1..] == [y] && [y][1..] == [] && [z][1..] == [];
    FirstBlock([x, y]);
    FirstBlock([y]);
    FirstBlock([z]);
    NoBlocks();
    JointSides(x, y);
  }

  lemma JointSides(x: Block, y: Block)
    ensures var z := Joint(x, y);
      z.Base() == x.Base() + y.Base() && z.Ours() == x.Ours() + y.Ours() && z.Theirs() == x.Theirs() + y.Theirs()
  {
  }

  lemma {:induction false} TextsAppend(a: seq<Block>, b: seq<Block>)
    ensures BaseOf(a + b) == BaseOf(a) + BaseOf(b)
    ensures OursOf(a + b) == OursOf(a) + OursOf(b)
    ensures TheirsOf(a + b) == TheirsOf(a) + TheirsOf(b)
  {
    hide Block.Base, Block.Ours, Block.Theirs, Block.Merged;
    if a == [] {
      assert a + b == b;
    } else {
      assert (a + b)[0] == a[0] && (a + b)[1..] == a[1..] + b;
      TextsAppend(a[1..], b);
    }
  }

  lemma JointIsApart(head: seq<Block>, z: Block, tail: seq<Block>)
    requires EndsKept(head) && StartsKept(tail) && z.Contested?
    ensures Separated(head + [z] + tail)
  {
    var bs, n := head + [z] + tail, |head|;
    assert forall i :: 0 <= i < |bs| ==> bs[i] == if i < n then head[i] else if i == n then z else tail[i - n - 1];
  }

  lemma {:induction false} JointMatches(head: seq<Block>, x: Block, y: Block, tail: seq<Block>, ma: Alignment, mb: Alignment,
      pb: nat, po: nat, pt: nat)
    requires MatchesUnchanged(head + [x, y] + tail, ma, mb, pb, po, pt)
    requires NoAnchorIn(ma, mb, pb + |BaseOf(head)|, pb + |BaseOf(head)| + |x.Base()| + |y.Base()|)
    ensures MatchesUnchanged(head + [Joint(x, y)] + tail, ma, mb, pb, po, pt)
    decreases |head|
  {
    hide MatchedFrom, NoAnchorIn, Block.Base, Block.Ours, Block.Theirs, Block.Merged;
    var bs, joint := head + [x, y] + tail, head + [Joint(x, y)] + tail;
    if head == [] {
      assert bs == [x, y] + tail && bs[1..] == [y] + tail && bs[1..][1..] == tail;
      assert joint[0] == Joint(x, y) && joint[1..] == tail;
      JointSides(x, y);
      NoBlocks();
    } else {
      assert bs[0] == head[0] == joint[0];
      assert bs[1..] == head[1..] + [x, y] + tail && joint[1..] == head[1..] + [Joint(x, y)] + tail;
      FirstBlock(head);
      JointMatches(head[1..], x, y, tail, ma, mb, pb + |head[0].Base()|, po + |head[0].Ours()|, pt + |head[0].Theirs()|);
    }
  }

  lemma MergedAround(head: seq<Block>, mid: seq<Block>, tail: seq<Block>)
    ensures Concat(MergedOf(head + mid + tail)) == Concat(MergedOf(head)) + (Concat(MergedOf(mid)) + Concat(MergedOf(tail)))
  {
    hide Concat, Block.Merged;
    assert head + mid + tail == head + (mid + tail);
    MergedAppend(head, mid + tail);
    MergedAppend(mid, tail);
    ConcatAppend(MergedOf(head), MergedOf(mid + tail));
    ConcatAppend(MergedOf(mid), MergedOf(tail));
  }

  lemma MergedOne(z: Block)
    ensures MergedOf([z]) == z.Merged()
  {
    hide Block.Merged;
    NoBlocks();
    FirstBlock([z]);
    assert [z][1..] == [];
  }

  lemma MergedTwo(x: Block, y: Block)
    ensures MergedOf([x, y]) == x.Merged() + y.Merged()
  {
    hide Block.Merged;
    NoBlocks();
    FirstBlock([x, y]);
    FirstBlock([y]);
    assert [x, y][1..] == [y] && [y][1..] == [];
  }

  /** When a pair of edits of opposite sides survives: with a kept line between them always, and
      without one, when no line inside is matched on both sides, if and only if one of the two
      changed nothing. */
  lemma PairOfEdits(head: seq<Block>, x: Block, between: Text, y: Block, tail: seq<Block>, ma: Alignment, mb: Alignment)
    requires EndsKept(head) && OppositeEdits(x, y) && StartsKept(tail)
    requires var bs := head + [x] + (if between == [] then [] else [Keep(between)]) + [y] + tail;
      Aligns(BaseOf(bs), OursOf(bs), ma) && Aligns(BaseOf(bs), TheirsOf(bs), mb) && MatchesUnchanged(bs, ma, mb, 0, 0, 0)
    requires between == [] ==> NoAnchorIn(ma, mb, |BaseOf(head)|, |BaseOf(head)| + |x.Base()| + |y.Base()|)
    ensures var bs := head + [x] + (if between == [] then [] else [Keep(between)]) + [y] + tail;
      (Concat(MergedLines(BaseOf(bs), OursOf(bs), TheirsOf(bs), ma, mb)) == Concat(MergedOf(bs))) <==>
        (between != [] || Idle(x) || Idle(y))
  {
    hide Concat, MergedLines, BaseOf, OursOf, TheirsOf, MergedOf, MatchesUnchanged, Idle, Aligns;
    var bs := head + [x] + (if between == [] then [] else [Keep(between)]) + [y] + tail;
    if between == [] {
      assert bs == head + [x, y] + tail;
      TouchingEditsConflict(head, x, y, tail, ma, mb);
    } else {
      SetApart(head, x, between, y, tail);
      DisjointEditsSurvive(bs, ma, mb);
    }
  }

  /** The smallest such conflict: one line each, each side matched on the line it left alone. Theirs
      comes out, and the line ours rewrote is back as it was. */
  lemma AdjacentLinesConflict(x: Line, y: Line, x': Line, y': Line)
    requires x != x' && y != y'
    ensures var ma: Alignment, mb: Alignment := map[1 := 1], map[0 := 0];
      && Aligns([x, y], [x', y], ma) && Aligns([x, y], [x, y'], mb)
      && Concat(MergedLines([x, y], [x', y], [x, y'], ma, mb)) == x + y' != x' + y'
  {
    hide MergedLines;
    var ma: Alignment, mb: Alignment := map[1 := 1], map[0 := 0];
    var e, f := OursEdit([x], [x']), TheirsEdit([y], [y']);
    var bs := [e, f];
    assert bs[1..] == [f] && [f][1..] == [] && [] + [e, f] + [] == bs;
    FirstBlock(bs);
    FirstBlock([f]);
    NoBlocks();
    assert BaseOf(bs) == [x, y] && OursOf(bs) == [x', y] && TheirsOf(bs) == [x, y'] && MergedOf(bs) == [x', y'];
    OneLine(x);
    OneLine(x');
    OneLine(y);
    OneLine(y');
    NoLines();
    assert MatchesUnchanged([f], ma, mb, 1, 1, 1);
    TouchingEditsConflict([], e, f, [], ma, mb);
    CancelRight(x, x', y');
    assert [] + (x + y' + []) == x + y';
  }

  /** Both rewrote one stretch of the base, differently: theirs comes out, whatever stands around it. */
  lemma ContestedGoesToTheirs(head: seq<Block>, base: Text, ours: Text, theirs: Text, tail: seq<Block>, ma: Alignment, mb: Alignment)
    requires EndsKept(head) && StartsKept(tail) && Concat(theirs) != Concat(base)
    requires var bs := head + [Contested(base, ours, theirs)] + tail;
      Aligns(BaseOf(bs), OursOf(bs), ma) && Aligns(BaseOf(bs), TheirsOf(bs), mb) && MatchesUnchanged(bs, ma, mb, 0, 0, 0)
    ensures var bs := head + [Contested(base, ours, theirs)] + tail;
      Concat(MergedLines(BaseOf(bs), OursOf(bs), TheirsOf(bs), ma, mb)) ==
        Concat(MergedOf(head)) + (Concat(theirs) + Concat(MergedOf(tail)))
  {
    hide Concat, MergedLines, BaseOf, OursOf, TheirsOf, MergedOf, MatchesUnchanged, Aligns;
    var z := Contested(base, ours, theirs);
    JointIsApart(head, z, tail);
    DisjointEditsSurvive(head + [z] + tail, ma, mb);
    MergedAround(head, [z], tail);
    MergedOne(z);
  }

  /** Two texts that share no line with their base are one contested stretch, however they are aligned:
      ours comes out if theirs is the base, and theirs otherwise. */
  lemma NothingShared(base: Bytes, ours: Bytes, theirs: Bytes)
    requires !IsBinary(base) && !IsBinary(ours) && !IsBinary(theirs)
    requires forall l :: l in SplitLines(base) ==> l !in SplitLines(ours) || l !in SplitLines(theirs)
    ensures MergedBlob(base, ours, theirs) == if theirs == base then ours else theirs
  {
    hide IsBinary, MergedLines, Aligns, SplitLines;
    var b, o, t := SplitLines(base), SplitLines(ours), SplitLines(theirs);
    var ma, mb := Pairs(b, o), Pairs(b, t);
    var z := Contested(b, o, t);
    NoBlocks();
    FirstBlock([z]);
    assert [z][1..] == [] && [] + [z] + [] == [z];
    assert b + [] == b && o + [] == o && t + [] == t;
    NoLineMatched(b, o, t, ma, mb);
    assert MatchesUnchanged([z][1..], ma, mb, |b|, |o|, |t|);
    assert MatchesUnchanged([z], ma, mb, 0, 0, 0);
    JointIsApart([], z, []);
    DisjointEditsSurvive([z], ma, mb);
    MergedOne(z);
    SplitThenConcat(base);
    SplitThenConcat(ours);
    SplitThenConcat(theirs);
  }

  lemma NoLineMatched(b: Text, o: Text, t: Text, ma: Alignment, mb: Alignment)
    requires Aligns(b, o, ma) && Aligns(b, t, mb) && forall l :: l in b ==> l !in o || l !in t
    ensures NoAnchorIn(ma, mb, 0, |b|)
  {
    forall k | 0 <= k < |b|
      ensures !(k in ma && k in mb)
    {
      assert b[k] in b && (k in ma ==> b[k] in o) && (k in mb ==> b[k] in t);
    }
  }

  lemma OneLine(x: Line)
    ensures Concat([x]) == x
  {
    assert [x][1..] == [];
  }

  lemma SetApart(head: seq<Block>, x: Block, between: Text, y: Block, tail: seq<Block>)
    requires EndsKept(head) && OppositeEdits(x, y) && StartsKept(tail) && between != []
    ensures Separated(head + [x] + [Keep(between)] + [y] + tail)
  {
    var bs := head + [x] + [Keep(between)] + [y] + tail;
    var n := |head|;
    assert forall i :: 0 <= i < |bs| ==>
      bs[i] == (if i < n then head[i] else if i == n then x else if i == n + 1 then Keep(between) else if i == n + 2 then y else tail[i - n - 3]);
  }

  // ---- Whole trees ----

  /** At a path, at most one side departed from the base, or both made the same change. */
  predicate NoConflict(b: Option<Bytes>, o: Option<Bytes>, t: Option<Bytes>) {
    o == b || t == b || o == t
  }

  /** Path by path: where there is no conflict the change (or deletion) that was made survives,
      whichever side made it, and swapping the sides changes nothing; where one side deleted and
      the other modified, or both added, theirs is taken whole; where both modified, the two
      texts are merged. */
  lemma MergedTreesMeaning(base: Files, ours: Files, theirs: Files, p: string)
    ensures var b, o, t := Lookup(base, p), Lookup(ours, p), Lookup(theirs, p);
      var r := Lookup(MergedTrees(base, ours, theirs), p);
      && (NoConflict(b, o, t) ==> r == (if o == b then t else o) && r == Lookup(MergedTrees(base, theirs, ours), p))
      && (!NoConflict(b, o, t) && (b.None? || o.None? || t.None?) ==> r == t)
      && (!NoConflict(b, o, t) && b.Some? && o.Some? && t.Some? ==> r == Some(MergedBlob(b.value, o.value, t.value)))
  {
    MergedTreesAt(base, ours, theirs, p);
    MergedTreesAt(base, theirs, ours, p);
  }

  /** Merging with an unchanged side is the other side; merging equal sides changes nothing. */
  lemma MergeWithUnchanged(base: Files, x: Files)
    ensures MergedTrees(base, base, x) == x
    ensures MergedTrees(base, x, base) == x
    ensures MergedTrees(base, x, x) == x
  {
    forall p
      ensures Lookup(MergedTrees(base, base, x), p) == Lookup(x, p)
      ensures Lookup(MergedTrees(base, x, base), p) == Lookup(x, p)
      ensures Lookup(MergedTrees(base, x, x), p) == Lookup(x, p)
    {
      MergedTreesAt(base, base, x, p);
      MergedTreesAt(base, x, base, p);
      MergedTreesAt(base, x, x, p);
    }
    SameLookups(MergedTrees(base, base, x), x);
    SameLookups(MergedTrees(base, x, base), x);
    SameLookups(MergedTrees(base, x, x), x);
  }

  /** One side adds a file, the other a directory of that name: the merge has both. */
  lemma MergeHidesDirectory(x: Bytes, y: Bytes)
    ensures MergedTrees(map[], map["a" := x], map["a/b" := y]) == map["a" := x, "a/b" := y]
  {
    var ours, theirs: Files := map["a" := x], map["a/b" := y];
    var both: Files := map["a" := x, "a/b" := y];
    forall p
      ensures Lookup(MergedTrees(map[], ours, theirs), p) == Lookup(both, p)
    {
      MergedTreesAt(map[], ours, theirs, p);
    }
    SameLookups(MergedTrees(map[], ours, theirs), both);
  }

  /** The order of the operands matters exactly where they conflict: this is why the fold needs
      a total order on its inputs. */
  lemma MergeDependsOnOrder(x: Bytes, y: Bytes)
    requires x != y
    ensures MergedTrees(map[], map["p" := x], map["p" := y])["p"] == y
    ensures MergedTrees(map[], map["p" := y], map["p" := x])["p"] == x
  {
    MergedTreesAt(map[], map["p" := x], map["p" := y], "p");
    MergedTreesAt(map[], map["p" := y], map["p" := x], "p");
  }
}
