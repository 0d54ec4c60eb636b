/** Which paths are synced (scope.rs): a gitignore-style matcher, the allowlist and ignore list
    over it, and the canonical form of directory-preserving sentinels. */
module Scope {
  import opened Prelude
  import opened Objects
  import opened Text
  import Merge

  type Files = map<Path, Bytes>

  datatype Tok = Lit(c: char) | Any | Star | DStar

  datatype Glob = Glob(negated: bool, anchored: bool, toks: seq<Tok>)

  // ---- Compiling a pattern ----

  function TrimEndReturns(s: string): string {
    if s != "" && s[|s| - 1] == '\r' then TrimEndReturns(s[..|s| - 1]) else s
  }

  function TrimStartSlashes(s: string): string {
    if s != "" && s[0] == '/' then TrimStartSlashes(s[1..]) else s
  }

  /** The tokens of a pattern body; `**` swallows one separator after it. */
  function Tokens(s: string): seq<Tok> {
    if s == "" then []
    else if s[0] == '*' then
      if |s| > 1 && s[1] == '*' then
        [DStar] + Tokens(if |s| > 2 && s[2] == '/' then s[3..] else s[2..])
      else
        [Star] + Tokens(s[1..])
    else
      [if s[0] == '?' then Any else Lit(s[0])] + Tokens(s[1..])
  }

  method TokensLoop(s: string) returns (toks: seq<Tok>)
    ensures toks == Tokens(s)
  {
    hide Tokens;
    toks := [];
    var i := 0;
    assert s[0..] == s;
    while i < |s|
      invariant 0 <= i <= |s|
      invariant toks + Tokens(s[i..]) == Tokens(s)
      decreases |s| - i
    {
      TokensStep(toks, s, i);
      if s[i] == '*' && i + 1 < |s| && s[i + 1] == '*' {
        toks := toks + [DStar];
        i := i + 2;
        if i < |s| && s[i] == '/' {
          i := i + 1;
        }
      } else {
        toks := toks + [if s[i] == '*' then Star else if s[i] == '?' then Any else Lit(s[i])];
        i := i + 1;
      }
    }
    assert s[i..] == "" && toks + [] == toks;
    NoTokens();
  }

  lemma NoTokens()
    ensures Tokens("") == []
  {
  }

  lemma TokensStep(toks: seq<Tok>, s: string, i: nat)
    requires i < |s|
    ensures toks + Tokens(s[i..]) ==
      if s[i] == '*' && i + 1 < |s| && s[i + 1] == '*' then
        toks + [DStar] + Tokens(if i + 2 < |s| && s[i + 2] == '/' then s[i + 3..] else s[i + 2..])
      else
        toks + [if s[i] == '*' then Star else if s[i] == '?' then Any else Lit(s[i])] + Tokens(s[i + 1..])
  {
    var rest := s[i..];
    assert rest[1..] == s[i + 1..];
    if i + 1 < |s| {
      assert rest[2..] == s[i + 2..];
    }
    if i + 2 < |s| {
      assert rest[3..] == s[i + 3..];
    }
  }

  /** `None` for blank and comment lines. */
  function Compile(pat: string): Option<Glob> {
    var p := TrimEndReturns(pat);
    if TrimStart(p) == "" || TrimStart(p)[0] == '#' then None
    else
      var negated := p[0] == '!';
      var q := if negated then p[1..] else p;
      var r := if q != "" && q[|q| - 1] == '/' then q[..|q| - 1] else q;
      Some(Glob(negated, '/' in r, Tokens(TrimStartSlashes(r))))
  }

  method CompilePattern(pat: string) returns (g: Option<Glob>)
    ensures g == Compile(pat)
  {
    var p := TrimEndReturns(pat);
    if TrimStart(p) == "" || TrimStart(p)[0] == '#' {
      return None;
    }
    var negated := p[0] == '!';
    if negated {
      p := p[1..];
    }
    if p != "" && p[|p| - 1] == '/' {
      p := p[..|p| - 1];
    }
    var anchored := '/' in p;
    var toks := TokensLoop(TrimStartSlashes(p));
    return Some(Glob(negated, anchored, toks));
  }

  // ---- The language of a pattern ----

  /** The texts one token stands for. */
  predicate TokenText(tok: Tok, w: string) {
    match tok
    case Lit(c) => w == [c]
    case Any => |w| == 1 && w[0] != '/'
    case Star => '/' !in w
    case DStar => true
  }

  /** `w` is a concatenation of texts of the tokens, in order. */
  ghost predicate BodyText(toks: seq<Tok>, w: string)
    decreases |toks|
  {
    if toks == [] then w == ""
    else exists i :: 0 <= i <= |w| && TokenText(toks[0], w[..i]) && BodyText(toks[1..], w[i..])
  }

  predicate Boundary(t: string, i: nat) {
    i == |t| || (i < |t| && t[i] == '/')
  }

  /** From `si` on, the text starts with a body that ends the text or ends at a separator. */
  ghost predicate MatchesFrom(toks: seq<Tok>, t: string, si: nat) {
    exists e :: si <= e <= |t| && BodyText(toks, t[si..e]) && Boundary(t, e)
  }

  /** Optional directories, then the body, then the end of the text or a separator. */
  ghost predicate Accepts(g: Glob, t: string) {
    exists si :: 0 <= si <= |t| && (si == 0 || (!g.anchored && t[si - 1] == '/')) && MatchesFrom(g.toks, t, si)
  }

  /** A first token takes some prefix, and the rest matches from there. */
  lemma MatchesStep(toks: seq<Tok>, t: string, si: nat)
    requires si <= |t| && toks != []
    ensures MatchesFrom(toks, t, si) <==>
      exists j :: si <= j <= |t| && TokenText(toks[0], t[si..j]) && MatchesFrom(toks[1..], t, j)
  {
    if MatchesFrom(toks, t, si) {
      var e :| si <= e <= |t| && BodyText(toks, t[si..e]) && Boundary(t, e);
      var w := t[si..e];
      var i :| 0 <= i <= |w| && TokenText(toks[0], w[..i]) && BodyText(toks[1..], w[i..]);
      assert w[..i] == t[si..si + i] && w[i..] == t[si + i..e];
      assert MatchesFrom(toks[1..], t, si + i);
    }
    if j :| si <= j <= |t| && TokenText(toks[0], t[si..j]) && MatchesFrom(toks[1..], t, j) {
      var e :| j <= e <= |t| && BodyText(toks[1..], t[j..e]) && Boundary(t, e);
      var w := t[si..e];
      assert w[..j - si] == t[si..j] && w[j - si..] == t[j..e];
      assert BodyText(toks, w);
    }
  }

  // ---- The matcher ----

  method BodyMatch(toks: seq<Tok>, t: string, si: nat) returns (b: bool)
    requires si <= |t|
    ensures b <==> MatchesFrom(toks, t, si)
    decreases |toks|, 0
  {
    if toks == [] {
      EmptyBody(t, si);
      return si == |t| || t[si] == '/';
    }
    MatchesStep(toks, t, si);
    match toks[0]
    case Lit(c) =>
      if si < |t| && t[si] == c {
        b := BodyMatch(toks[1..], t, si + 1);
        assert t[si..si + 1] == [c];
      } else {
        b := false;
      }
    case Any =>
      if si < |t| && t[si] != '/' {
        b := BodyMatch(toks[1..], t, si + 1);
        assert t[si..si + 1] == [t[si]];
      } else {
        b := false;
      }
    case Star =>
      b := Run(toks[1..], t, si, false);
    case DStar =>
      b := Run(toks[1..], t, si, true);
  }

  lemma EmptyBody(t: string, si: nat)
    requires si <= |t|
    ensures MatchesFrom([], t, si) <==> Boundary(t, si)
  {
    assert t[si..si] == "";
    if MatchesFrom([], t, si) {
      var e :| si <= e <= |t| && BodyText([], t[si..e]) && Boundary(t, e);
      assert |t[si..e]| == e - si;
    }
    if Boundary(t, si) {
      assert BodyText([], t[si..si]);
    }
  }

  /** Try the rest of the pattern after every run of characters a star can take, shortest first. */
  method Run(rest: seq<Tok>, t: string, si: nat, crossing: bool) returns (b: bool)
    requires si <= |t|
    ensures b <==> exists j :: si <= j <= |t| && (crossing || '/' !in t[si..j]) && MatchesFrom(rest, t, j)
    decreases |rest|, 1
  {
    var j := si;
    while true
      invariant si <= j <= |t|
      invariant crossing || '/' !in t[si..j]
      invariant forall i :: si <= i < j ==> !MatchesFrom(rest, t, i)
      decreases |t| - j
    {
      var here := BodyMatch(rest, t, j);
      if here {
        return true;
      }
      if j < |t| && (crossing || t[j] != '/') {
        assert t[si..j + 1] == t[si..j] + [t[j]];
        j := j + 1;
      } else {
        forall i | j < i <= |t|
          ensures !crossing && '/' in t[si..i]
        {
          assert t[si..i][j - si] == t[j];
        }
        return false;
      }
    }
  }

  /** The matcher accepts exactly the language of the pattern. */
  method IsMatch(g: Glob, text: string) returns (b: bool)
    ensures b <==> Accepts(g, text)
  {
    b := BodyMatch(g.toks, text, 0);
    if g.anchored || b {
      return;
    }
    var i := 0;
    while i < |text|
      invariant 0 <= i <= |text|
      invariant !MatchesFrom(g.toks, text, 0)
      invariant forall si :: 1 <= si <= i && text[si - 1] == '/' ==> !MatchesFrom(g.toks, text, si)
    {
      if text[i] == '/' {
        var here := BodyMatch(g.toks, text, i + 1);
        if here {
          return true;
        }
      }
      i := i + 1;
    }
    return false;
  }

  /** Whatever matches a directory matches everything below it. */
  lemma MatchesBelow(g: Glob, p: string, q: string)
    requires Accepts(g, p)
    ensures Accepts(g, p + "/" + q)
  {
    var t := p + "/" + q;
    var si :| 0 <= si <= |p| && (si == 0 || (!g.anchored && p[si - 1] == '/')) && MatchesFrom(g.toks, p, si);
    var e :| si <= e <= |p| && BodyText(g.toks, p[si..e]) && Boundary(p, e);
    assert p[si..e] == t[si..e];
    assert Boundary(t, e);
    assert MatchesFrom(g.toks, t, si);
    assert si == 0 || t[si - 1] == p[si - 1];
  }

  /** A star stays inside one path segment; a double star does not. */
  lemma StarsAndSegments(w: string)
    ensures BodyText([Star], w) <==> '/' !in w
    ensures BodyText([DStar], w)
  {
    hide BodyText;
    OneToken(Star, w);
    OneToken(DStar, w);
  }

  lemma OneToken(tok: Tok, w: string)
    ensures BodyText([tok], w) <==> TokenText(tok, w)
  {
    hide TokenText;
    assert [tok][1..] == [] && w[..|w|] == w && w[|w|..] == "";
    if TokenText(tok, w) {
      assert BodyText([], w[|w|..]);
    }
    if BodyText([tok], w) {
      var i :| 0 <= i <= |w| && TokenText(tok, w[..i]) && BodyText([tok][1..], w[i..]);
      assert w[i..] == "";
      assert w == w[..i] + w[i..];
    }
  }

  // ---- Scope ----

  datatype ScopeRules = ScopeRules(included: seq<string>, ignore: seq<string>, allowBinary: bool)

  const CONTEXT_DIR := ".context"
  const KEEP := ".keep"

  ghost predicate PatternMatches(pat: string, rel: string) {
    Compile(pat).Some? && Accepts(Compile(pat).value, rel)
  }

  /** The last pattern that matches decides. */
  ghost predicate Ignored(globs: seq<string>, rel: string) {
    if globs == [] then false
    else
      var last := globs[|globs| - 1];
      if PatternMatches(last, rel) then !Compile(last).value.negated else Ignored(globs[..|globs| - 1], rel)
  }

  predicate InContextDir(rel: string) {
    rel == CONTEXT_DIR || CONTEXT_DIR + "/" <= rel
  }

  ghost predicate PathInScope(s: ScopeRules, rel: string) {
    !InContextDir(rel) && (exists i :: 0 <= i < |s.included| && PatternMatches(s.included[i], rel)) && !Ignored(s.ignore, rel)
  }

  method MatchesAny(globs: seq<string>, rel: string) returns (decision: bool)
    ensures decision == Ignored(globs, rel)
  {
    decision := false;
    var i := 0;
    while i < |globs|
      invariant 0 <= i <= |globs|
      invariant decision == Ignored(globs[..i], rel)
    {
      assert globs[..i + 1][..i] == globs[..i];
      var gl := CompilePattern(globs[i]);
      if gl.Some? {
        var hit := IsMatch(gl.value, rel);
        if hit {
          decision := !gl.value.negated;
        }
      }
      i := i + 1;
    }
    assert globs[..i] == globs;
  }

  method IsPathInScope(s: ScopeRules, rel: string) returns (b: bool)
    ensures b == PathInScope(s, rel)
  {
    if InContextDir(rel) {
      return false;
    }
    var included := false;
    var i := 0;
    while i < |s.included| && !included
      invariant 0 <= i <= |s.included|
      invariant included <==> exists j :: 0 <= j < i && PatternMatches(s.included[j], rel)
    {
      var gl := CompilePattern(s.included[i]);
      if gl.Some? {
        included := IsMatch(gl.value, rel);
      }
      i := i + 1;
    }
    if !included {
      return false;
    }
    var ignored := MatchesAny(s.ignore, rel);
    return !ignored;
  }

  ghost predicate ContentInScope(s: ScopeRules, rel: string, content: Bytes) {
    PathInScope(s, rel) && (s.allowBinary || !Merge.IsBinary(content))
  }

  method IsContentInScope(s: ScopeRules, rel: string, content: Bytes) returns (b: bool)
    ensures b == ContentInScope(s, rel, content)
  {
    var inScope := IsPathInScope(s, rel);
    return inScope && (s.allowBinary || !Merge.IsBinary(content));
  }

  predicate EndsWith(p: string, suffix: string) {
    |suffix| <= |p| && p[|p| - |suffix|..] == suffix
  }

  predicate IsKeep(p: Path) {
    p == KEEP || EndsWith(p, "/" + KEEP)
  }

  /** What every path below the directory a sentinel preserves starts with; the root's is empty. */
  function KeepPrefix(p: Path): string
    requires IsKeep(p)
  {
    if p == KEEP || p == "/" + KEEP then "" else p[..|p| - |KEEP|]
  }

  /** The in-scope real files. */
  ghost function RealFiles(files: Files, s: ScopeRules): Files {
    map p | p in files && !IsKeep(p) && ContentInScope(s, p, files[p]) :: files[p]
  }

  /** The in-scope sentinels the host supplied. */
  ghost function Sentinels(files: Files, s: ScopeRules): set<Path> {
    set p | p in files && IsKeep(p) && PathInScope(s, p)
  }

  predicate Occupied(files: Files, prefix: string) {
    exists r | r in files :: prefix <= r
  }

  /** Sentinels are looked at in path order; one is kept, empty, if nothing is below its directory yet. */
  function AddKeeps(out: Files, todo: set<Path>): Files
    requires forall p :: p in todo ==> IsKeep(p)
    decreases |todo|
  {
    if todo == {} then out
    else
      var p := First(todo);
      AddKeeps(if Occupied(out, KeepPrefix(p)) then out else out[p := []], todo - {p})
  }

  ghost function Canonical(files: Files, s: ScopeRules): Files {
    AddKeeps(RealFiles(files, s), Sentinels(files, s))
  }

  method CanonicalizeKeeps(files: Files, s: ScopeRules) returns (out: Files)
    ensures out == Canonical(files, s)
  {
    out := CollectReal(files, s);
    out := CollectKeeps(files, s, out);
  }

  method CollectReal(files: Files, s: ScopeRules) returns (out: Files)
    ensures out == RealFiles(files, s)
  {
    hide ContentInScope, IsKeep;
    out := map[];
    var todo := files.Keys;
    while todo != {}
      invariant todo <= files.Keys
      invariant out == map p | p in RealFiles(files, s) && p !in todo :: files[p]
    {
      var p := First(todo);
      todo := todo - {p};
      if IsKeep(p) {
        continue;
      }
      var inScope := IsContentInScope(s, p, files[p]);
      if inScope {
        out := out[p := files[p]];
      }
    }
  }

  method CollectKeeps(files: Files, s: ScopeRules, plain: Files) returns (out: Files)
    ensures out == AddKeeps(plain, Sentinels(files, s))
  {
    hide PathInScope, IsKeep, Occupied, KeepPrefix, First;
    out := plain;
    var todo := files.Keys;
    ghost var keeps := Sentinels(files, s);
    while todo != {}
      invariant todo <= files.Keys
      invariant keeps == Sentinels(files, s) * todo
      invariant AddKeeps(out, keeps) == AddKeeps(plain, Sentinels(files, s))
      decreases todo
    {
      var p := First(todo);
      if IsKeep(p) {
        var inScope := IsPathInScope(s, p);
        if inScope {
          FirstOfFewer(keeps, todo, p);
          keeps := keeps - {p};
          if !Occupied(out, KeepPrefix(p)) {
            out := out[p := []];
          }
        }
      }
      todo := todo - {p};
    }
  }

  lemma FirstOfFewer(few: set<Path>, many: set<Path>, p: Path)
    requires few <= many && p in few && p == First(many)
    ensures First(few) == p
  {
    if First(few) != p {
      LessTotal(Codes(p), Codes(First(few)));
    }
  }

  lemma {:induction false} AddKeepsOnlyAdds(out: Files, todo: set<Path>)
    requires forall p :: p in todo ==> IsKeep(p)
    ensures forall p :: p in out && p !in todo ==> p in AddKeeps(out, todo) && AddKeeps(out, todo)[p] == out[p]
    ensures forall p :: p in AddKeeps(out, todo) ==> p in out || p in todo
    ensures forall p :: p in AddKeeps(out, todo) && p in todo && p !in out ==> AddKeeps(out, todo)[p] == []
    ensures forall p :: p in out ==> p in AddKeeps(out, todo)
    decreases |todo|
  {
    if todo != {} {
      var p := First(todo);
      AddKeepsOnlyAdds(if Occupied(out, KeepPrefix(p)) then out else out[p := []], todo - {p});
    }
  }

  /** Only the sentinels that were kept matter. */
  lemma {:induction false} AddKeepsAgain(out: Files, todo: set<Path>)
    requires forall p :: p in todo ==> IsKeep(p) && p !in out
    ensures var kept := set p | p in todo && p in AddKeeps(out, todo);
      AddKeeps(out, kept) == AddKeeps(out, todo)
    decreases |todo|
  {
    if todo != {} {
      var p := First(todo);
      var rest := todo - {p};
      var next := if Occupied(out, KeepPrefix(p)) then out else out[p := []];
      var kept := set p | p in todo && p in AddKeeps(out, todo);
      AddKeepsOnlyAdds(next, rest);
      AddKeepsAgain(next, rest);
      if p in kept {
        FirstOfFewer(kept, todo, p);
        assert kept - {p} == set q | q in rest && q in AddKeeps(next, rest);
      } else {
        assert kept == set q | q in rest && q in AddKeeps(next, rest);
      }
    }
  }

  /** `q` comes before `p` in the byte order of paths. */
  predicate Precedes(q: Path, p: Path) {
    Less(Codes(q), Codes(p))
  }

  /** A sentinel below the directory of another one has its whole directory below it. */
  lemma KeepNests(p: Path, q: Path)
    requires IsKeep(p) && IsKeep(q) && KeepPrefix(p) <= q
    ensures KeepPrefix(p) <= KeepPrefix(q)
  {
    assert KEEP == ".keep" && |KEEP| == 5;
    var d, e := KeepPrefix(p), KeepPrefix(q);
    if d != "" {
      assert d[|d| - 1] == '/' == q[|d| - 1];
      assert q[|q| - |KEEP|..] == KEEP;
      assert forall i :: |q| - |KEEP| <= i < |q| ==> q[i] == KEEP[i - (|q| - |KEEP|)];
      assert |d| <= |q| - |KEEP|;
    }
  }

  lemma OccupiedOutside(files: Files, d: string, e: string)
    requires d <= e && Occupied(files, e)
    ensures Occupied(files, d)
  {
    var r :| r in files && e <= r;
    assert r[..|d|] == r[..|e|][..|d|];
  }

  lemma OneMoreOccupies(files: Files, f: Path, d: string)
    ensures Occupied(files[f := []], d) <==> Occupied(files, d) || d <= f
  {
    if Occupied(files, d) {
      var r :| r in files && d <= r;
      assert r in files[f := []];
    }
    if d <= f {
      assert f in files[f := []];
    }
  }

  lemma {:induction false} KeepSurvivesFrom(out: Files, todo: set<Path>, p: Path)
    requires (forall q :: q in todo ==> IsKeep(q) && q !in out) && p in todo
    ensures p in AddKeeps(out, todo) <==>
      !Occupied(out, KeepPrefix(p)) && forall q :: q in todo && KeepPrefix(p) <= q ==> !Precedes(q, p)
    decreases |todo|
  {
    hide IsKeep, KeepPrefix, Less;
    var f := First(todo);
    var rest := todo - {f};
    var next := if Occupied(out, KeepPrefix(f)) then out else out[f := []];
    AddKeepsOnlyAdds(next, rest);
    if f == p {
      forall q | q in todo
        ensures !Precedes(q, p)
      {
        LessTotal(Codes(q), Codes(p));
      }
    } else {
      KeepSurvivesFrom(next, rest, p);
      if KeepPrefix(p) <= f {
        KeepNests(p, f);
        if Occupied(out, KeepPrefix(f)) {
          OccupiedOutside(out, KeepPrefix(p), KeepPrefix(f));
        }
      }
      OneMoreOccupies(out, f, KeepPrefix(p));
      assert Occupied(next, KeepPrefix(p)) <==> Occupied(out, KeepPrefix(p)) || KeepPrefix(p) <= f;
    }
  }

  /** What a canonical set holds, whatever order it is computed in: the in-scope real files, and
      empty sentinels. A supplied in-scope sentinel is among them exactly when no in-scope real
      file lies below its directory, and no supplied in-scope sentinel that lies below its
      directory comes before it in path order. */
  lemma CanonicalHolds(files: Files, s: ScopeRules, p: Path)
    ensures !IsKeep(p) ==> (p in Canonical(files, s) <==> p in RealFiles(files, s))
    ensures p in Canonical(files, s) ==> Canonical(files, s)[p] == if IsKeep(p) then [] else files[p]
    ensures IsKeep(p) ==>
      (p in Canonical(files, s) <==>
        && p in Sentinels(files, s)
        && (forall r :: r in RealFiles(files, s) ==> !(KeepPrefix(p) <= r))
        && forall q :: q in Sentinels(files, s) && KeepPrefix(p) <= q ==> !Precedes(q, p))
  {
    hide IsKeep, KeepPrefix, Less, PathInScope, ContentInScope, AddKeeps;
    var plain, keeps := RealFiles(files, s), Sentinels(files, s);
    AddKeepsOnlyAdds(plain, keeps);
    if p in keeps {
      assert forall q :: q in keeps ==> IsKeep(q) && q !in plain;
      KeepSurvivesFrom(plain, keeps, p);
    }
  }

  /** The nested sentinel that comes first drops the outer one, with no real file anywhere. */
  lemma NestedSentinelDropsOuter()
    ensures var files: Files := map["a/.keep" := [], "a/-/.keep" := []];
      "a/.keep" !in Canonical(files, EVERYTHING) && "a/-/.keep" in Canonical(files, EVERYTHING)
  {
    hide PathInScope, AddKeeps, Less;
    var files: Files := map["a/.keep" := [], "a/-/.keep" := []];
    var s, p, q := EVERYTHING, "a/.keep", "a/-/.keep";
    assert p[0] == 'a' && q[0] == 'a' && (CONTEXT_DIR + "/")[0] == '.' && CONTEXT_DIR[0] == '.';
    AllInScope(p);
    AllInScope(q);
    assert p[2..] == KEEP && q[4..] == KEEP && p[1..] == q[3..] == "/" + KEEP;
    assert IsKeep(p) && IsKeep(q) && KeepPrefix(p) == "a/" && KeepPrefix(q) == "a/-/";
    assert q[..2] == "a/";
    DashBeforeDot();
    CanonicalHolds(files, s, p);
    CanonicalHolds(files, s, q);
    assert !("a/-/" <= p) by { assert p[2] == '.'; }
    LessTotal(Codes(q), Codes(q));
  }

  const EVERYTHING := ScopeRules(["**"], [], true)

  lemma AllInScope(p: Path)
    requires !InContextDir(p)
    ensures PathInScope(EVERYTHING, p)
  {
    hide BodyText, InContextDir;
    assert Tokens("**") == [DStar] by {
      assert "**"[2..] == "";
      NoTokens();
    }
    assert TrimStartSlashes("**") == "**";
    assert Compile("**") == Some(Glob(false, false, [DStar]));
    StarsAndSegments(p);
    assert p[0..|p|] == p;
    assert MatchesFrom([DStar], p, 0);
    assert Accepts(Compile("**").value, p);
    assert PatternMatches(EVERYTHING.included[0], p);
  }

  lemma DashBeforeDot()
    ensures Precedes("a/-/.keep", "a/.keep")
  {
    var q, p := Codes("a/-/.keep"), Codes("a/.keep");
    assert q[0] == p[0] && q[1..][0] == p[1..][0] && q[2..][0] < p[2..][0];
    assert Less(q[2..], p[2..]);
    assert q[1..][1..] == q[2..] && p[1..][1..] == p[2..];
    assert Less(q[1..], p[1..]);
  }

  /** Canonicalising a canonical set changes nothing, and everything in it is in scope. */
  lemma CanonicalIsStable(files: Files, s: ScopeRules)
    ensures Canonical(Canonical(files, s), s) == Canonical(files, s)
    ensures forall p :: p in Canonical(files, s) ==> PathInScope(s, p) && !InContextDir(p)
  {
    hide PathInScope, ContentInScope, IsKeep;
    var plain, keeps := RealFiles(files, s), Sentinels(files, s);
    var out := Canonical(files, s);
    AddKeepsOnlyAdds(plain, keeps);
    AddKeepsAgain(plain, keeps);
    assert RealFiles(out, s) == plain;
    assert Sentinels(out, s) == set p | p in keeps && p in out;
    forall p | p in out
      ensures PathInScope(s, p) && !InContextDir(p)
    {
      InScopeMeans(s, p);
      if p in plain {
        ContentInScopeMeans(s, p, files[p]);
      }
    }
  }

  lemma InScopeMeans(s: ScopeRules, p: Path)
    ensures PathInScope(s, p) ==> !InContextDir(p)
  {
  }

  lemma ContentInScopeMeans(s: ScopeRules, p: Path, content: Bytes)
    ensures ContentInScope(s, p, content) ==> PathInScope(s, p)
  {
  }
}
