/** What patterns, lists of patterns and sentinels mean (scope.rs), said of paths and not of tokens. */
module ScopeLaws {
  import opened Prelude
  import opened Objects
  import opened Text
  import opened Scope
  import Utf8

  // ---- Bodies ----

  /** No character of it is special. */
  predicate Literal(s: string) {
    forall c | c in s :: c != '*' && c != '?'
  }

  function Lits(s: string): (toks: seq<Tok>)
    ensures |toks| == |s| && forall i :: 0 <= i < |s| ==> toks[i] == Lit(s[i])
  {
    seq(|s|, i requires 0 <= i < |s| => Lit(s[i]))
  }

  lemma {:induction false} LiteralTokens(s: string, t: string)
    requires Literal(s)
    ensures Tokens(s + t) == Lits(s) + Tokens(t)
  {
    hide Tokens;
    if s == "" {
      assert s + t == t && Lits(s) + Tokens(t) == Tokens(t);
    } else {
      assert s[0] in s && s + t == [s[0]] + (s[1..] + t);
      assert forall c | c in s[1..] :: c in s;
      LiteralTokens(s[1..], t);
      LiteralToken(s[0], s[1..] + t);
      assert Lits(s) == [Lit(s[0])] + Lits(s[1..]);
    }
  }

  lemma LiteralToken(c: char, t: string)
    requires c != '*' && c != '?'
    ensures Tokens([c] + t) == [Lit(c)] + Tokens(t)
  {
    assert ([c] + t)[1..] == t;
  }

  /** The special characters: one of any kind but a separator, a run without one, and a run of any
      kind, which takes a separator after it along. */
  lemma SpecialTokens(t: string)
    ensures Tokens("?" + t) == [Any] + Tokens(t)
    ensures t == "" || t[0] != '*' ==> Tokens("*" + t) == [Star] + Tokens(t)
    ensures t == "" || t[0] != '/' ==> Tokens("**" + t) == [DStar] + Tokens(t)
    ensures Tokens("**/" + t) == [DStar] + Tokens(t)
  {
    assert ("?" + t)[1..] == t && ("*" + t)[1..] == t && ("**" + t)[2..] == t && ("**/" + t)[3..] == t;
  }

  /** The texts a single token stands for. */
  lemma TokenTexts(w: string)
    ensures BodyText([Any], w) <==> |w| == 1 && w != "/"
    ensures BodyText([Star], w) <==> '/' !in w
    ensures BodyText([DStar], w)
    ensures BodyText([], w) <==> w == ""
  {
    hide BodyText;
    OneToken(Any, w);
    StarsAndSegments(w);
    NoBody(w);
  }

  lemma NoBody(w: string)
    ensures BodyText([], w) <==> w == ""
  {
  }

  /** A body in two parts stands for a text of the first and then one of the second. */
  lemma BodyAppend(a: seq<Tok>, b: seq<Tok>, w: string)
    ensures BodyText(a + b, w) <==> exists i :: 0 <= i <= |w| && BodyText(a, w[..i]) && BodyText(b, w[i..])
  {
    hide BodyText;
    if BodyText(a + b, w) {
      var i := BodyParts(a, b, w);
    }
    if i :| 0 <= i <= |w| && BodyText(a, w[..i]) && BodyText(b, w[i..]) {
      BodyJoin(a, b, w, i);
    }
  }

  lemma {:induction false} BodyParts(a: seq<Tok>, b: seq<Tok>, w: string) returns (i: nat)
    requires BodyText(a + b, w)
    ensures i <= |w| && BodyText(a, w[..i]) && BodyText(b, w[i..])
    decreases |a|
  {
    hide BodyText, TokenText;
    if a == [] {
      i := 0;
      NoBody(w[..0]);
      assert a + b == b && w[0..] == w;
    } else {
      FirstToken(a + b, w);
      assert (a + b)[0] == a[0] && (a + b)[1..] == a[1..] + b;
      var j :| 0 <= j <= |w| && TokenText(a[0], w[..j]) && BodyText(a[1..] + b, w[j..]);
      var k := BodyParts(a[1..], b, w[j..]);
      i := j + k;
      assert w[j..][..k] == w[..i][j..] && w[j..][k..] == w[i..] && w[..i][..j] == w[..j];
      FirstToken(a, w[..i]);
    }
  }

  lemma {:induction false} BodyJoin(a: seq<Tok>, b: seq<Tok>, w: string, i: nat)
    requires i <= |w| && BodyText(a, w[..i]) && BodyText(b, w[i..])
    ensures BodyText(a + b, w)
    decreases |a|
  {
    hide BodyText, TokenText;
    if a == [] {
      NoBody(w[..i]);
      assert a + b == b && w[i..] == w;
    } else {
      FirstToken(a, w[..i]);
      var j :| 0 <= j <= |w[..i]| && TokenText(a[0], w[..i][..j]) && BodyText(a[1..], w[..i][j..]);
      assert w[..i][..j] == w[..j] && w[..i][j..] == w[j..][..i - j] && w[i..] == w[j..][i - j..];
      BodyJoin(a[1..], b, w[j..], i - j);
      assert (a + b)[0] == a[0] && (a + b)[1..] == a[1..] + b;
      FirstToken(a + b, w);
    }
  }

  lemma FirstToken(a: seq<Tok>, w: string)
    requires a != []
    ensures BodyText(a, w) <==> exists j :: 0 <= j <= |w| && TokenText(a[0], w[..j]) && BodyText(a[1..], w[j..])
  {
    hide TokenText;
  }

  lemma {:induction false} LiteralBody(s: string, w: string)
    ensures BodyText(Lits(s), w) <==> w == s
    decreases |s|
  {
    hide BodyText;
    if s == "" {
      NoBody(w);
      assert Lits(s) == [];
    } else {
      assert Lits(s)[1..] == Lits(s[1..]);
      FirstToken(Lits(s), w);
      if w != "" {
        LiteralBody(s[1..], w[1..]);
        assert w == [w[0]] + w[1..] && s == [s[0]] + s[1..] && w[..1] == [w[0]];
      }
      forall j | 0 <= j <= |w| && TokenText(Lit(s[0]), w[..j])
        ensures j == 1
      {
        assert |w[..j]| == j;
      }
    }
  }

  // ---- Whole patterns ----

  /** Text of a pattern without any mark at its ends: no separator, bang, hash sign or space in front,
      and no separator or return at the end. */
  predicate Unmarked(s: string) {
    && s != "" && s[0] != '/' && s[0] != '!' && s[0] != '#' && !IsSpace(s[0])
    && s[|s| - 1] != '/' && s[|s| - 1] != '\r'
  }

  /** A bang negates, a separator in front or inside ties the pattern to the root, and one at the end
      says nothing. */
  lemma CompileReads(s: string)
    requires Unmarked(s)
    ensures Compile(s) == Compile(s + "/") == Some(Glob(false, '/' in s, Tokens(s)))
    ensures Compile("/" + s) == Compile("/" + s + "/") == Some(Glob(false, true, Tokens(s)))
    ensures Compile("!" + s) == Compile("!" + s + "/") == Some(Glob(true, '/' in s, Tokens(s)))
    ensures Compile("!/" + s) == Some(Glob(true, true, Tokens(s)))
  {
    hide Tokens, IsSpace, Compile, TrimStartSlashes;
    NoSpaces();
    OffSlashes(s);
    var r := "/" + s;
    assert r[0] == '/' && r[|r| - 1] == s[|s| - 1];
    EndOff(s, false, s);
    EndOff(r, false, r);
    EndOff("!" + s, true, s);
    assert "!/" + s == "!" + r;
    EndOff("!" + r, true, r);
  }

  lemma OffSlashes(s: string)
    requires Unmarked(s)
    ensures TrimStartSlashes(s) == TrimStartSlashes("/" + s) == s
  {
    assert ("/" + s)[1..] == s;
  }

  lemma EndOff(pat: string, negated: bool, body: string)
    requires pat != "" && !IsSpace(pat[0]) && pat[0] != '#'
    requires negated == (pat[0] == '!') && body != "" && body[|body| - 1] != '/' && body[|body| - 1] != '\r'
    requires pat == (if negated then "!" + body else body)
    ensures Compile(pat) == Compile(pat + "/") == Some(Glob(negated, '/' in body, Tokens(TrimStartSlashes(body))))
  {
    hide Tokens, IsSpace, Compile, TrimStartSlashes;
    EndSlash(pat);
    assert pat[|pat| - 1] == body[|body| - 1];
    assert (pat + "/")[0] == pat[0] && (pat + "/")[|pat|] == '/';
    CompilesTo(pat, negated, body);
    assert negated ==> (pat + "/")[1..] == body + "/";
    CompilesTo(pat + "/", negated, body);
  }

  lemma NoSpaces()
    ensures !IsSpace('/') && !IsSpace('!')
  {
  }

  lemma EndSlash(s: string)
    ensures (s + "/")[..|s + "/"| - 1] == s
  {
  }

  /** What compiling makes of a pattern that starts with no space, once bang and end are off. */
  lemma CompilesTo(pat: string, negated: bool, body: string)
    requires pat != "" && !IsSpace(pat[0]) && pat[0] != '#' && pat[|pat| - 1] != '\r'
    requires negated == (pat[0] == '!') && body != "" && body[|body| - 1] != '/'
    requires var q := if negated then pat[1..] else pat;
      q == body || q == body + "/"
    ensures Compile(pat) == Some(Glob(negated, '/' in body, Tokens(TrimStartSlashes(body))))
  {
    hide Tokens, IsSpace, TrimStartSlashes;
    var q := if negated then pat[1..] else pat;
    assert TrimEndReturns(pat) == pat && TrimStart(pat) == pat;
    EndSlash(body);
  }

  /** Nothing, white space, and comments are no patterns. */
  lemma NoPattern(pad: string, comment: string)
    requires Spaces(pad) && (comment == "" || comment[|comment| - 1] != '\r')
    ensures Compile("") == None && Compile(pad + "#" + comment) == None
  {
    var p := pad + "#" + comment;
    assert p == pad + ("#" + comment);
    if comment != "" {
      assert p[|p| - 1] == comment[|comment| - 1];
    } else {
      assert p[|p| - 1] == '#';
    }
    assert TrimEndReturns(p) == p;
    HashIsNoSpace();
    TrimsStart(pad, "#" + comment);
  }

  /** A return at the end of the line says nothing. */
  lemma ReturnIsDropped(pat: string)
    ensures Compile(pat + "\r") == Compile(pat)
  {
    assert (pat + "\r")[..|pat|] == pat;
  }

  lemma HashIsNoSpace()
    ensures !IsSpace('#')
  {
  }

  /** `path[i..e]` is one segment of the path, or several. */
  predicate Between(path: string, i: nat, e: nat) {
    i <= e <= |path| && (i == 0 || path[i - 1] == '/') && (e == |path| || path[e] == '/')
  }

  lemma AcceptsIff(g: Glob, path: string)
    ensures !g.anchored ==> (Accepts(g, path) <==> exists i: nat, e: nat :: Between(path, i, e) && BodyText(g.toks, path[i..e]))
    ensures g.anchored ==> (Accepts(g, path) <==> exists e: nat :: Between(path, 0, e) && BodyText(g.toks, path[..e]))
  {
    hide BodyText;
    if Accepts(g, path) {
      var i: nat :| 0 <= i <= |path| && (i == 0 || (!g.anchored && path[i - 1] == '/')) && MatchesFrom(g.toks, path, i);
      var e: nat :| i <= e <= |path| && BodyText(g.toks, path[i..e]) && Boundary(path, e);
      assert Between(path, i, e);
      assert path[0..e] == path[..e];
    }
    if !g.anchored {
      if i: nat, e: nat :| Between(path, i, e) && BodyText(g.toks, path[i..e]) {
        assert MatchesFrom(g.toks, path, i);
      }
    } else if e: nat :| Between(path, 0, e) && BodyText(g.toks, path[..e]) {
      assert path[0..e] == path[..e];
      assert MatchesFrom(g.toks, path, 0);
    }
  }

  /** A plain name matches wherever it is a segment of the path: the file, and all below the directory. */
  lemma NameMatches(name: string, path: string)
    requires Unmarked(name) && Literal(name) && '/' !in name
    ensures PatternMatches(name, path) <==> exists i: nat, e: nat :: Between(path, i, e) && path[i..e] == name
    ensures PatternMatches(name + "/", path) <==> PatternMatches(name, path)
  {
    hide Compile, BodyText, Between, Tokens;
    NamePatterns(name);
    AcceptsIff(Glob(false, false, Lits(name)), path);
    forall i: nat, e: nat | Between(path, i, e)
      ensures i <= e <= |path| && (BodyText(Lits(name), path[i..e]) <==> path[i..e] == name)
    {
      BetweenIsIn(path, i, e);
      LiteralBody(name, path[i..e]);
    }
  }

  lemma NamePatterns(name: string)
    requires Unmarked(name) && Literal(name)
    ensures Compile(name) == Compile(name + "/") == Some(Glob(false, '/' in name, Lits(name)))
    ensures Compile("/" + name) == Some(Glob(false, true, Lits(name)))
  {
    hide Compile, Unmarked;
    CompileReads(name);
    LiteralTokens(name, "");
    assert name + "" == name && Tokens("") == [] && Lits(name) + [] == Lits(name);
  }

  lemma BetweenIsIn(path: string, i: nat, e: nat)
    requires Between(path, i, e)
    ensures i <= e <= |path|
  {
  }

  /** A plain path, or a name with a separator in front, matches at the root only: that file, and all
      below that directory. */
  lemma PathMatches(p: string, path: string)
    requires Unmarked(p) && Literal(p)
    ensures PatternMatches("/" + p, path) <==> path == p || p + "/" <= path
    ensures '/' in p ==> (PatternMatches(p, path) <==> path == p || p + "/" <= path)
  {
    hide Compile, BodyText, Tokens;
    NamePatterns(p);
    AcceptsIff(Glob(false, true, Lits(p)), path);
    forall e: nat | Between(path, 0, e)
      ensures BodyText(Lits(p), path[..e]) <==> path[..e] == p
    {
      LiteralBody(p, path[..e]);
    }
    if path == p || p + "/" <= path {
      assert Between(path, 0, |p|) && path[..|p|] == p;
    }
    if e: nat :| Between(path, 0, e) && path[..e] == p {
      assert e == |p|;
      if e < |path| {
        assert path[..e + 1] == p + "/";
      }
    }
  }

  /** A star and an ending match every segment that ends so. */
  lemma EndingMatches(ending: string, path: string)
    requires Literal(ending) && '/' !in ending && (ending == "" || ending[|ending| - 1] != '\r')
    ensures PatternMatches("*" + ending, path) <==>
      exists i: nat, e: nat :: Between(path, i, e) && '/' !in path[i..e] && EndsWith(path[i..e], ending)
  {
    hide Compile, BodyText, Between, Tokens, EndsWith;
    EndingPattern(ending);
    AcceptsIff(Glob(false, false, [Star] + Lits(ending)), path);
    forall i: nat, e: nat | Between(path, i, e)
      ensures i <= e <= |path| && (BodyText([Star] + Lits(ending), path[i..e]) <==> '/' !in path[i..e] && EndsWith(path[i..e], ending))
    {
      BetweenIsIn(path, i, e);
      EndingBody(ending, path[i..e]);
    }
  }

  lemma EndingPattern(ending: string)
    requires Literal(ending) && '/' !in ending && (ending == "" || ending[|ending| - 1] != '\r')
    ensures Compile("*" + ending) == Some(Glob(false, false, [Star] + Lits(ending)))
  {
    hide Compile, Tokens;
    var p := "*" + ending;
    StarIsNoSpace();
    if ending != "" {
      assert ending[0] in ending && ending[|ending| - 1] in ending;
    }
    CompileReads(p);
    SpecialTokens(ending);
    LiteralTokens(ending, "");
    assert ending + "" == ending && Tokens("") == [] && Lits(ending) + [] == Lits(ending);
  }

  lemma StarIsNoSpace()
    ensures !IsSpace('*')
    ensures Tokens("") == []
  {
  }

  lemma EndingBody(ending: string, w: string)
    requires '/' !in ending
    ensures BodyText([Star] + Lits(ending), w) <==> '/' !in w && EndsWith(w, ending)
  {
    hide BodyText;
    BodyAppend([Star], Lits(ending), w);
    forall i | 0 <= i <= |w|
      ensures BodyText([Star], w[..i]) <==> '/' !in w[..i]
      ensures BodyText(Lits(ending), w[i..]) <==> w[i..] == ending
    {
      TokenTexts(w[..i]);
      LiteralBody(ending, w[i..]);
    }
    if i :| 0 <= i <= |w| && BodyText([Star], w[..i]) && BodyText(Lits(ending), w[i..]) {
      assert w == w[..i] + w[i..];
    }
    if '/' !in w && EndsWith(w, ending) {
      var i := |w| - |ending|;
      assert BodyText([Star], w[..i]) && BodyText(Lits(ending), w[i..]);
    }
  }

  /** Two stars match everything; after a path they match all below it; and before a name, with a
      separator between, they match that name wherever a segment ends in it. */
  lemma DoubleStars(p: string, path: string)
    requires Unmarked(p) && Literal(p)
    ensures PatternMatches("**", path)
    ensures PatternMatches(p + "/**", path) <==> p + "/" <= path
    ensures PatternMatches("**/" + p, path) <==> exists e: nat :: Between(path, 0, e) && EndsWith(path[..e], p)
  {
    hide Compile, BodyText, Tokens, EndsWith;
    DoubleStarPatterns(p);
    AcceptsIff(Glob(false, false, [DStar]), path);
    assert Between(path, 0, |path|);
    TokenTexts(path[0..|path|]);
    AcceptsIff(Glob(false, true, Lits(p + "/") + [DStar]), path);
    AcceptsIff(Glob(false, true, [DStar] + Lits(p)), path);
    forall e: nat | Between(path, 0, e)
      ensures BodyText(Lits(p + "/") + [DStar], path[..e]) <==> p + "/" <= path[..e]
      ensures BodyText([DStar] + Lits(p), path[..e]) <==> EndsWith(path[..e], p)
    {
      BelowBody(p + "/", path[..e]);
      AnywhereBody(p, path[..e]);
    }
    if p + "/" <= path {
      assert path[..|path|] == path;
    }
    if e: nat :| Between(path, 0, e) && p + "/" <= path[..e] {
      assert p + "/" <= path;
    }
  }

  lemma DoubleStarPatterns(p: string)
    requires Unmarked(p) && Literal(p)
    ensures Compile("**") == Some(Glob(false, false, [DStar]))
    ensures Compile(p + "/**") == Some(Glob(false, true, Lits(p + "/") + [DStar]))
    ensures Compile("**/" + p) == Some(Glob(false, true, [DStar] + Lits(p)))
  {
    hide Compile, Tokens;
    StarIsNoSpace();
    CompileReads("**");
    CompileReads(p + "/**");
    CompileReads("**/" + p);
    SpecialTokens("");
    SpecialTokens(p);
    LiteralTokens(p, "");
    LiteralTokens(p + "/", "**");
    assert "**" + "" == "**" && p + "/" + "**" == p + "/**" && p + "" == p && Lits(p) + [] == Lits(p);
    assert [DStar] + [] == [DStar] && '/' == (p + "/**")[|p|] && '/' == ("**/" + p)[2];
  }

  lemma BelowBody(front: string, w: string)
    ensures BodyText(Lits(front) + [DStar], w) <==> front <= w
  {
    hide BodyText;
    BodyAppend(Lits(front), [DStar], w);
    forall i | 0 <= i <= |w|
      ensures BodyText(Lits(front), w[..i]) <==> w[..i] == front
      ensures BodyText([DStar], w[i..])
    {
      LiteralBody(front, w[..i]);
      TokenTexts(w[i..]);
    }
    if front <= w {
      assert BodyText(Lits(front), w[..|front|]);
    }
  }

  lemma AnywhereBody(p: string, w: string)
    ensures BodyText([DStar] + Lits(p), w) <==> EndsWith(w, p)
  {
    hide BodyText;
    BodyAppend([DStar], Lits(p), w);
    forall i | 0 <= i <= |w|
      ensures BodyText([DStar], w[..i])
      ensures BodyText(Lits(p), w[i..]) <==> w[i..] == p
    {
      TokenTexts(w[..i]);
      LiteralBody(p, w[i..]);
    }
    if EndsWith(w, p) {
      assert BodyText(Lits(p), w[|w| - |p|..]);
    }
  }

  /** So the last form also matches where the name is only the end of a segment. */
  lemma DoubleStarIsLoose()
    ensures PatternMatches("**/x", "ax") && !PatternMatches("x", "ax")
  {
    hide PatternMatches, IsSpace;
    XIsNoSpace();
    DoubleStars("x", "ax");
    assert "**/" + "x" == "**/x";
    assert Between("ax", 0, 2) && "ax"[..2] == "ax" && EndsWith("ax", "x");
    NameMatches("x", "ax");
    forall i: nat, e: nat | Between("ax", i, e)
      ensures "ax"[i..e] != "x"
    {
    }
  }

  lemma XIsNoSpace()
    ensures !IsSpace('x')
  {
  }

  // ---- Lists ----

  /** Pattern `i` matches and is no exception, and no later exception matches. */
  ghost predicate StandsAt(globs: seq<string>, i: nat, rel: string) {
    i < |globs| && Hits(globs[i], rel, false) && forall j :: i < j < |globs| ==> !Hits(globs[j], rel, true)
  }

  lemma StandsBefore(globs: seq<string>, i: nat, rel: string)
    requires globs != [] && i < |globs| - 1
    ensures StandsAt(globs, i, rel) <==> StandsAt(globs[..|globs| - 1], i, rel) && !Hits(globs[|globs| - 1], rel, true)
  {
    hide Hits;
  }

  /** Ignored is what some pattern matches that is no exception, and no later exception matches. */
  lemma {:induction false} IgnoredIff(globs: seq<string>, rel: string)
    ensures Ignored(globs, rel) <==> exists i :: StandsAt(globs, i, rel)
  {
    hide Hits, Ignored;
    if globs == [] {
      NoneIgnored(rel);
    } else {
      var k := |globs| - 1;
      LastDecides(globs, rel);
      IgnoredIff(globs[..k], rel);
      assert Hits(globs[k], rel, false) <==> StandsAt(globs, k, rel);
      if i: nat :| StandsAt(globs[..k], i, rel) {
        StandsBefore(globs, i, rel);
      }
      if i: nat :| StandsAt(globs, i, rel) && i < k {
        StandsBefore(globs, i, rel);
      }
    }
  }

  lemma NoneIgnored(rel: string)
    ensures !Ignored([], rel)
  {
  }

  lemma LastDecides(globs: seq<string>, rel: string)
    requires globs != []
    ensures var last := globs[|globs| - 1];
      && (Ignored(globs, rel) <==> Hits(last, rel, false) || (!Hits(last, rel, true) && Ignored(globs[..|globs| - 1], rel)))
      && !(Hits(last, rel, false) && Hits(last, rel, true))
  {
    hide Accepts, Compile;
  }

  /** The pattern matches, and is an exception or not. */
  ghost predicate Hits(pat: string, rel: string, negated: bool) {
    PatternMatches(pat, rel) && Compile(pat).value.negated == negated
  }

  // ---- The engine's own directory ----

  /** The directory and what is below it, and nothing else that only starts with its name. */
  lemma EngineDirIs(p: Path)
    ensures InContextDir(p) <==> p == ".context" || exists q: Path :: p == ".context/" + q
  {
    assert CONTEXT_DIR + "/" == ".context/";
    if InContextDir(p) && p != ".context" {
      assert p == ".context/" + p[9..];
    }
  }

  /** With everything included and nothing ignored, all the rest is in scope; what some pattern of the
      list ignores is not. */
  lemma RestIsInScope(rules: ScopeRules, p: Path)
    requires rules.included == ["**"]
    ensures PathInScope(rules, p) <==> !InContextDir(p) && !Ignored(rules.ignore, p)
  {
    hide PatternMatches, Ignored, InContextDir;
    MatchesEverything(p);
    assert rules.included[0] == "**";
  }

  /** A file is committed exactly if its path is in scope and it is text, or binaries are allowed; and then
      as it is. */
  lemma FilesInScope(files: Files, rules: ScopeRules, p: Path)
    requires !IsKeep(p)
    ensures p in Canonical(files, rules) <==> p in files && PathInScope(rules, p) && (rules.allowBinary || Utf8.IsText(files[p]))
    ensures p in Canonical(files, rules) ==> Canonical(files, rules)[p] == files[p]
  {
    hide PathInScope, IsKeep, Canonical, Utf8.IsText;
    CanonicalHolds(files, rules, p);
    if p in files {
      Utf8.TextIff(files[p]);
    }
  }

  lemma MatchesEverything(p: Path)
    ensures PatternMatches("**", p)
  {
    hide PatternMatches, IsSpace;
    XIsNoSpace();
    DoubleStars("x", p);
  }

  // ---- Sentinels ----

  /** A sentinel is the file of that name at the root or in some directory, and stands for what is in
      that directory. */
  lemma SentinelIs(p: Path, d: Path)
    requires d != ""
    ensures IsKeep(p) <==> p == ".keep" || exists e: Path :: p == e + "/.keep"
    ensures IsKeep(".keep") && KeepPrefix(".keep") == "" && IsKeep("/.keep") && KeepPrefix("/.keep") == ""
    ensures IsKeep(d + "/.keep") && KeepPrefix(d + "/.keep") == d + "/"
  {
    assert KEEP == ".keep" && "/" + KEEP == "/.keep";
    if IsKeep(p) && p != ".keep" {
      assert p == p[..|p| - 6] + "/.keep";
    }
    if e: Path :| p == e + "/.keep" {
      assert p[|p| - 6..] == "/.keep";
    }
    assert "/.keep"[0..] == "/.keep";
    var q := d + "/.keep";
    assert q[|q| - 6..] == "/.keep" && q[..|q| - 5] == d + "/";
    assert |q| > 6;
  }
}
