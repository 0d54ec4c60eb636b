/** Reading back a printed configuration gives it again (config.rs), whatever quotes, backslashes,
    control characters, hashes, brackets or newlines its strings hold. */
module ConfigLaws {
  import opened Prelude
  import opened Text
  import opened Config

  // ---- Escaped strings ----

  /** An escape reads back as its character, and takes up exactly its own length. */
  lemma UnescapesOne(c: char, rest: string)
    requires EscChar(c) != [c]
    ensures var e := EscChar(c);
      |e| >= 2 && e[0] == '\\' && UnescOne(e + rest) == Some((c, |e|)) && (e + rest)[|e|..] == rest
  {
    var e := EscChar(c);
    assert (e + rest)[|e|..] == rest;
    if |e| == 6 {
      var high, low := c as int / 16, c as int % 16;
      var hex := e[2..];
      assert Prefix((e + rest)[2..], 4) == hex;
      assert hex == "00" + [HexDigit(high), HexDigit(low)];
      HexDigitValue(high);
      HexDigitValue(low);
      assert hex[..3] == "00" + [HexDigit(high)] && hex[..3][..2] == "00" && "00"[..1] == "0" && "0"[..0] == "";
      assert DigitsValue("", 16) == Some(0);
      assert DigitsValue("0", 16) == Some(0);
      assert DigitsValue("00", 16) == Some(0);
      assert DigitsValue(hex[..3], 16) == Some(high);
      assert DigitsValue(hex, 16) == Some(c as int);
    }
  }

  lemma {:induction false} UnescapesAll(v: string)
    ensures Unescaped(Escaped(v)) == Ok(v)
  {
    if v != "" {
      var c, rest := v[0], Escaped(v[1..]);
      var all := EscChar(c) + rest;
      UnescapesAll(v[1..]);
      assert [c] + v[1..] == v;
      if EscChar(c) == [c] {
        assert all[0] == c && all[1..] == rest;
      } else {
        UnescapesOne(c, rest);
        assert all[0] == '\\';
      }
    }
  }

  lemma {:induction false} EscapedIsPlain(v: string)
    ensures Plain(Escaped(v))
  {
    if v != "" {
      EscapedIsPlain(v[1..]);
    }
  }

  /** The quote after an escaped string is the one that closes it. */
  lemma {:induction false} ClosesAtEnd(v: string, tail: string)
    ensures CloseQuote(Escaped(v) + "\"" + tail) == Some(|Escaped(v)|)
  {
    hide EscChar, CloseQuote;
    if v == "" {
      ClosesNow(tail);
      assert Escaped(v) + "\"" + tail == "\"" + tail;
    } else {
      var e, rest := EscChar(v[0]), Escaped(v[1..]) + "\"" + tail;
      assert Escaped(v) + "\"" + tail == e + rest;
      ClosesAtEnd(v[1..], tail);
      SkipsEscape(v[0], rest);
    }
  }

  lemma ClosesNow(tail: string)
    ensures CloseQuote("\"" + tail) == Some(0)
  {
  }

  lemma SkipsPair(x: char, t: string)
    ensures CloseQuote(['\\', x] + t) == Further(CloseQuote(t), 2)
  {
    assert (['\\', x] + t)[2..] == t;
  }

  lemma SkipsPlain(x: char, t: string)
    requires x != '"' && x != '\\'
    ensures CloseQuote([x] + t) == Further(CloseQuote(t), 1)
  {
    assert ([x] + t)[1..] == t;
  }

  lemma SkipsEscape(c: char, rest: string)
    ensures CloseQuote(EscChar(c) + rest) == Further(CloseQuote(rest), |EscChar(c)|)
  {
    hide CloseQuote;
    var e := EscChar(c);
    if |e| == 1 {
      SkipsPlain(c, rest);
    } else if |e| == 2 {
      SkipsPair(e[1], rest);
    } else {
      var t3 := [e[5]] + rest;
      var t2 := [e[4]] + t3;
      var t1 := ['0'] + t2;
      SkipsPlain(e[5], rest);
      SkipsPlain(e[4], t3);
      SkipsPlain('0', t2);
      SkipsPlain('0', t1);
      SkipsPair('u', ['0'] + t1);
      assert e + rest == ['\\', 'u'] + (['0'] + t1);
    }
  }

  // ---- Comments ----

  /** A scan that starts inside an escaped string keeps the string, its quote, and a rest without
      comment signs, whether or not it noticed the closing quote. */
  lemma {:induction false} KeepsEscaped(v: string, prev: char, tail: string)
    requires '#' !in tail
    ensures Uncommented(Escaped(v) + "\"" + tail, prev, true) == Escaped(v) + "\"" + tail
  {
    if v == "" {
      assert "\"" + tail == Escaped(v) + "\"" + tail;
      assert ("\"" + tail)[1..] == tail;
      KeepsTail(tail, '"', false);
      KeepsTail(tail, '"', true);
    } else {
      var e, rest := EscChar(v[0]), Escaped(v[1..]) + "\"" + tail;
      assert Escaped(v) + "\"" + tail == e + rest;
      KeepsEscaped(v[1..], e[|e| - 1], tail);
      KeepsEscape(v[0], prev, rest);
    }
  }

  lemma {:induction false} KeepsTail(tail: string, prev: char, inStr: bool)
    requires '#' !in tail
    ensures Uncommented(tail, prev, inStr) == tail
  {
    if tail != "" {
      KeepsTail(tail[1..], tail[0], inStr);
      KeepsTail(tail[1..], tail[0], !inStr);
      assert [tail[0]] + tail[1..] == tail;
    }
  }

  /** Every quote comes right after a backslash. */
  predicate Guarded(e: string, prev: char) {
    e == "" || ((e[0] == '"' ==> prev == '\\') && Guarded(e[1..], e[0]))
  }

  lemma KeepsEscape(c: char, prev: char, rest: string)
    ensures var e := EscChar(c);
      Uncommented(e + rest, prev, true) == e + Uncommented(rest, e[|e| - 1], true)
  {
    var e := EscChar(c);
    if |e| == 6 {
      assert e[1..][1..][1..][1..] == [e[4], e[5]] && [e[4], e[5]][1..] == [e[5]] && [e[5]][1..] == "";
      assert Guarded(e[1..][1..][1..][1..], '0');
      assert Guarded(e[1..][1..], e[1]);
    } else {
      assert e[1..] == if |e| == 1 then "" else [e[1]];
    }
    KeepsGuarded(e, prev, rest);
  }

  /** Inside a string, characters that are not bare quotes are kept. */
  lemma {:induction false} KeepsGuarded(e: string, prev: char, rest: string)
    requires Guarded(e, prev)
    ensures Uncommented(e + rest, prev, true) == e + Uncommented(rest, if e == "" then prev else e[|e| - 1], true)
  {
    if e == "" {
      assert e + rest == rest;
    } else {
      assert (e + rest)[1..] == e[1..] + rest;
      KeepsGuarded(e[1..], e[0], rest);
      assert [e[0]] + (e[1..] + Uncommented(rest, e[|e| - 1], true)) == e + Uncommented(rest, e[|e| - 1], true);
    }
  }

  /** Text before the first quote, without comment signs, is kept. */
  lemma {:induction false} KeepsHead(head: string, prev: char, rest: string)
    requires '#' !in head && '"' !in head
    ensures Uncommented(head + rest, prev, false) == head + Uncommented(rest, if head == "" then prev else head[|head| - 1], false)
  {
    hide Uncommented;
    if head == "" {
      assert head + rest == rest;
    } else {
      assert head + rest == [head[0]] + (head[1..] + rest) && head == [head[0]] + head[1..];
      KeepsHead(head[1..], head[0], rest);
      KeepsOne(head[0], prev, head[1..] + rest);
    }
  }

  lemma KeepsOne(c: char, prev: char, rest: string)
    requires c != '#' && c != '"'
    ensures Uncommented([c] + rest, prev, false) == [c] + Uncommented(rest, c, false)
  {
    assert ([c] + rest)[1..] == rest;
  }

  /** A printed line with one string in it has no comment to drop. */
  lemma KeepsQuoted(head: string, v: string, tail: string)
    requires '#' !in head && '"' !in head && head != "" && head[|head| - 1] != '\\' && '#' !in tail
    ensures Uncommented(head + Quoted(v) + tail, ' ', false) == head + Quoted(v) + tail
  {
    hide Uncommented, Escaped;
    var inside := Escaped(v) + "\"" + tail;
    assert head + Quoted(v) + tail == head + ("\"" + inside);
    KeepsHead(head, ' ', "\"" + inside);
    KeepsEscaped(v, '"', tail);
    OpensString(inside, head[|head| - 1]);
  }

  lemma OpensString(inside: string, prev: char)
    requires prev != '\\'
    ensures Uncommented("\"" + inside, prev, false) == "\"" + Uncommented(inside, '"', true)
  {
    assert ("\"" + inside)[1..] == inside;
  }

  // ---- Numbers ----

  lemma NumberReads(n: U64)
    ensures U64Value(Decimal(n)) == Ok(n)
  {
    DecimalReads(n);
    assert Decimal(n)[0] in Decimal(n);
  }

  // ---- One printed value ----

  /** The value as the parser sees it, with an array's lines joined. */
  function Rhs(value: Value): string {
    match value
    case Arr(vs) => if |vs| <= 1 then ValueText(value) else "[" + Joined(vs) + " ]"
    case _ => ValueText(value)
  }

  function Joined(vs: seq<string>): string {
    if vs == [] then "" else " " + Quoted(vs[0]) + "," + Joined(vs[1..])
  }

  lemma QuotedIsTight(v: string)
    ensures Tight(Quoted(v)) && Tight("[" + Quoted(v) + "]") && Tight(Quoted(v) + ",")
  {
  }

  lemma StrReads(v: string)
    ensures StrValue(Quoted(v)) == Ok(v)
  {
    QuotedIsTight(v);
    TrimsNothing(Quoted(v));
    assert Quoted(v)[1..|Quoted(v)| - 1] == Escaped(v);
    UnescapesAll(v);
  }

  /** One quoted element at the front of an array's inside. */
  lemma StringsOne(v: string, tail: string)
    ensures Strings(Quoted(v) + tail) == Prepend([v], Strings(tail))
  {
    var s := Quoted(v) + tail;
    assert s[1..] == Escaped(v) + "\"" + tail;
    ClosesAtEnd(v, tail);
    assert s[1..][..|Escaped(v)|] == Escaped(v) && s[|Escaped(v)| + 2..] == tail;
    UnescapesAll(v);
  }

  lemma {:induction false} StringsJoined(vs: seq<string>)
    ensures Strings(Joined(vs) + " ") == Ok(vs)
  {
    if vs == [] {
      assert Joined(vs) + " " == " " && " "[1..] == "";
      assert Strings("") == Ok([]);
    } else {
      var tail := Joined(vs[1..]) + " ";
      var s := Joined(vs) + " ";
      assert s == " " + (Quoted(vs[0]) + ("," + tail));
      assert s[1..] == Quoted(vs[0]) + ("," + tail);
      StringsOne(vs[0], "," + tail);
      assert ("," + tail)[1..] == tail;
      StringsJoined(vs[1..]);
      assert [vs[0]] + vs[1..] == vs;
    }
  }

  lemma StringsNone()
    ensures Strings("") == Ok([])
  {
  }

  lemma BracketsAreTight(r: string)
    requires |r| >= 2 && r[0] == '[' && r[|r| - 1] == ']'
    ensures Trim(r) == r
  {
    TrimsNothing(r);
  }

  lemma ArrReads(vs: seq<string>)
    ensures ArrValue(Rhs(Arr(vs))) == Ok(vs)
  {
    hide Strings, Escaped, Joined, IsSpace, Trim;
    var r := Rhs(Arr(vs));
    BracketsAreTight(r);
    if |vs| == 0 {
      StringsNone();
      assert "[]"[1..1] == "";
    } else if |vs| == 1 {
      assert r[1..|r| - 1] == Quoted(vs[0]) + "";
      StringsOne(vs[0], "");
      StringsNone();
      assert vs == [vs[0]] + [];
    } else {
      assert r[1..|r| - 1] == Joined(vs) + " ";
      StringsJoined(vs);
    }
  }

  // ---- Balanced arrays ----

  lemma BalancesPlain(c: char, tail: string, depth: int, started: bool)
    requires c != '"' && c != '[' && c != ']'
    ensures Balances([c] + tail, depth, started) == Balances(tail, depth, started)
  {
    assert ([c] + tail)[1..] == tail;
  }

  lemma BalancesOne(v: string, tail: string, depth: int, started: bool)
    ensures Balances(Quoted(v) + tail, depth, started) == Balances(tail, depth, started)
  {
    var s := Quoted(v) + tail;
    assert s[1..] == Escaped(v) + "\"" + tail;
    ClosesAtEnd(v, tail);
    assert s[|Escaped(v)| + 2..] == tail;
  }

  lemma {:induction false} BalancesJoined(vs: seq<string>, tail: string)
    ensures Balances(Joined(vs) + tail, 1, true) == Balances(tail, 1, true)
  {
    hide Balances, Quoted;
    if vs == [] {
      assert Joined(vs) + tail == tail;
    } else {
      var rest := Joined(vs[1..]) + tail;
      assert Joined(vs) + tail == " " + (Quoted(vs[0]) + ("," + rest));
      BalancesPlain(' ', Quoted(vs[0]) + ("," + rest), 1, true);
      BalancesOne(vs[0], "," + rest, 1, true);
      BalancesPlain(',', rest, 1, true);
      BalancesJoined(vs[1..], tail);
    }
  }

  /** A bracket inside a string never ends an array early; the closing line always ends it. */
  lemma OpenUntilClosed(vs: seq<string>)
    ensures !Balances("[" + Joined(vs), 0, false)
    ensures Balances("[" + Joined(vs) + " ]", 0, false)
  {
    BalancesJoined(vs, "");
    assert ("[" + Joined(vs))[1..] == Joined(vs) + "";
    BalancesJoined(vs, " ]");
    assert "[" + Joined(vs) + " ]" == "[" + (Joined(vs) + " ]");
    assert ("[" + (Joined(vs) + " ]"))[1..] == Joined(vs) + " ]";
    assert " ]"[1..] == "]" && "]"[1..] == "";
  }

  lemma ShortIsClosed(vs: seq<string>)
    requires |vs| <= 1
    ensures Balances(Rhs(Arr(vs)), 0, false)
  {
    if |vs| == 0 {
      assert "[]"[1..] == "]" && "]"[1..] == "";
    } else {
      var r := Rhs(Arr(vs));
      assert r[1..] == Quoted(vs[0]) + "]";
      BalancesOne(vs[0], "]", 1, true);
      assert "]"[1..] == "";
    }
  }

  // ---- Lines ----

  /** Keys are lower-case words. */
  predicate IsKey(key: string) {
    key != "" && forall c | c in key :: 'a' <= c <= 'z' || c == '_'
  }

  function ItemLines(vs: seq<string>): seq<string> {
    if vs == [] then [] else ["    " + Quoted(vs[0]) + ","] + ItemLines(vs[1..])
  }

  function EntryLines(e: Entry): seq<string> {
    if e.value.Arr? && |e.value.vs| > 1 then [e.key + " = ["] + ItemLines(e.value.vs) + ["]"]
    else [e.key + " = " + ValueText(e.value)]
  }

  function AllLines(es: seq<Entry>): seq<string> {
    if es == [] then [] else EntryLines(es[0]) + AllLines(es[1..])
  }

  lemma {:induction false} ItemsAreLines(vs: seq<string>)
    ensures Items(vs) == Unlines(ItemLines(vs))
  {
    if vs != [] {
      ItemsAreLines(vs[1..]);
      assert ItemLines(vs)[1..] == ItemLines(vs[1..]);
    }
  }

  lemma EntryIsLines(e: Entry)
    ensures EntryText(e) == Unlines(EntryLines(e))
  {
    if e.value.Arr? && |e.value.vs| > 1 {
      var vs := e.value.vs;
      ItemsAreLines(vs);
      OneLine(e.key + " = [");
      OneLine("]");
      UnlinesAppend([e.key + " = ["], ItemLines(vs));
      UnlinesAppend([e.key + " = ["] + ItemLines(vs), ["]"]);
    } else {
      OneLine(e.key + " = " + ValueText(e.value));
    }
  }

  lemma {:induction false} TextIsLines(es: seq<Entry>)
    ensures Texts(es) == Unlines(AllLines(es))
  {
    if es != [] {
      EntryIsLines(es[0]);
      TextIsLines(es[1..]);
      UnlinesAppend(EntryLines(es[0]), AllLines(es[1..]));
    }
  }

  lemma {:induction false} NoCrLf(s: string)
    requires '\r' !in s
    ensures UnCrLf(s) == s
  {
    if s != "" {
      NoCrLf(s[1..]);
      assert s == [s[0]] + s[1..];
    }
  }

  lemma {:induction false} UnlinesHasNoCr(ls: seq<string>)
    requires forall l :: l in ls ==> Plain(l)
    ensures '\r' !in Unlines(ls)
  {
    if ls != [] {
      assert ls[0] in ls;
      UnlinesHasNoCr(ls[1..]);
    }
  }

  lemma {:induction false} ItemLinesArePlain(vs: seq<string>)
    ensures forall l :: l in ItemLines(vs) ==> Plain(l)
  {
    if vs != [] {
      EscapedIsPlain(vs[0]);
      ItemLinesArePlain(vs[1..]);
    }
  }

  lemma EntryLinesArePlain(e: Entry)
    requires IsKey(e.key)
    ensures forall l :: l in EntryLines(e) ==> Plain(l)
  {
    match e.value
    case Str(v) => EscapedIsPlain(v);
    case Bool(_) =>
    case Num(n) => DecimalReads(n);
    case Arr(vs) =>
      if |vs| == 1 {
        EscapedIsPlain(vs[0]);
      } else if |vs| > 1 {
        ItemLinesArePlain(vs);
      }
  }

  lemma {:induction false} AllLinesArePlain(es: seq<Entry>)
    requires forall e :: e in es ==> IsKey(e.key)
    ensures forall l :: l in AllLines(es) ==> Plain(l)
  {
    if es != [] {
      assert es[0] in es;
      EntryLinesArePlain(es[0]);
      AllLinesArePlain(es[1..]);
    }
  }

  // ---- Parsing an entry's lines ----

  /** What is left to do once a key and the start of its value were read. */
  function Continue(d: Draft, key: string, rhs: string, lines: seq<string>): Result<Draft> {
    match RhsFrom(rhs, lines)
    case None => Err(Error.Config)
    case Some((full, rest)) => var d' :- Assign(d, key, full); Parsed(rest, d')
  }

  lemma KeyChars(key: string)
    requires IsKey(key)
    ensures '#' !in key && '"' !in key && '=' !in key && !IsSpace(key[0]) && !IsSpace(key[|key| - 1]) && key[0] != '['
  {
    assert key[0] in key && key[|key| - 1] in key;
  }

  lemma ParsesLine(d: Draft, key: string, text: string, rest: seq<string>)
    requires IsKey(key) && Tight(text)
    requires Uncommented(key + " = " + text, ' ', false) == key + " = " + text
    ensures Parsed([key + " = " + text] + rest, d) == Continue(d, key, text, rest)
  {
    hide Assign, RhsFrom, Uncommented, IsSpace;
    var line := key + " = " + text;
    KeyChars(key);
    TrimsNothing(line);
    assert line[|key| + 1] == '=' && line[..|key| + 1] == key + " " && line[|key| + 2..] == " " + text;
    IndexIs(line, |key| + 1, '=');
    assert "" + key + " " == key + " ";
    assert IsSpace(' ') by { SpaceIsSpace(); }
    Trims("", key, " ");
    Trims(" ", text, "");
    assert " " + text + "" == " " + text;
    var lines := [line] + rest;
    assert lines[0] == line && lines[1..] == rest && Cleaned(lines[0]) == line;
    assert '=' in line && line[0] == key[0];
  }

  lemma SpaceIsSpace()
    ensures IsSpace(' ')
  {
  }

  lemma KeepsScalar(key: string, text: string)
    requires IsKey(key) && '#' !in text && '"' !in text
    ensures Uncommented(key + " = " + text, ' ', false) == key + " = " + text
  {
    KeyChars(key);
    var line := key + " = " + text;
    KeepsHead(line, ' ', "");
    assert line + "" == line;
  }

  /** Any value but a multi-line array is on one line. */
  lemma ParsesShort(d: Draft, e: Entry, rest: seq<string>)
    requires IsKey(e.key) && !(e.value.Arr? && |e.value.vs| > 1)
    ensures Parsed(EntryLines(e) + rest, d) == var d' :- Assign(d, e.key, Rhs(e.value)); Parsed(rest, d')
  {
    hide Assign, Parsed, Uncommented, Balances, ValueText, Tight, Gathered;
    ShortText(e);
    ShortIsWhole(e.value, rest);
    ParsesLine(d, e.key, ValueText(e.value), rest);
  }

  lemma ShortText(e: Entry)
    requires IsKey(e.key) && !(e.value.Arr? && |e.value.vs| > 1)
    ensures var text := ValueText(e.value);
      Tight(text) && Uncommented(e.key + " = " + text, ' ', false) == e.key + " = " + text
  {
    hide Uncommented, Quoted, Tight;
    var text := ValueText(e.value);
    KeyChars(e.key);
    match e.value {
      case Str(v) =>
        QuotedIsTight(v);
        KeepsQuoted(e.key + " = ", v, "");
        assert e.key + " = " + text + "" == e.key + " = " + text;
      case Bool(b) =>
        BoolIsTight(b);
        KeepsScalar(e.key, text);
      case Num(n) =>
        DecimalIsTight(n);
        KeepsScalar(e.key, text);
      case Arr(vs) =>
        if |vs| == 0 {
          EmptyIsTight();
          KeepsScalar(e.key, text);
        } else {
          QuotedIsTight(vs[0]);
          KeepsQuoted(e.key + " = [", vs[0], "]");
          assert e.key + " = [" + Quoted(vs[0]) + "]" == e.key + " = " + text;
        }
    }
  }

  lemma BoolIsTight(b: bool)
    ensures Tight(BoolText(b)) && '#' !in BoolText(b) && '"' !in BoolText(b)
  {
  }

  lemma EmptyIsTight()
    ensures Tight("[]")
  {
  }

  lemma DecimalIsTight(n: nat)
    ensures Tight(Decimal(n)) && '#' !in Decimal(n) && '"' !in Decimal(n)
  {
    hide Decimal, DigitsValue;
    var s := Decimal(n);
    DecimalReads(n);
    assert s[0] in s && s[|s| - 1] in s;
  }

  lemma ShortIsWhole(value: Value, rest: seq<string>)
    requires !(value.Arr? && |value.vs| > 1)
    ensures Rhs(value) == ValueText(value) && RhsFrom(ValueText(value), rest) == Some((ValueText(value), rest))
  {
    hide Balances, Escaped;
    match value
    case Str(v) =>
    case Bool(b) =>
    case Num(n) =>
      DecimalReads(n);
      assert Decimal(n)[0] in Decimal(n);
    case Arr(vs) =>
      ShortIsClosed(vs);
  }

  lemma GathersOne(rhs: string, line: string, rest: seq<string>)
    requires !Balances(rhs, 0, false)
    ensures Gathered(rhs, [line] + rest) == Gathered(rhs + " " + Cleaned(line), rest)
  {
    hide Balances, Cleaned;
    assert ([line] + rest)[1..] == rest;
  }

  lemma GathersNoMore(rhs: string, lines: seq<string>)
    requires Balances(rhs, 0, false)
    ensures Gathered(rhs, lines) == Some((rhs, lines))
  {
    hide Balances, Cleaned;
  }

  lemma {:induction false} GathersItems(front: string, vs: seq<string>, more: seq<string>, rest: seq<string>)
    requires front == "[" + Joined(more)
    ensures Gathered(front, ItemLines(vs) + ["]"] + rest) == Some(("[" + Joined(more + vs) + " ]", rest))
    decreases |vs|
  {
    hide Cleaned, Balances, Gathered, Quoted, Joined;
    OpenUntilClosed(more);
    if vs == [] {
      assert ItemLines(vs) + ["]"] + rest == ["]"] + rest && more + vs == more;
      CleansBracket();
      GathersOne(front, "]", rest);
      assert front + " " + "]" == "[" + Joined(more) + " ]";
      GathersNoMore("[" + Joined(more) + " ]", rest);
    } else {
      var item := Quoted(vs[0]) + ",";
      var after := ItemLines(vs[1..]) + ["]"] + rest;
      assert ItemLines(vs) + ["]"] + rest == ["    " + Quoted(vs[0]) + ","] + after;
      CleansItem(vs[0]);
      GathersOne(front, "    " + Quoted(vs[0]) + ",", after);
      JoinedOneMore(more, vs[0]);
      assert front + " " + item == "[" + Joined(more + [vs[0]]);
      GathersItems(front + " " + item, vs[1..], more + [vs[0]], rest);
      assert more + [vs[0]] + vs[1..] == more + vs;
    }
  }

  lemma {:induction false} JoinedOneMore(vs: seq<string>, v: string)
    ensures Joined(vs + [v]) == Joined(vs) + " " + Quoted(v) + ","
  {
    if vs == [] {
      assert vs + [v] == [v] && [v][1..] == [];
    } else {
      assert (vs + [v])[1..] == vs[1..] + [v];
      JoinedOneMore(vs[1..], v);
    }
  }

  lemma CleansItem(v: string)
    ensures Cleaned("    " + Quoted(v) + ",") == Quoted(v) + ","
  {
    hide Uncommented;
    KeepsQuoted("    ", v, ",");
    QuotedIsTight(v);
    Trims("    ", Quoted(v) + ",", "");
    assert "    " + (Quoted(v) + ",") + "" == "    " + Quoted(v) + ",";
  }

  lemma CleansBracket()
    ensures Cleaned("]") == "]"
  {
    KeepsTail("]", ' ', false);
    TrimsNothing("]");
  }

  lemma ParsesLong(d: Draft, e: Entry, rest: seq<string>)
    requires IsKey(e.key) && e.value.Arr? && |e.value.vs| > 1
    ensures Parsed(EntryLines(e) + rest, d) == var d' :- Assign(d, e.key, Rhs(e.value)); Parsed(rest, d')
  {
    hide Assign, Parsed, Uncommented, Balances, Gathered;
    var vs := e.value.vs;
    KeyChars(e.key);
    KeepsScalar(e.key, "[");
    var after := ItemLines(vs) + ["]"] + rest;
    assert e.key + " = [" == e.key + " = " + "[";
    assert EntryLines(e) + rest == [e.key + " = " + "["] + after;
    ParsesLine(d, e.key, "[", after);
    GathersItems("[", vs, [], rest);
    assert [] + vs == vs;
  }

  // ---- The round trip ----

  function Update(d: Draft, e: Entry): Draft {
    match e.value
    case Str(v) =>
      if e.key == "vault_id" then d.(vaultId := Some(v))
      else if e.key == "name" then d.(name := v)
      else if e.key == "listen" then d.(listen := Some(v))
      else d.(log := Some(v))
    case Arr(vs) =>
      if e.key == "peers" then d.(peers := vs) else if e.key == "include" then d.(globs := Some(vs)) else d.(authKeys := vs)
    case Bool(b) =>
      if e.key == "no_tofu" then d.(noTofu := b) else if e.key == "no_tls" then d.(noTls := b) else d.(allowBinary := b)
    case Num(n) =>
      if e.key == "debounce_ms" then d.(debounceMs := n) else d.(defaultKeyTtlDays := Some(n))
  }

  predicate WellTyped(e: Entry) {
    match e.value
    case Str(_) => e.key == "vault_id" || e.key == "name" || e.key == "listen" || e.key == "log"
    case Arr(_) => e.key == "peers" || e.key == "include" || e.key == "auth_keys"
    case Bool(_) => e.key == "no_tofu" || e.key == "no_tls" || e.key == "allow_binary"
    case Num(_) => e.key == "debounce_ms" || e.key == "default_key_ttl_days"
  }

  lemma AssignsValue(d: Draft, e: Entry)
    requires WellTyped(e)
    ensures IsKey(e.key) && Assign(d, e.key, Rhs(e.value)) == Ok(Update(d, e))
  {
    match e.value
    case Str(v) => AssignsStr(d, e);
    case Arr(vs) => AssignsArr(d, e);
    case Num(n) => AssignsNum(d, e);
    case Bool(b) => AssignsBool(d, e);
  }

  lemma AssignsStr(d: Draft, e: Entry)
    requires WellTyped(e) && e.value.Str?
    ensures IsKey(e.key) && Assign(d, e.key, Rhs(e.value)) == Ok(Update(d, e))
  {
    hide StrValue, ArrValue, U64Value;
    StrReads(e.value.v);
  }

  lemma AssignsArr(d: Draft, e: Entry)
    requires WellTyped(e) && e.value.Arr?
    ensures IsKey(e.key) && Assign(d, e.key, Rhs(e.value)) == Ok(Update(d, e))
  {
    hide StrValue, ArrValue, U64Value, Rhs;
    ArrReads(e.value.vs);
  }

  lemma AssignsNum(d: Draft, e: Entry)
    requires WellTyped(e) && e.value.Num?
    ensures IsKey(e.key) && Assign(d, e.key, Rhs(e.value)) == Ok(Update(d, e))
  {
    hide StrValue, ArrValue, U64Value, Assign;
    NumberReads(e.value.n);
    AssignsNumber(d, Rhs(e.value), e.value.n);
  }

  lemma AssignsNumber(d: Draft, rhs: string, n: U64)
    requires U64Value(rhs) == Ok(n)
    ensures Assign(d, "debounce_ms", rhs) == Ok(d.(debounceMs := n))
    ensures Assign(d, "default_key_ttl_days", rhs) == Ok(d.(defaultKeyTtlDays := Some(n)))
  {
    hide StrValue, ArrValue, U64Value;
  }

  lemma AssignsBool(d: Draft, e: Entry)
    requires WellTyped(e) && e.value.Bool?
    ensures IsKey(e.key) && Assign(d, e.key, Rhs(e.value)) == Ok(Update(d, e))
  {
    hide StrValue, ArrValue, U64Value;
  }

  function UpdateAll(d: Draft, es: seq<Entry>): Draft
    decreases |es|
  {
    if es == [] then d else UpdateAll(Update(d, es[0]), es[1..])
  }

  lemma {:induction false} ParsesAll(d: Draft, es: seq<Entry>)
    requires forall e :: e in es ==> WellTyped(e)
    ensures Parsed(AllLines(es), d) == Ok(UpdateAll(d, es))
    decreases |es|
  {
    hide WellTyped, Assign, Update;
    if es != [] {
      assert es[0] in es;
      var rest := AllLines(es[1..]);
      AssignsValue(d, es[0]);
      if es[0].value.Arr? && |es[0].value.vs| > 1 {
        ParsesLong(d, es[0], rest);
      } else {
        ParsesShort(d, es[0], rest);
      }
      ParsesAll(Update(d, es[0]), es[1..]);
    }
  }

  lemma {:induction false} UpdateAllAppend(d: Draft, a: seq<Entry>, b: seq<Entry>)
    ensures UpdateAll(d, a + b) == UpdateAll(UpdateAll(d, a), b)
    decreases |a|
  {
    if a == [] {
      assert a + b == b;
    } else {
      assert (a + b)[1..] == a[1..] + b;
      UpdateAllAppend(Update(d, a[0]), a[1..], b);
    }
  }

  lemma WellTypedKey(e: Entry)
    requires WellTyped(e)
    ensures IsKey(e.key)
  {
    AssignsValue(BLANK, e);
  }

  lemma FieldsAreWellTyped(c: VaultConfig)
    ensures WellTyped(Entry("vault_id", Str(c.vaultId))) && WellTyped(Entry("name", Str(c.name)))
    ensures WellTyped(Entry("peers", Arr(c.peers))) && WellTyped(Entry("include", Arr(c.globs))) && WellTyped(Entry("auth_keys", Arr(c.authKeys)))
    ensures WellTyped(Entry("no_tofu", Bool(c.noTofu))) && WellTyped(Entry("no_tls", Bool(c.noTls)))
    ensures WellTyped(Entry("allow_binary", Bool(c.allowBinary)))
    ensures WellTyped(Entry("debounce_ms", Num(c.debounceMs)))
    ensures c.listen.Some? ==> WellTyped(Entry("listen", Str(c.listen.value)))
    ensures c.log.Some? ==> WellTyped(Entry("log", Str(c.log.value)))
    ensures c.defaultKeyTtlDays.Some? ==> WellTyped(Entry("default_key_ttl_days", Num(c.defaultKeyTtlDays.value)))
  {
  }

  lemma EntriesAreWellTyped(c: VaultConfig)
    ensures forall e :: e in Entries(c) ==> WellTyped(e) && IsKey(e.key)
  {
    hide WellTyped, IsKey;
    FieldsAreWellTyped(c);
    forall e | e in Entries(c)
      ensures WellTyped(e) && IsKey(e.key)
    {
      assert WellTyped(e);
      WellTypedKey(e);
    }
  }

  lemma UpdatesOne(d: Draft, e: Entry)
    ensures UpdateAll(d, [e]) == Update(d, e)
  {
    assert [e][1..] == [];
  }

  lemma UpdatesFields(d: Draft, c: VaultConfig)
    ensures Update(d, Entry("vault_id", Str(c.vaultId))) == d.(vaultId := Some(c.vaultId))
    ensures Update(d, Entry("name", Str(c.name))) == d.(name := c.name)
    ensures Update(d, Entry("peers", Arr(c.peers))) == d.(peers := c.peers)
    ensures Update(d, Entry("include", Arr(c.globs))) == d.(globs := Some(c.globs))
    ensures Update(d, Entry("auth_keys", Arr(c.authKeys))) == d.(authKeys := c.authKeys)
    ensures Update(d, Entry("no_tofu", Bool(c.noTofu))) == d.(noTofu := c.noTofu)
    ensures Update(d, Entry("no_tls", Bool(c.noTls))) == d.(noTls := c.noTls)
    ensures Update(d, Entry("allow_binary", Bool(c.allowBinary))) == d.(allowBinary := c.allowBinary)
    ensures Update(d, Entry("debounce_ms", Num(c.debounceMs))) == d.(debounceMs := c.debounceMs)
    ensures c.listen.Some? ==> Update(d, Entry("listen", Str(c.listen.value))) == d.(listen := c.listen)
    ensures c.log.Some? ==> Update(d, Entry("log", Str(c.log.value))) == d.(log := c.log)
    ensures c.defaultKeyTtlDays.Some? ==>
      Update(d, Entry("default_key_ttl_days", Num(c.defaultKeyTtlDays.value))) == d.(defaultKeyTtlDays := c.defaultKeyTtlDays)
  {
  }

  lemma UpdatesTwo(d: Draft, a: Entry, b: Entry)
    ensures UpdateAll(d, [a, b]) == Update(Update(d, a), b)
  {
    assert [a, b] == [a] + [b];
    UpdateAllAppend(d, [a], [b]);
    UpdatesOne(d, a);
    UpdatesOne(Update(d, a), b);
  }

  lemma UpdatesThree(d: Draft, a: Entry, b: Entry, c: Entry)
    ensures UpdateAll(d, [a, b, c]) == Update(Update(Update(d, a), b), c)
  {
    assert [a, b, c] == [a, b] + [c];
    UpdateAllAppend(d, [a, b], [c]);
    UpdatesTwo(d, a, b);
    UpdatesOne(Update(Update(d, a), b), c);
  }

  lemma UpdatesNone(d: Draft)
    ensures UpdateAll(d, []) == d
  {
  }

  lemma UpdatesOptional(d: Draft, c: VaultConfig)
    ensures d.listen == None ==> UpdateAll(d, Listening(c)) == d.(listen := c.listen)
    ensures d.log == None ==> UpdateAll(d, Logging(c)) == d.(log := c.log)
    ensures d.authKeys == [] ==> UpdateAll(d, Keys(c)) == d.(authKeys := c.authKeys)
    ensures d.defaultKeyTtlDays == None ==> UpdateAll(d, Ttl(c)) == d.(defaultKeyTtlDays := c.defaultKeyTtlDays)
  {
    hide Update, UpdateAll;
    UpdatesFields(d, c);
    UpdatesNone(d);
    if c.listen.Some? {
      UpdatesOne(d, Entry("listen", Str(c.listen.value)));
    }
    if c.log.Some? {
      UpdatesOne(d, Entry("log", Str(c.log.value)));
    }
    if c.authKeys != [] {
      UpdatesOne(d, Entry("auth_keys", Arr(c.authKeys)));
    }
    if c.defaultKeyTtlDays.Some? {
      UpdatesOne(d, Entry("default_key_ttl_days", Num(c.defaultKeyTtlDays.value)));
    }
  }

  /** The entries of a configuration, read in order, rebuild it. */
  lemma EntriesRebuild(c: VaultConfig)
    ensures Finish(UpdateAll(BLANK, Entries(c))) == Ok(c)
  {
    hide UpdateAll, Update, Heading, Listening, Flags, Logging, Settings, Keys, Ttl;
    var d1 := BLANK.(vaultId := Some(c.vaultId), name := c.name, peers := c.peers);
    RebuildHead(c);
    var d2 := Extend(BLANK, Heading(c), Listening(c));
    UpdatesOptional(d1, c);
    var d3 := Extend(BLANK, Heading(c) + Listening(c), Flags(c));
    RebuildFlags(d2, c);
    var d4 := Extend(BLANK, Heading(c) + Listening(c) + Flags(c), Logging(c));
    UpdatesOptional(d3, c);
    var d5 := Extend(BLANK, Heading(c) + Listening(c) + Flags(c) + Logging(c), Settings(c));
    RebuildSettings(d4, c);
    var d6 := Extend(BLANK, Heading(c) + Listening(c) + Flags(c) + Logging(c) + Settings(c), Keys(c));
    UpdatesOptional(d5, c);
    var d7 := Extend(BLANK, Heading(c) + Listening(c) + Flags(c) + Logging(c) + Settings(c) + Keys(c), Ttl(c));
    UpdatesOptional(d6, c);
  }

  ghost function Extend(d: Draft, before: seq<Entry>, es: seq<Entry>): (d': Draft)
    ensures d' == UpdateAll(d, before + es)
  {
    UpdateAllAppend(d, before, es);
    UpdateAll(UpdateAll(d, before), es)
  }

  lemma RebuildHead(c: VaultConfig)
    ensures UpdateAll(BLANK, Heading(c)) == BLANK.(vaultId := Some(c.vaultId), name := c.name, peers := c.peers)
  {
    hide UpdateAll, Update;
    var es := Heading(c);
    UpdatesThree(BLANK, es[0], es[1], es[2]);
    UpdatesFields(BLANK, c);
    UpdatesFields(BLANK.(vaultId := Some(c.vaultId)), c);
    UpdatesFields(BLANK.(vaultId := Some(c.vaultId), name := c.name), c);
  }

  lemma RebuildFlags(d: Draft, c: VaultConfig)
    ensures UpdateAll(d, Flags(c)) == d.(noTofu := c.noTofu, noTls := c.noTls)
  {
    hide UpdateAll, Update;
    var es := Flags(c);
    UpdatesTwo(d, es[0], es[1]);
    UpdatesFields(d, c);
    UpdatesFields(d.(noTofu := c.noTofu), c);
  }

  lemma RebuildSettings(d: Draft, c: VaultConfig)
    ensures UpdateAll(d, Settings(c)) == d.(debounceMs := c.debounceMs, allowBinary := c.allowBinary, globs := Some(c.globs))
  {
    hide UpdateAll, Update;
    var es := Settings(c);
    UpdatesThree(d, es[0], es[1], es[2]);
    UpdatesFields(d, c);
    UpdatesFields(d.(debounceMs := c.debounceMs), c);
    UpdatesFields(d.(debounceMs := c.debounceMs, allowBinary := c.allowBinary), c);
  }

  /** The text of any entries, in any order and repeated or not, is read entry by entry. */
  lemma ReadsEntries(es: seq<Entry>)
    requires forall e :: e in es ==> WellTyped(e)
    ensures Parsed(Lines(UnCrLf(Texts(es))), BLANK) == Ok(UpdateAll(BLANK, es))
  {
    hide Parsed, UpdateAll, WellTyped, IsKey;
    forall e | e in es
      ensures IsKey(e.key)
    {
      WellTypedKey(e);
    }
    TextIsLines(es);
    AllLinesArePlain(es);
    UnlinesHasNoCr(AllLines(es));
    NoCrLf(Texts(es));
    LinesOfUnlines(AllLines(es));
    ParsesAll(BLANK, es);
  }

  /** `from_toml_str(to_toml_string(c)) == c`. */
  lemma RoundTrip(c: VaultConfig)
    ensures Parsed(Lines(UnCrLf(Texts(Entries(c)))), BLANK).Ok?
    ensures Finish(Parsed(Lines(UnCrLf(Texts(Entries(c)))), BLANK).value) == Ok(c)
  {
    hide Entries, Parsed, UpdateAll, Finish;
    EntriesAreWellTyped(c);
    ReadsEntries(Entries(c));
    EntriesRebuild(c);
  }

  /** The two operations, one after the other. */
  method SaveAndLoad(c: VaultConfig) returns (r: Result<VaultConfig>)
    ensures r == Ok(c)
  {
    var s := ToTomlString(c);
    RoundTrip(c);
    r := FromTomlStr(s);
  }
}
