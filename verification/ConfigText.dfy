/** What the text of a configuration file means, line by line and field by field (config.rs): which line
    sets which field, what is skipped, what is refused, and what holds where nothing was said. */
module ConfigText {
  import opened Prelude
  import opened Text
  import opened Config
  import opened ConfigLaws

  // ---- Entries in any order ----

  predicate AllWellTyped(es: seq<Entry>) {
    forall e | e in es :: WellTyped(e)
  }

  /** The fields after a text of entries was read. */
  function FieldsOf(es: seq<Entry>): Result<Draft> {
    Parsed(Lines(UnCrLf(Texts(es))), BLANK)
  }

  predicate Absent(es: seq<Entry>, key: string) {
    forall e | e in es :: e.key != key
  }

  /** The fields after a text with that entry among others was read. */
  function Among(before: seq<Entry>, key: string, value: Value, after: seq<Entry>): Result<Draft> {
    FieldsOf(before + [Entry(key, value)] + after)
  }

  lemma Around(a: seq<Entry>, e: Entry, b: seq<Entry>)
    requires AllWellTyped(a) && WellTyped(e) && AllWellTyped(b)
    ensures FieldsOf(a + [e] + b) == Ok(UpdateAll(Update(UpdateAll(BLANK, a), e), b))
  {
    hide Texts, Lines, UnCrLf, Parsed, WellTyped, Update, UpdateAll;
    ReadsEntries(a + [e] + b);
    UpdateAllAppend(BLANK, a + [e], b);
    UpdateAllAppend(BLANK, a, [e]);
    UpdatesOne(UpdateAll(BLANK, a), e);
  }

  /** An entry sets no other field than its own. */
  lemma SetsOnly(d: Draft, e: Entry, key: string)
    requires WellTyped(e) && e.key != key
    ensures Same(d, Update(d, e), key)
  {
    hide WellTyped, Update, Same;
    if e.value.Str? {
      StringSetsOnly(d, e, key);
    } else if e.value.Arr? {
      ArraySetsOnly(d, e, key);
    } else {
      ScalarSetsOnly(d, e, key);
    }
  }

  lemma StringSetsOnly(d: Draft, e: Entry, key: string)
    requires WellTyped(e) && e.key != key && e.value.Str?
    ensures Same(d, Update(d, e), key)
  {
  }

  lemma ArraySetsOnly(d: Draft, e: Entry, key: string)
    requires WellTyped(e) && e.key != key && e.value.Arr?
    ensures Same(d, Update(d, e), key)
  {
  }

  lemma ScalarSetsOnly(d: Draft, e: Entry, key: string)
    requires WellTyped(e) && e.key != key && (e.value.Bool? || e.value.Num?)
    ensures Same(d, Update(d, e), key)
  {
  }

  lemma AbsentRest(es: seq<Entry>, key: string)
    requires es != [] && Absent(es, key)
    ensures es[0].key != key && Absent(es[1..], key)
  {
    assert es[0] in es && forall e :: e in es[1..] ==> e in es;
  }

  lemma {:induction false} KeepsUnset(d: Draft, es: seq<Entry>, key: string)
    requires AllWellTyped(es) && Absent(es, key)
    ensures Same(d, UpdateAll(d, es), key)
    decreases |es|
  {
    hide WellTyped, Update;
    if es != [] {
      assert es[0] in es && forall e :: e in es[1..] ==> e in es;
      AbsentRest(es, key);
      SetsOnly(d, es[0], key);
      KeepsUnset(Update(d, es[0]), es[1..], key);
    }
  }

  /** The field of that key is the same in both. */
  predicate Same(d: Draft, d': Draft, key: string) {
    && (key == "vault_id" ==> d'.vaultId == d.vaultId)
    && (key == "name" ==> d'.name == d.name)
    && (key == "listen" ==> d'.listen == d.listen)
    && (key == "log" ==> d'.log == d.log)
    && (key == "peers" ==> d'.peers == d.peers)
    && (key == "include" ==> d'.globs == d.globs)
    && (key == "auth_keys" ==> d'.authKeys == d.authKeys)
    && (key == "no_tofu" ==> d'.noTofu == d.noTofu)
    && (key == "no_tls" ==> d'.noTls == d.noTls)
    && (key == "allow_binary" ==> d'.allowBinary == d.allowBinary)
    && (key == "debounce_ms" ==> d'.debounceMs == d.debounceMs)
    && (key == "default_key_ttl_days" ==> d'.defaultKeyTtlDays == d.defaultKeyTtlDays)
  }

  /** Of the lines for one key the last counts, wherever it stands among the others. */
  lemma LastStringCounts(a: seq<Entry>, b: seq<Entry>, v: string)
    requires AllWellTyped(a) && AllWellTyped(b)
    ensures var r := Among(a, "vault_id", Str(v), b);
      r.Ok? && (Absent(b, "vault_id") ==> r.value.vaultId == Some(v))
    ensures var r := Among(a, "name", Str(v), b);
      r.Ok? && (Absent(b, "name") ==> r.value.name == v)
    ensures var r := Among(a, "listen", Str(v), b);
      r.Ok? && (Absent(b, "listen") ==> r.value.listen == Some(v))
    ensures var r := Among(a, "log", Str(v), b);
      r.Ok? && (Absent(b, "log") ==> r.value.log == Some(v))
  {
    hide FieldsOf, UpdateAll, AllWellTyped, Absent, IsKey;
    var d := UpdateAll(BLANK, a);
    Around(a, Entry("vault_id", Str(v)), b);
    if Absent(b, "vault_id") {
      KeepsUnset(d.(vaultId := Some(v)), b, "vault_id");
    }
    Around(a, Entry("name", Str(v)), b);
    if Absent(b, "name") {
      KeepsUnset(d.(name := v), b, "name");
    }
    Around(a, Entry("listen", Str(v)), b);
    if Absent(b, "listen") {
      KeepsUnset(d.(listen := Some(v)), b, "listen");
    }
    Around(a, Entry("log", Str(v)), b);
    if Absent(b, "log") {
      KeepsUnset(d.(log := Some(v)), b, "log");
    }
  }

  lemma LastArrayCounts(a: seq<Entry>, b: seq<Entry>, vs: seq<string>)
    requires AllWellTyped(a) && AllWellTyped(b)
    ensures var r := Among(a, "peers", Arr(vs), b);
      r.Ok? && (Absent(b, "peers") ==> r.value.peers == vs)
    ensures var r := Among(a, "include", Arr(vs), b);
      r.Ok? && (Absent(b, "include") ==> r.value.globs == Some(vs))
    ensures var r := Among(a, "auth_keys", Arr(vs), b);
      r.Ok? && (Absent(b, "auth_keys") ==> r.value.authKeys == vs)
  {
    hide FieldsOf, UpdateAll, AllWellTyped, Absent, IsKey;
    var d := UpdateAll(BLANK, a);
    Around(a, Entry("peers", Arr(vs)), b);
    if Absent(b, "peers") {
      KeepsUnset(d.(peers := vs), b, "peers");
    }
    Around(a, Entry("include", Arr(vs)), b);
    if Absent(b, "include") {
      KeepsUnset(d.(globs := Some(vs)), b, "include");
    }
    Around(a, Entry("auth_keys", Arr(vs)), b);
    if Absent(b, "auth_keys") {
      KeepsUnset(d.(authKeys := vs), b, "auth_keys");
    }
  }

  lemma LastFlagCounts(a: seq<Entry>, b: seq<Entry>, flag: bool)
    requires AllWellTyped(a) && AllWellTyped(b)
    ensures var r := Among(a, "no_tofu", Bool(flag), b);
      r.Ok? && (Absent(b, "no_tofu") ==> r.value.noTofu == flag)
    ensures var r := Among(a, "no_tls", Bool(flag), b);
      r.Ok? && (Absent(b, "no_tls") ==> r.value.noTls == flag)
    ensures var r := Among(a, "allow_binary", Bool(flag), b);
      r.Ok? && (Absent(b, "allow_binary") ==> r.value.allowBinary == flag)
  {
    hide FieldsOf, UpdateAll, AllWellTyped, Absent, IsKey;
    var d := UpdateAll(BLANK, a);
    Around(a, Entry("no_tofu", Bool(flag)), b);
    if Absent(b, "no_tofu") {
      KeepsUnset(d.(noTofu := flag), b, "no_tofu");
    }
    Around(a, Entry("no_tls", Bool(flag)), b);
    if Absent(b, "no_tls") {
      KeepsUnset(d.(noTls := flag), b, "no_tls");
    }
    Around(a, Entry("allow_binary", Bool(flag)), b);
    if Absent(b, "allow_binary") {
      KeepsUnset(d.(allowBinary := flag), b, "allow_binary");
    }
  }

  lemma LastNumberCounts(a: seq<Entry>, b: seq<Entry>, n: U64)
    requires AllWellTyped(a) && AllWellTyped(b)
    ensures var r := Among(a, "debounce_ms", Num(n), b);
      r.Ok? && (Absent(b, "debounce_ms") ==> r.value.debounceMs == n)
    ensures var r := Among(a, "default_key_ttl_days", Num(n), b);
      r.Ok? && (Absent(b, "default_key_ttl_days") ==> r.value.defaultKeyTtlDays == Some(n))
  {
    hide FieldsOf, UpdateAll, AllWellTyped, Absent, IsKey;
    var d := UpdateAll(BLANK, a);
    Around(a, Entry("debounce_ms", Num(n)), b);
    if Absent(b, "debounce_ms") {
      KeepsUnset(d.(debounceMs := n), b, "debounce_ms");
    }
    Around(a, Entry("default_key_ttl_days", Num(n)), b);
    if Absent(b, "default_key_ttl_days") {
      KeepsUnset(d.(defaultKeyTtlDays := Some(n)), b, "default_key_ttl_days");
    }
  }

  /** What a file of entries means: the vault id must be given, and everything that was not has its default. */
  lemma Defaults(es: seq<Entry>)
    requires AllWellTyped(es)
    ensures FieldsOf(es).Ok?
    ensures Finish(FieldsOf(es).value).Ok? <==> !Absent(es, "vault_id")
    ensures !Absent(es, "vault_id") ==> DefaultsHold(es, Finish(FieldsOf(es).value).value)
  {
    hide Texts, Lines, UnCrLf, Parsed, WellTyped, Update, UpdateAll, Absent;
    ReadsEntries(es);
    forall key | Absent(es, key)
      ensures Same(BLANK, UpdateAll(BLANK, es), key)
    {
      KeepsUnset(BLANK, es, key);
    }
    IdIsGiven(BLANK, es);
  }

  ghost predicate DefaultsHold(es: seq<Entry>, c: VaultConfig) {
    && (Absent(es, "name") ==> c.name == "")
    && (Absent(es, "peers") ==> c.peers == [])
    && (Absent(es, "listen") ==> c.listen == None)
    && (Absent(es, "no_tofu") ==> !c.noTofu)
    && (Absent(es, "no_tls") ==> !c.noTls)
    && (Absent(es, "log") ==> c.log == None)
    && (Absent(es, "debounce_ms") ==> c.debounceMs == 1000)
    && (Absent(es, "allow_binary") ==> !c.allowBinary)
    && (Absent(es, "include") ==> c.globs == ["**"])
    && (Absent(es, "auth_keys") ==> c.authKeys == [])
    && (Absent(es, "default_key_ttl_days") ==> c.defaultKeyTtlDays == None)
  }

  lemma SetsId(d: Draft, e: Entry)
    requires WellTyped(e)
    ensures Update(d, e).vaultId.Some? <==> d.vaultId.Some? || e.key == "vault_id"
  {
  }

  lemma {:induction false} IdIsGiven(d: Draft, es: seq<Entry>)
    requires AllWellTyped(es)
    ensures UpdateAll(d, es).vaultId.Some? <==> d.vaultId.Some? || !Absent(es, "vault_id")
    decreases |es|
  {
    hide WellTyped, Update;
    if es != [] {
      assert es[0] in es && forall e :: e in es[1..] ==> e in es;
      assert forall e :: e in es ==> e == es[0] || e in es[1..];
      SetsId(d, es[0]);
      IdIsGiven(Update(d, es[0]), es[1..]);
    }
  }

  // ---- Lines that say nothing, and lines that are refused ----

  /** Blank lines, comments and table headers are skipped. */
  lemma LinesSkipped(pad: string, comment: string, head: string, rest: seq<string>, d: Draft)
    requires Spaces(pad) && '#' !in head && '"' !in head
    ensures Parsed([pad] + rest, d) == Parsed(rest, d)
    ensures Parsed([pad + "#" + comment] + rest, d) == Parsed(rest, d)
    ensures Parsed(["[" + head + "]"] + rest, d) == Parsed(rest, d)
  {
    hide Parsed, Uncommented, IsSpace, Trim;
    NoMarksInSpaces(pad);
    KeepsHead(pad, ' ', "");
    TrimsAway(pad);
    NothingKept(if pad == "" then ' ' else pad[|pad| - 1], comment);
    assert pad + "" == pad;
    SkipsLine(pad, rest, d);
    KeepsHead(pad, ' ', "#" + comment);
    assert pad + ("#" + comment) == pad + "#" + comment;
    SkipsLine(pad + "#" + comment, rest, d);
    var line := "[" + head + "]";
    KeepsTail(line, ' ', false);
    BracketsAreTight(line);
    SkipsLine(line, rest, d);
  }

  lemma NothingKept(prev: char, comment: string)
    ensures Uncommented("#" + comment, prev, false) == "" && Uncommented("", prev, false) == ""
  {
  }

  lemma NoMarksInSpaces(pad: string)
    requires Spaces(pad)
    ensures '#' !in pad && '"' !in pad
  {
  }

  lemma {:induction false} TrimsAway(pad: string)
    requires Spaces(pad)
    ensures Trim(pad) == ""
  {
    if pad != "" {
      assert pad[0] in pad && forall c :: c in pad[1..] ==> c in pad;
      TrimsAway(pad[1..]);
    }
  }

  lemma SkipsLine(line: string, rest: seq<string>, d: Draft)
    requires var kept := Cleaned(line);
      kept == "" || (kept[0] == '[' && kept[|kept| - 1] == ']')
    ensures Parsed([line] + rest, d) == Parsed(rest, d)
  {
    hide Cleaned, Assign, RhsFrom;
    assert ([line] + rest)[0] == line && ([line] + rest)[1..] == rest;
  }

  /** A line with no equals sign that is neither of these is refused, and so is a value of the wrong form. */
  lemma LinesRefused(line: string, key: string, text: string, rest: seq<string>, d: Draft)
    requires Tight(line) && '#' !in line && '"' !in line && '=' !in line && line[0] != '['
    requires Tight(text) && '#' !in text && '"' !in text && text[0] != '['
    requires key in ["vault_id", "name", "peers", "listen", "log", "include", "auth_keys"]
      || (U64Value(text).Err? && key in ["debounce_ms", "default_key_ttl_days"])
    ensures Parsed([line] + rest, d) == Err(Error.Config)
    ensures Parsed([key + " = " + text] + rest, d) == Err(Error.Config)
  {
    hide Parsed, Uncommented, Assign, IsSpace, Trim, U64Value, IsKey;
    KeepsTail(line, ' ', false);
    TrimsNothing(line);
    RefusesLine(line, rest, d);
    RefusesValue(d, key, text);
    PlainValue(d, key, text, rest);
  }

  lemma RefusesLine(line: string, rest: seq<string>, d: Draft)
    requires var kept := Cleaned(line); kept != "" && kept[0] != '[' && '=' !in kept
    ensures Parsed([line] + rest, d) == Err(Error.Config)
  {
    hide Cleaned, Assign, RhsFrom;
    assert ([line] + rest)[0] == line;
  }

  lemma RefusesValue(d: Draft, key: string, text: string)
    requires Tight(text) && '"' !in text && text[0] != '['
    requires key in ["vault_id", "name", "peers", "listen", "log", "include", "auth_keys"]
      || (U64Value(text).Err? && key in ["debounce_ms", "default_key_ttl_days"])
    ensures IsKey(key) && Assign(d, key, text) == Err(Error.Config)
  {
    hide Unescaped, Strings, ParseNumber;
    TrimsNothing(text);
    assert text[0] in text;
    assert StrValue(text) == Err(Error.Config) && ArrValue(text) == Err(Error.Config);
  }

  lemma PlainValue(d: Draft, key: string, text: string, rest: seq<string>)
    requires IsKey(key) && Tight(text) && '#' !in text && '"' !in text && text[0] != '['
    ensures Parsed([key + " = " + text] + rest, d) == var d' :- Assign(d, key, text); Parsed(rest, d')
  {
    hide Assign, Parsed, Uncommented, Gathered;
    KeepsScalar(key, text);
    ParsesLine(d, key, text, rest);
  }

  /** Keys that are not known say nothing. */
  lemma UnknownKeys(key: string, text: string, rest: seq<string>, d: Draft)
    requires IsKey(key) && Tight(text) && '#' !in text && '"' !in text && text[0] != '['
    requires key !in ["vault_id", "name", "peers", "listen", "no_tofu", "no_tls", "log", "debounce_ms", "allow_binary", "include",
                      "auth_keys", "default_key_ttl_days"]
    ensures Parsed([key + " = " + text] + rest, d) == Parsed(rest, d)
  {
    hide Parsed, Tight, IsKey;
    PlainValue(d, key, text, rest);
  }

  /** Numbers are read in decimal, with or without a plus sign, as long as they fit 64 bits. */
  lemma NumbersRead(n: nat)
    ensures U64Value(Decimal(n)) == U64Value("+" + Decimal(n)) == if n < 0x1_0000_0000_0000_0000 then Ok(n) else Err(Error.Config)
  {
    hide DigitsValue, Decimal;
    DecimalReads(n);
    assert Decimal(n)[0] in Decimal(n);
    assert ("+" + Decimal(n))[1..] == Decimal(n);
  }

  // ---- A comment after a string ----

  predicate EndsInBackslash(v: string) {
    v != "" && v[|v| - 1] == '\\'
  }

  lemma {:induction false} EscapedEnd(v: string)
    ensures Escaped(v) != "" && Escaped(v)[|Escaped(v)| - 1] == '\\' <==> EndsInBackslash(v)
  {
    if v != "" {
      var e := EscChar(v[0]);
      EscapedEnd(v[1..]);
      if |v| == 1 {
        assert v[1..] == "" && Escaped(v) == e;
        if |e| == 6 {
          assert e[5] == HexDigit(v[0] as int % 16) != '\\';
        }
      } else {
        EscapedIsNotEmpty(v[1..]);
        assert Escaped(v)[|Escaped(v)| - 1] == Escaped(v[1..])[|Escaped(v[1..])| - 1];
      }
    }
  }

  lemma EscapeIsNotEmpty(c: char)
    ensures EscChar(c) != ""
  {
  }

  lemma EscapedIsNotEmpty(v: string)
    requires v != ""
    ensures Escaped(v) != ""
  {
  }

  /** Scanned from inside an escaped string: its quote is seen unless a backslash stands before it. */
  lemma {:induction false} QuoteSeen(v: string, prev: char, tail: string)
    requires v == "" ==> prev != '\\'
    ensures Uncommented(Escaped(v) + "\"" + tail, prev, true) == Escaped(v) + "\"" + Uncommented(tail, '"', EndsInBackslash(v))
    decreases |v|
  {
    if v == "" {
      assert Escaped(v) + "\"" + tail == "\"" + tail && ("\"" + tail)[1..] == tail;
    } else {
      QuoteAfter(v, prev, tail);
    }
  }

  lemma {:induction false} QuoteAfter(v: string, prev: char, tail: string)
    requires v != ""
    ensures Uncommented(Escaped(v) + "\"" + tail, prev, true) == Escaped(v) + "\"" + Uncommented(tail, '"', EndsInBackslash(v))
    decreases |v|
  {
    hide Uncommented, EscChar;
    var e, rest := EscChar(v[0]), Escaped(v[1..]) + "\"" + tail;
    assert Escaped(v) + "\"" + tail == e + rest;
    EscapeIsNotEmpty(v[0]);
    KeepsEscape(v[0], prev, rest);
    if |v| == 1 {
      assert v[1..] == "" && rest == "\"" + tail && Escaped(v) == e;
      EscapedEnd(v);
      QuoteNow(tail, e[|e| - 1]);
    } else {
      QuoteAfter(v[1..], e[|e| - 1], tail);
    }
  }

  lemma QuoteNow(tail: string, prev: char)
    ensures Uncommented("\"" + tail, prev, true) == "\"" + Uncommented(tail, '"', prev == '\\')
  {
    assert ("\"" + tail)[1..] == tail;
  }

  lemma {:induction false} KeptInside(tail: string, prev: char)
    requires '"' !in tail
    ensures Uncommented(tail, prev, true) == tail
  {
    if tail != "" {
      KeptInside(tail[1..], tail[0]);
      assert [tail[0]] + tail[1..] == tail;
    }
  }

  /** A comment after a string is dropped, unless the string ends in a backslash: then it is kept, and
      the line is refused. */
  lemma CommentAfterString(v: string, comment: string, rest: seq<string>, d: Draft)
    requires '"' !in comment
    ensures Parsed(["name = " + Quoted(v) + " #" + comment] + rest, d) ==
      if EndsInBackslash(v) then Err(Error.Config) else Parsed(rest, d.(name := v))
  {
    hide Parsed, Uncommented, Escaped, Quoted, StrValue;
    var tail := " #" + comment;
    var line := "name = " + Quoted(v) + tail;
    assert "name = " + Quoted(v) + " #" + comment == line;
    KeptUpTo(v, tail);
    if EndsInBackslash(v) {
      KeptInside(tail, '"');
      CommentKept(v, comment, rest, d);
    } else {
      DropsFrom(comment);
      CommentDropped(v, tail, rest, d);
    }
  }

  lemma KeptUpTo(v: string, tail: string)
    ensures Uncommented("name = " + Quoted(v) + tail, ' ', false) == "name = " + Quoted(v) + Uncommented(tail, '"', EndsInBackslash(v))
  {
    hide Uncommented, Escaped;
    var inside := Escaped(v) + "\"" + tail;
    assert "name = " + Quoted(v) + tail == "name = " + ("\"" + inside);
    KeepsHead("name = ", ' ', "\"" + inside);
    OpensString(inside, ' ');
    QuoteSeen(v, '"', tail);
  }

  lemma DropsFrom(comment: string)
    ensures Uncommented(" #" + comment, '"', false) == " "
  {
    assert (" #" + comment)[1..] == "#" + comment;
  }

  lemma CommentDropped(v: string, tail: string, rest: seq<string>, d: Draft)
    requires Uncommented("name = " + Quoted(v) + tail, ' ', false) == "name = " + Quoted(v) + " "
    ensures Parsed(["name = " + Quoted(v) + tail] + rest, d) == Parsed(rest, d.(name := v))
  {
    hide Uncommented, Escaped, StrValue, Parsed;
    QuotedIsTight(v);
    StrReads(v);
    SpaceIsSpace();
    NamedLine("name = " + Quoted(v) + tail, Quoted(v), " ", rest, d);
  }

  lemma CommentKept(v: string, comment: string, rest: seq<string>, d: Draft)
    requires '"' !in comment
    requires var line := "name = " + Quoted(v) + " #" + comment; Uncommented(line, ' ', false) == line
    ensures Parsed(["name = " + Quoted(v) + " #" + comment] + rest, d) == Err(Error.Config)
  {
    hide Uncommented, Escaped, Parsed, StrValue;
    var line := "name = " + Quoted(v) + " #" + comment;
    var whole := Quoted(v) + " #" + comment;
    var k := TightEnd(whole);
    assert |Quoted(v)| + 2 <= k by {
      assert whole[|Quoted(v)| + 1] == '#';
      HashIsTight();
    }
    assert whole == whole[..k] + whole[k..];
    assert line == "name = " + whole[..k] + whole[k..];
    assert whole[k - 1] != '"' by {
      if k > |Quoted(v)| + 2 {
        assert whole[k - 1] == comment[k - 1 - |Quoted(v)| - 2] && comment[k - 1 - |Quoted(v)| - 2] in comment;
      }
    }
    QuoteIsTight();
    NotAString(whole[..k]);
    NamedLine(line, whole[..k], whole[k..], rest, d);
  }

  lemma HashIsTight()
    ensures !IsSpace('#')
  {
  }

  lemma QuoteIsTight()
    ensures !IsSpace('"')
  {
  }

  /** Where the spaces at the end of a text begin. */
  lemma {:induction false} TightEnd(s: string) returns (k: nat)
    ensures k <= |s| && Spaces(s[k..]) && (k > 0 ==> !IsSpace(s[k - 1]))
    ensures forall i :: k <= i < |s| ==> IsSpace(s[i])
  {
    k := |s|;
    while k > 0 && IsSpace(s[k - 1])
      invariant k <= |s| && forall i :: k <= i < |s| ==> IsSpace(s[i])
    {
      k := k - 1;
    }
    assert forall c :: c in s[k..] ==> IsSpace(c);
  }

  lemma NotAString(text: string)
    requires Tight(text) && text[|text| - 1] != '"'
    ensures StrValue(text) == Err(Error.Config)
  {
    hide Unescaped;
    TrimsNothing(text);
  }

  /** A line for the name, with what is left of it after comments are off. */
  lemma NamedLine(line: string, text: string, pad: string, rest: seq<string>, d: Draft)
    requires Uncommented(line, ' ', false) == "name = " + text + pad && Tight(text) && text[0] != '[' && Spaces(pad)
    ensures StrValue(text).Ok? ==> Parsed([line] + rest, d) == Parsed(rest, d.(name := StrValue(text).value))
    ensures StrValue(text).Err? ==> Parsed([line] + rest, d) == Err(StrValue(text).error)
  {
    hide Uncommented, StrValue, IsSpace, Trim;
    var kept := "name = " + text;
    assert Cleaned(line) == kept by {
      NameIsTight(text);
      Trims("", kept, pad);
      assert "" + kept + pad == "name = " + text + pad;
    }
    assert kept[5] == '=' && kept[..5] == "name " && kept[6..] == " " + text;
    IndexIs(kept, 5, '=');
    NameTrims(text);
    assert ([line] + rest)[0] == line && ([line] + rest)[1..] == rest;
    assert '=' in kept && kept[0] == 'n';
  }

  lemma NameIsTight(text: string)
    requires Tight(text)
    ensures Tight("name = " + text) && Spaces("")
  {
  }

  lemma NameTrims(text: string)
    requires Tight(text)
    ensures Trim("name ") == "name" && Trim(" " + text) == text
  {
    hide Trim;
    Trims("", "name", " ");
    assert "" + "name" + " " == "name ";
    Trims(" ", text, "");
    assert " " + text + "" == " " + text;
  }

  // ---- In so many characters ----

  /** What each escape stands for. */
  lemma EscapesRead()
    ensures Unescaped("\\n") == Ok("\n") && Unescaped("\\t") == Ok("\t") && Unescaped("\\r") == Ok("\r")
    ensures Unescaped("\\\"") == Ok("\"") && Unescaped("\\\\") == Ok("\\")
    ensures Unescaped("\\b") == Ok([8 as char]) && Unescaped("\\f") == Ok([12 as char])
    ensures Unescaped("\\x") == Unescaped("\\") == Err(Error.Config)
  {
    hide Unescaped;
    OneEscape('n');
    OneEscape('t');
    OneEscape('r');
    OneEscape('"');
    OneEscape('\\');
    OneEscape('b');
    OneEscape('f');
    OneEscape('x');
    NoEscape();
  }

  /** And how each character is written that is not written as it is. */
  lemma EscapesWritten()
    ensures Escaped("\n") == "\\n" && Escaped("\t") == "\\t" && Escaped("\r") == "\\r" && Escaped("\"") == "\\\"" && Escaped("\\") == "\\\\"
    ensures Escaped([0 as char]) == "\\u0000" && Escaped([31 as char]) == "\\u001F"
  {
    forall c: char
      ensures Escaped([c]) == EscChar(c)
    {
      OneEscaped(c);
    }
  }

  lemma OneEscaped(c: char)
    ensures Escaped([c]) == EscChar(c)
  {
    assert [c][1..] == "";
  }

  lemma OneEscape(c: char)
    requires c != 'u' && c != 'U'
    ensures var one := UnescOne(['\\', c]);
      && (one.None? ==> Unescaped(['\\', c]) == Err(Error.Config))
      && (one.Some? ==> Unescaped(['\\', c]) == Ok([one.value.0]))
  {
    assert ['\\', c][2..] == "";
    assert Unescaped("") == Ok("");
    var one := UnescOne(['\\', c]);
    if one.Some? {
      assert one.value.1 == 2 && [one.value.0] + "" == [one.value.0];
    }
  }

  lemma NoEscape()
    ensures Unescaped("\\") == Err(Error.Config)
  {
  }

  /** Four or eight digits stand for the character with that number, if there is one. */
  lemma HexEscapesRead(four: string, eight: string, n: nat)
    requires |four| == 4 && |eight| == 8 && four[0] != '+' && eight[0] != '+'
    requires DigitsValue(four, 16) == DigitsValue(eight, 16) == Some(n)
    ensures Unescaped("\\u" + four) == Unescaped("\\U" + eight) ==
      if n < 0xD800 || 0xE000 <= n < 0x11_0000 then Ok([n as char]) else Err(Error.Config)
  {
    hide DigitsValue;
    HexEscape('u', four, n);
    HexEscape('U', eight, n);
    assert "\\u" + four == ['\\', 'u'] + four && "\\U" + eight == ['\\', 'U'] + eight;
  }

  lemma HexEscape(c: char, hex: string, n: nat)
    requires (c == 'u' && |hex| == 4) || (c == 'U' && |hex| == 8)
    requires hex[0] != '+' && DigitsValue(hex, 16) == Some(n)
    ensures Unescaped(['\\', c] + hex) == if n < 0xD800 || 0xE000 <= n < 0x11_0000 then Ok([n as char]) else Err(Error.Config)
  {
    hide DigitsValue;
    var s := ['\\', c] + hex;
    assert s[2..] == hex && hex[..|hex|] == hex && s[|s|..] == "";
    assert Unescaped("") == Ok("");
    var one := UnescOne(s);
    if one.Some? {
      assert one.value.1 == |s| && [one.value.0] + "" == [one.value.0];
    }
  }

  /** A configuration as it is written. */
  lemma SampleText(c: VaultConfig)
    requires c == VaultConfig("v", "n", ["p"], None, false, true, None, 1000, false, ["a", "b"], [], Some(30))
    ensures Texts(Entries(c)) ==
      ("vault_id = \"v\"\n" + "name = \"n\"\n" + "peers = [\"p\"]\n")
      + ("no_tofu = false\n" + "no_tls = true\n")
      + ("debounce_ms = 1000\n" + "allow_binary = false\n" + "include = [\n    \"a\",\n    \"b\",\n]\n")
      + "default_key_ttl_days = 30\n"
  {
    hide Texts, EntryText;
    var head, flags, settings, ttl := Heading(c), Flags(c), Settings(c), Ttl(c);
    assert Entries(c) == head + flags + settings + ttl;
    TextsAppend(head + flags + settings, ttl);
    TextsAppend(head + flags, settings);
    TextsAppend(head, flags);
    TextsThree(head[0], head[1], head[2]);
    TextsTwo(flags[0], flags[1]);
    TextsThree(settings[0], settings[1], settings[2]);
    TextsOne(ttl[0]);
    SampleHead();
    SampleRest();
    assert head == [Entry("vault_id", Str("v")), Entry("name", Str("n")), Entry("peers", Arr(["p"]))];
  }

  lemma TextsTwo(a: Entry, b: Entry)
    ensures Texts([a, b]) == EntryText(a) + EntryText(b)
  {
    hide EntryText;
    TextsAppend([a], [b]);
    assert [a] + [b] == [a, b];
    TextsOne(a);
    TextsOne(b);
  }

  lemma TextsThree(a: Entry, b: Entry, c: Entry)
    ensures Texts([a, b, c]) == EntryText(a) + EntryText(b) + EntryText(c)
  {
    hide EntryText;
    TextsAppend([a, b], [c]);
    assert [a, b] + [c] == [a, b, c];
    TextsTwo(a, b);
    TextsOne(c);
  }

  lemma SampleHead()
    ensures EntryText(Entry("vault_id", Str("v"))) == "vault_id = \"v\"\n"
    ensures EntryText(Entry("name", Str("n"))) == "name = \"n\"\n"
    ensures EntryText(Entry("peers", Arr(["p"]))) == "peers = [\"p\"]\n"
    ensures EntryText(Entry("no_tofu", Bool(false))) == "no_tofu = false\n"
    ensures EntryText(Entry("no_tls", Bool(true))) == "no_tls = true\n"
    ensures EntryText(Entry("allow_binary", Bool(false))) == "allow_binary = false\n"
  {
    hide Escaped;
    OneLetter('v');
    OneLetter('n');
    OneLetter('p');
  }

  lemma OneLetter(c: char)
    requires 'a' <= c <= 'z'
    ensures Escaped([c]) == [c]
  {
    assert [c][1..] == "";
  }

  lemma SampleRest()
    ensures EntryText(Entry("debounce_ms", Num(1000))) == "debounce_ms = 1000\n"
    ensures EntryText(Entry("include", Arr(["a", "b"]))) == "include = [\n    \"a\",\n    \"b\",\n]\n"
    ensures EntryText(Entry("default_key_ttl_days", Num(30))) == "default_key_ttl_days = 30\n"
  {
    hide Escaped, Decimal, Items;
    OneLetter('a');
    OneLetter('b');
    TwoItems("a", "b");
    DecimalOneMore(100, 0);
    DecimalOneMore(10, 0);
    DecimalOneMore(1, 0);
    DecimalOneMore(3, 0);
    DecimalDigit(1);
    DecimalDigit(3);
  }

  lemma TwoItems(a: string, b: string)
    ensures Items([a, b]) == Item(a) + Item(b)
  {
    hide Item;
    assert [a, b][1..] == [b] && [b][1..] == [];
    assert Items([b]) == Item(b);
  }

  lemma DecimalDigit(n: nat)
    requires n < 10
    ensures Decimal(n) == ['0' + n as char]
  {
  }

  lemma DecimalOneMore(n: nat, digit: nat)
    requires n > 0 && digit < 10
    ensures Decimal(10 * n + digit) == Decimal(n) + ['0' + digit as char]
  {
  }
}
