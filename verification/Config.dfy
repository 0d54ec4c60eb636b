/** The vault's configuration file (config.rs): a hand-written printer and parser for the small part
    of TOML it needs. */
module Config {
  import opened Prelude
  import opened Text

  const U64_LIMIT := 0x1_0000_0000_0000_0000
  type U64 = n: nat | n < U64_LIMIT

  datatype VaultConfig = VaultConfig(
    vaultId: string,
    name: string,
    peers: seq<string>,
    listen: Option<string>,
    noTofu: bool,
    noTls: bool,
    log: Option<string>,
    debounceMs: U64,
    allowBinary: bool,
    globs: seq<string>,
    authKeys: seq<string>,
    defaultKeyTtlDays: Option<U64>)

  const DEFAULT_DEBOUNCE_MS: U64 := 1000
  const DEFAULT_GLOBS := ["**"]

  // ---- Strings ----

  function EscChar(c: char): string {
    if c == '\\' then "\\\\"
    else if c == '"' then "\\\""
    else if c == '\n' then "\\n"
    else if c == '\t' then "\\t"
    else if c == '\r' then "\\r"
    else if (c as int) < 0x20 then "\\u00" + [HexDigit(c as int / 16), HexDigit(c as int % 16)]
    else [c]
  }

  function Escaped(s: string): string {
    if s == "" then "" else EscChar(s[0]) + Escaped(s[1..])
  }

  method Esc(s: string) returns (o: string)
    ensures o == Escaped(s)
  {
    hide EscChar, Escaped;
    o := "";
    assert s[0..] == s && s[|s|..] == "";
    EscapedNothing();
    for i := 0 to |s|
      invariant o + Escaped(s[i..]) == Escaped(s)
    {
      EscapedStep(s, i);
      o := o + EscChar(s[i]);
    }
  }

  lemma EscapedNothing()
    ensures Escaped("") == ""
  {
  }

  lemma EscapedStep(s: string, i: nat)
    requires i < |s|
    ensures Escaped(s[i..]) == EscChar(s[i]) + Escaped(s[i + 1..])
  {
    hide EscChar;
    assert s[i..][0] == s[i] && s[i..][1..] == s[i + 1..];
  }

  function Scalar(n: nat): Option<char> {
    if n < 0xD800 || 0xE000 <= n < 0x11_0000 then Some(n as char) else None
  }

  function Prefix(s: string, n: nat): string {
    if n <= |s| then s[..n] else s
  }

  /** The character the escape at the start of `s` stands for, and how much of `s` it takes up. */
  function UnescOne(s: string): (r: Option<(char, nat)>)
    requires s != "" && s[0] == '\\'
    ensures r.Some? ==> 0 < r.value.1 <= |s|
  {
    if |s| == 1 then None
    else
      match s[1]
      case 'n' => Some(('\n', 2))
      case 't' => Some(('\t', 2))
      case 'r' => Some(('\r', 2))
      case '"' => Some(('"', 2))
      case '\\' => Some(('\\', 2))
      case 'b' => Some((8 as char, 2))
      case 'f' => Some((12 as char, 2))
      case 'u' => UnescHex(s, Prefix(s[2..], 4))
      case 'U' => UnescHex(s, Prefix(s[2..], 8))
      case _ => None
  }

  function UnescHex(s: string, hex: string): (r: Option<(char, nat)>) {
    match ParseNumber(hex, 16)
    case None => None
    case Some(n) => (match Scalar(n) case None => None case Some(c) => Some((c, 2 + |hex|)))
  }

  function Prepend<T>(front: seq<T>, r: Result<seq<T>>): Result<seq<T>> {
    match r
    case Ok(back) => Ok(front + back)
    case Err(e) => Err(e)
  }

  function Unescaped(s: string): Result<string>
    decreases |s|
  {
    if s == "" then Ok("")
    else if s[0] != '\\' then Prepend([s[0]], Unescaped(s[1..]))
    else
      match UnescOne(s)
      case None => Err(Error.Config)
      case Some((c, n)) => Prepend([c], Unescaped(s[n..]))
  }

  method Unesc(s: string) returns (r: Result<string>)
    ensures r == Unescaped(s)
  {
    var o, i := "", 0;
    assert s[0..] == s;
    PrependNothing(Unescaped(s));
    while i < |s|
      invariant 0 <= i <= |s|
      invariant Prepend(o, Unescaped(s[i..])) == Unescaped(s)
      decreases |s| - i
    {
      var c, n := s[i], 1;
      if c == '\\' {
        match UnescOne(s[i..])
        case None => return Err(Error.Config);
        case Some((d, m)) => c, n := d, m;
      }
      assert s[i..][n..] == s[i + n..];
      PrependTwice(o, [c], Unescaped(s[i + n..]));
      o := o + [c];
      i := i + n;
    }
    assert o + "" == o;
    return Ok(o);
  }

  lemma PrependNothing<T>(r: Result<seq<T>>)
    ensures Prepend([], r) == r
  {
    if r.Ok? {
      assert [] + r.value == r.value;
    }
  }

  lemma PrependTwice<T>(a: seq<T>, b: seq<T>, r: Result<seq<T>>)
    ensures Prepend(a, Prepend(b, r)) == Prepend(a + b, r)
  {
    if r.Ok? {
      assert a + (b + r.value) == (a + b) + r.value;
    }
  }

  // ---- Scanning lines ----

  /** The text up to a comment; a quote after a backslash does not open or close a string. */
  function Uncommented(rest: string, prev: char, inStr: bool): string {
    if rest == "" then ""
    else if rest[0] == '"' && prev != '\\' then [rest[0]] + Uncommented(rest[1..], rest[0], !inStr)
    else if rest[0] == '#' && !inStr then ""
    else [rest[0]] + Uncommented(rest[1..], rest[0], inStr)
  }

  /** What a scan at position `i` keeps, after what it kept so far. */
  ghost function KeptFrom(line: string, i: nat, inStr: bool): string
    requires i <= |line|
  {
    line[..i] + Uncommented(line[i..], if i == 0 then ' ' else line[i - 1], inStr)
  }

  lemma KeptStep(line: string, i: nat, inStr: bool)
    requires i < |line|
    ensures KeptFrom(line, i, inStr) ==
      if line[i] == '"' && (i == 0 || line[i - 1] != '\\') then KeptFrom(line, i + 1, !inStr)
      else if line[i] == '#' && !inStr then line[..i]
      else KeptFrom(line, i + 1, inStr)
  {
    assert line[i..][0] == line[i] && line[i..][1..] == line[i + 1..];
    assert line[..i + 1] == line[..i] + [line[i]];
  }

  method StripComment(line: string) returns (kept: string)
    ensures kept == Uncommented(line, ' ', false)
  {
    hide Uncommented, KeptFrom;
    var inStr := false;
    var i := 0;
    KeptAll(line, inStr);
    while i < |line|
      invariant 0 <= i <= |line|
      invariant KeptFrom(line, i, inStr) == Uncommented(line, ' ', false)
    {
      KeptStep(line, i, inStr);
      if line[i] == '"' && (i == 0 || line[i - 1] != '\\') {
        inStr := !inStr;
      } else if line[i] == '#' && !inStr {
        return line[..i];
      }
      i := i + 1;
    }
    KeptAll(line, inStr);
    return line;
  }

  lemma KeptAll(line: string, inStr: bool)
    ensures KeptFrom(line, 0, inStr) == Uncommented(line, ' ', inStr)
    ensures KeptFrom(line, |line|, inStr) == line
  {
    assert line[0..] == line && "" + Uncommented(line, ' ', inStr) == Uncommented(line, ' ', inStr);
    assert line[..|line|] == line && line[|line|..] == "" && line + "" == line;
  }

  /** Where the string that `s` starts inside of is closed. */
  function CloseQuote(s: string): (k: Option<nat>)
    ensures k.Some? ==> k.value < |s| && s[k.value] == '"'
  {
    if s == "" then None
    else if s[0] == '"' then Some(0)
    else
      var step := if s[0] == '\\' then 2 else 1;
      if |s| < step then None else Further(CloseQuote(s[step..]), step)
  }

  function Further(k: Option<nat>, step: nat): Option<nat> {
    match k case None => None case Some(k) => Some(k + step)
  }

  method FindCloseQuote(s: string, start: nat) returns (k: Option<nat>)
    requires start <= |s|
    ensures k == CloseQuote(s[start..])
  {
    hide CloseQuote;
    var i := start;
    while i < |s|
      invariant start <= i <= |s|
      invariant CloseQuote(s[start..]) == Further(CloseQuote(s[i..]), i - start)
      decreases |s| - i
    {
      CloseStep(s, i);
      if s[i] == '"' {
        return Some(i - start);
      }
      if s[i] == '\\' {
        if i + 2 > |s| {
          return None;
        }
        i := i + 2;
      } else {
        i := i + 1;
      }
    }
    CloseNothing();
    return None;
  }

  lemma CloseNothing()
    ensures CloseQuote("") == None
  {
  }

  lemma CloseStep(s: string, i: nat)
    requires i < |s|
    ensures CloseQuote(s[i..]) ==
      if s[i] == '"' then Some(0)
      else if s[i] == '\\' then if i + 2 > |s| then None else Further(CloseQuote(s[i + 2..]), 2)
      else Further(CloseQuote(s[i + 1..]), 1)
  {
    assert s[i..][0] == s[i] && s[i..][1..] == s[i + 1..];
    if i + 2 <= |s| {
      assert s[i..][2..] == s[i + 2..];
    }
  }

  /** Every bracket opened outside strings is closed, from a given depth on. */
  function Balances(s: string, depth: int, started: bool): bool
    decreases |s|
  {
    if s == "" then started && depth <= 0
    else if s[0] == '"' then
      match CloseQuote(s[1..])
      case None => false
      case Some(k) => Balances(s[k + 2..], depth, started)
    else if s[0] == '[' then Balances(s[1..], depth + 1, true)
    else if s[0] == ']' then Balances(s[1..], depth - 1, started)
    else Balances(s[1..], depth, started)
  }

  lemma BalancesStep(s: string, i: nat, depth: int, started: bool)
    requires i < |s|
    ensures Balances(s[i..], depth, started) ==
      if s[i] == '"' then
        (match CloseQuote(s[i + 1..]) case None => false case Some(k) => Balances(s[i + k + 2..], depth, started))
      else if s[i] == '[' then Balances(s[i + 1..], depth + 1, true)
      else if s[i] == ']' then Balances(s[i + 1..], depth - 1, started)
      else Balances(s[i + 1..], depth, started)
  {
    hide CloseQuote;
    assert s[i..][0] == s[i] && s[i..][1..] == s[i + 1..];
    var close := CloseQuote(s[i + 1..]);
    if close.Some? {
      assert s[i..][close.value + 2..] == s[i + close.value + 2..];
    }
  }

  lemma BalancesEnd(depth: int, started: bool)
    ensures Balances("", depth, started) <==> started && depth <= 0
  {
  }

  method ArrComplete(s: string) returns (complete: bool)
    ensures complete == Balances(s, 0, false)
  {
    hide CloseQuote, Balances;
    var depth, started, i := 0, false, 0;
    assert s[0..] == s;
    while i < |s|
      invariant 0 <= i <= |s|
      invariant Balances(s[i..], depth, started) == Balances(s, 0, false)
      decreases |s| - i
    {
      BalancesStep(s, i, depth, started);
      if s[i] == '"' {
        var close := FindCloseQuote(s, i + 1);
        if close.None? {
          return false;
        }
        i := i + close.value + 2;
        continue;
      }
      if s[i] == '[' {
        depth, started := depth + 1, true;
      } else if s[i] == ']' {
        depth := depth - 1;
      }
      i := i + 1;
    }
    assert s[i..] == "";
    BalancesEnd(depth, started);
    return started && depth <= 0;
  }

  // ---- Values ----

  function StrValue(rhs: string): Result<string> {
    var r := Trim(rhs);
    if |r| >= 2 && r[0] == '"' && r[|r| - 1] == '"' then Unescaped(r[1..|r| - 1]) else Err(Error.Config)
  }

  method ParseStr(rhs: string) returns (r: Result<string>)
    ensures r == StrValue(rhs)
  {
    var t := Trim(rhs);
    if |t| >= 2 && t[0] == '"' && t[|t| - 1] == '"' {
      r := Unesc(t[1..|t| - 1]);
    } else {
      r := Err(Error.Config);
    }
  }

  /** The strings in an array's inside; anything between them is skipped. */
  function Strings(inner: string): Result<seq<string>>
    decreases |inner|
  {
    if inner == "" then Ok([])
    else if inner[0] != '"' then Strings(inner[1..])
    else
      match CloseQuote(inner[1..])
      case None => Err(Error.Config)
      case Some(k) =>
        (match Unescaped(inner[1..][..k])
         case Err(e) => Err(e)
         case Ok(s) => Prepend([s], Strings(inner[k + 2..])))
  }

  function ArrValue(rhs: string): Result<seq<string>> {
    var r := Trim(rhs);
    if |r| >= 2 && r[0] == '[' && r[|r| - 1] == ']' then Strings(r[1..|r| - 1]) else Err(Error.Config)
  }

  lemma StringsStep(inner: string, i: nat)
    requires i < |inner|
    ensures Strings(inner[i..]) ==
      if inner[i] != '"' then Strings(inner[i + 1..])
      else
        match CloseQuote(inner[i + 1..])
        case None => Err(Error.Config)
        case Some(k) => var s :- Unescaped(inner[i + 1..i + 1 + k]); Prepend([s], Strings(inner[i + k + 2..]))
  {
    hide CloseQuote, Unescaped, Prepend;
    assert inner[i..][0] == inner[i] && inner[i..][1..] == inner[i + 1..];
    var close := CloseQuote(inner[i + 1..]);
    if close.Some? {
      var k := close.value;
      assert inner[i..][k + 2..] == inner[i + k + 2..];
      assert inner[i + 1..][..k] == inner[i + 1..i + 1 + k];
    }
  }

  lemma NoStrings()
    ensures Strings("") == Ok([])
  {
  }

  method ParseArr(rhs: string) returns (r: Result<seq<string>>)
    ensures r == ArrValue(rhs)
  {
    hide CloseQuote, Strings, Unescaped, Trim;
    var t := Trim(rhs);
    if |t| < 2 || t[0] != '[' || t[|t| - 1] != ']' {
      return Err(Error.Config);
    }
    var inner := t[1..|t| - 1];
    var out: seq<string>, i := [], 0;
    assert inner[0..] == inner;
    PrependNothing(Strings(inner));
    while i < |inner|
      invariant 0 <= i <= |inner|
      invariant Prepend(out, Strings(inner[i..])) == Strings(inner)
      decreases |inner| - i
    {
      StringsStep(inner, i);
      if inner[i] != '"' {
        i := i + 1;
        continue;
      }
      var close := FindCloseQuote(inner, i + 1);
      if close.None? {
        return Err(Error.Config);
      }
      var k := close.value;
      var s :- Unesc(inner[i + 1..i + 1 + k]);
      PrependTwice(out, [s], Strings(inner[i + k + 2..]));
      out := out + [s];
      i := i + k + 2;
    }
    assert inner[i..] == "";
    NoStrings();
    assert out + [] == out;
    return Ok(out);
  }

  function BoolText(b: bool): string {
    if b then "true" else "false"
  }

  function U64Value(rhs: string): Result<U64> {
    match ParseNumber(rhs, 10)
    case Some(n) => if n < U64_LIMIT then Ok(n) else Err(Error.Config)
    case None => Err(Error.Config)
  }

  // ---- Printing ----

  datatype Value = Str(v: string) | Arr(vs: seq<string>) | Bool(b: bool) | Num(n: U64)
  datatype Entry = Entry(key: string, value: Value)

  function Quoted(v: string): string {
    "\"" + Escaped(v) + "\""
  }

  function Item(v: string): string {
    "    " + Quoted(v) + ",\n"
  }

  function Items(vs: seq<string>): string {
    if vs == [] then "" else Item(vs[0]) + Items(vs[1..])
  }

  function ValueText(value: Value): string {
    match value
    case Str(v) => Quoted(v)
    case Bool(b) => BoolText(b)
    case Num(n) => Decimal(n)
    case Arr(vs) =>
      if |vs| == 0 then "[]" else if |vs| == 1 then "[" + Quoted(vs[0]) + "]" else "[\n" + Items(vs) + "]"
  }

  function EntryText(e: Entry): string {
    e.key + " = " + ValueText(e.value) + "\n"
  }

  function Texts(es: seq<Entry>): string {
    if es == [] then "" else EntryText(es[0]) + Texts(es[1..])
  }

  function Heading(c: VaultConfig): seq<Entry> {
    [Entry("vault_id", Str(c.vaultId)), Entry("name", Str(c.name)), Entry("peers", Arr(c.peers))]
  }

  function Listening(c: VaultConfig): seq<Entry> {
    match c.listen case None => [] case Some(l) => [Entry("listen", Str(l))]
  }

  function Flags(c: VaultConfig): seq<Entry> {
    [Entry("no_tofu", Bool(c.noTofu)), Entry("no_tls", Bool(c.noTls))]
  }

  function Logging(c: VaultConfig): seq<Entry> {
    match c.log case None => [] case Some(l) => [Entry("log", Str(l))]
  }

  function Settings(c: VaultConfig): seq<Entry> {
    [Entry("debounce_ms", Num(c.debounceMs)), Entry("allow_binary", Bool(c.allowBinary)), Entry("include", Arr(c.globs))]
  }

  function Keys(c: VaultConfig): seq<Entry> {
    if c.authKeys == [] then [] else [Entry("auth_keys", Arr(c.authKeys))]
  }

  function Ttl(c: VaultConfig): seq<Entry> {
    match c.defaultKeyTtlDays case None => [] case Some(d) => [Entry("default_key_ttl_days", Num(d))]
  }

  /** What gets written, in order; an absent option and an empty key list are left out. */
  function Entries(c: VaultConfig): seq<Entry> {
    Heading(c) + Listening(c) + Flags(c) + Logging(c) + Settings(c) + Keys(c) + Ttl(c)
  }

  method FmtStr(key: string, v: string) returns (s: string)
    ensures s == EntryText(Entry(key, Str(v)))
  {
    var e := Esc(v);
    s := key + " = \"" + e + "\"\n";
  }

  method FmtArr(key: string, vs: seq<string>) returns (s: string)
    ensures s == EntryText(Entry(key, Arr(vs)))
  {
    if |vs| == 0 {
      return key + " = []\n";
    }
    if |vs| == 1 {
      var e := Esc(vs[0]);
      return key + " = [\"" + e + "\"]\n";
    }
    var items := FmtItems(vs);
    s := key + " = [\n" + items + "]\n";
    JoinTexts(key + " = ", "[\n", items, "]", "\n");
  }

  lemma JoinTexts(a: string, b: string, c: string, d: string, e: string)
    ensures a + (b + c + d) + e == a + b + c + (d + e)
  {
  }

  method FmtItems(vs: seq<string>) returns (items: string)
    ensures items == Items(vs)
  {
    items := "";
    for i := 0 to |vs|
      invariant items + Items(vs[i..]) == Items(vs)
    {
      assert vs[i..][1..] == vs[i + 1..];
      var e := Esc(vs[i]);
      items := items + ("    " + ("\"" + e + "\"") + ",\n");
    }
  }

  lemma {:induction false} TextsAppend(a: seq<Entry>, b: seq<Entry>)
    ensures Texts(a + b) == Texts(a) + Texts(b)
  {
    if a == [] {
      assert a + b == b;
    } else {
      assert (a + b)[1..] == a[1..] + b;
      TextsAppend(a[1..], b);
    }
  }

  lemma TextsOne(e: Entry)
    ensures Texts([e]) == EntryText(e)
  {
    assert [e][1..] == [];
  }

  method Push(s: string, ghost es: seq<Entry>, ghost e: Entry, text: string) returns (s': string)
    requires s == Texts(es) && text == EntryText(e)
    ensures s' == Texts(es + [e])
  {
    TextsAppend(es, [e]);
    TextsOne(e);
    s' := s + text;
  }

  method ToTomlString(c: VaultConfig) returns (s: string)
    ensures s == Texts(Entries(c))
  {
    hide Texts, EntryText;
    s := PushHeading(c);
    ghost var es := Heading(c);
    if c.listen.Some? {
      var t := FmtStr("listen", c.listen.value);
      s := Push(s, es, Entry("listen", Str(c.listen.value)), t);
    }
    assert es + [] == es;
    es := es + Listening(c);
    s := PushFlags(c, s, es);
    es := es + Flags(c);
    if c.log.Some? {
      var t := FmtStr("log", c.log.value);
      s := Push(s, es, Entry("log", Str(c.log.value)), t);
    }
    assert es + [] == es;
    es := es + Logging(c);
    s := PushSettings(c, s, es);
    es := es + Settings(c);
    if c.authKeys != [] {
      var t := FmtArr("auth_keys", c.authKeys);
      s := Push(s, es, Entry("auth_keys", Arr(c.authKeys)), t);
    }
    assert es + [] == es;
    es := es + Keys(c);
    if c.defaultKeyTtlDays.Some? {
      NumText("default_key_ttl_days", c.defaultKeyTtlDays.value);
      s := Push(s, es, Entry("default_key_ttl_days", Num(c.defaultKeyTtlDays.value)),
        "default_key_ttl_days = " + Decimal(c.defaultKeyTtlDays.value) + "\n");
    }
    assert es + [] == es;
  }

  lemma NumText(key: string, n: U64)
    ensures EntryText(Entry(key, Num(n))) == key + " = " + Decimal(n) + "\n"
  {
  }

  method PushHeading(c: VaultConfig) returns (s: string)
    ensures s == Texts(Heading(c))
  {
    hide EntryText;
    s := "";
    var t := FmtStr("vault_id", c.vaultId);
    s := Push(s, [], Entry("vault_id", Str(c.vaultId)), t);
    t := FmtStr("name", c.name);
    s := Push(s, [Entry("vault_id", Str(c.vaultId))], Entry("name", Str(c.name)), t);
    t := FmtArr("peers", c.peers);
    s := Push(s, [Entry("vault_id", Str(c.vaultId)), Entry("name", Str(c.name))], Entry("peers", Arr(c.peers)), t);
  }

  method PushFlags(c: VaultConfig, s: string, ghost es: seq<Entry>) returns (s': string)
    requires s == Texts(es)
    ensures s' == Texts(es + Flags(c))
  {
    hide Texts;
    s' := Push(s, es, Entry("no_tofu", Bool(c.noTofu)), "no_tofu = " + BoolText(c.noTofu) + "\n");
    s' := Push(s', es + [Entry("no_tofu", Bool(c.noTofu))], Entry("no_tls", Bool(c.noTls)), "no_tls = " + BoolText(c.noTls) + "\n");
    assert es + Flags(c) == es + [Entry("no_tofu", Bool(c.noTofu))] + [Entry("no_tls", Bool(c.noTls))];
  }

  method PushSettings(c: VaultConfig, s: string, ghost es: seq<Entry>) returns (s': string)
    requires s == Texts(es)
    ensures s' == Texts(es + Settings(c))
  {
    hide Texts;
    s' := Push(s, es, Entry("debounce_ms", Num(c.debounceMs)), "debounce_ms = " + Decimal(c.debounceMs) + "\n");
    ghost var now := es + [Entry("debounce_ms", Num(c.debounceMs))];
    s' := Push(s', now, Entry("allow_binary", Bool(c.allowBinary)), "allow_binary = " + BoolText(c.allowBinary) + "\n");
    now := now + [Entry("allow_binary", Bool(c.allowBinary))];
    var t := FmtArr("include", c.globs);
    s' := Push(s', now, Entry("include", Arr(c.globs)), t);
    assert es + Settings(c) == now + [Entry("include", Arr(c.globs))];
  }

  // ---- Parsing ----

  /** The fields as far as they were read. */
  datatype Draft = Draft(
    vaultId: Option<string>,
    name: string,
    peers: seq<string>,
    listen: Option<string>,
    noTofu: bool,
    noTls: bool,
    log: Option<string>,
    debounceMs: U64,
    allowBinary: bool,
    globs: Option<seq<string>>,
    authKeys: seq<string>,
    defaultKeyTtlDays: Option<U64>)

  const BLANK := Draft(None, "", [], None, false, false, None, DEFAULT_DEBOUNCE_MS, false, None, [], None)

  function Finish(d: Draft): Result<VaultConfig> {
    match d.vaultId
    case None => Err(Error.Config)
    case Some(id) =>
      Ok(VaultConfig(id, d.name, d.peers, d.listen, d.noTofu, d.noTls, d.log, d.debounceMs, d.allowBinary,
                     (match d.globs case None => DEFAULT_GLOBS case Some(g) => g), d.authKeys, d.defaultKeyTtlDays))
  }

  /** One `key = rhs`; keys it does not know are ignored. */
  function Assign(d: Draft, key: string, rhs: string): Result<Draft> {
    if key == "vault_id" then var v :- StrValue(rhs); Ok(d.(vaultId := Some(v)))
    else if key == "name" then var v :- StrValue(rhs); Ok(d.(name := v))
    else if key == "peers" then var v :- ArrValue(rhs); Ok(d.(peers := v))
    else if key == "listen" then var v :- StrValue(rhs); Ok(d.(listen := Some(v)))
    else if key == "no_tofu" then Ok(d.(noTofu := rhs == "true"))
    else if key == "no_tls" then Ok(d.(noTls := rhs == "true"))
    else if key == "log" then var v :- StrValue(rhs); Ok(d.(log := Some(v)))
    else if key == "debounce_ms" then var v :- U64Value(rhs); Ok(d.(debounceMs := v))
    else if key == "allow_binary" then Ok(d.(allowBinary := rhs == "true"))
    else if key == "include" then var v :- ArrValue(rhs); Ok(d.(globs := Some(v)))
    else if key == "auth_keys" then var v :- ArrValue(rhs); Ok(d.(authKeys := v))
    else if key == "default_key_ttl_days" then var v :- U64Value(rhs); Ok(d.(defaultKeyTtlDays := Some(v)))
    else Ok(d)
  }

  function UnCrLf(s: string): string
    decreases |s|
  {
    if s == "" then ""
    else if |s| >= 2 && s[0] == '\r' && s[1] == '\n' then "\n" + UnCrLf(s[2..])
    else [s[0]] + UnCrLf(s[1..])
  }

  function Cleaned(line: string): string {
    Trim(Uncommented(line, ' ', false))
  }

  /** Add lines to an unfinished array until it is balanced. */
  function Gathered(rhs: string, lines: seq<string>): (r: Option<(string, seq<string>)>)
    ensures r.Some? ==> |r.value.1| <= |lines|
    decreases |lines|
  {
    if Balances(rhs, 0, false) then Some((rhs, lines))
    else if lines == [] then None
    else Gathered(rhs + " " + Cleaned(lines[0]), lines[1..])
  }

  function RhsFrom(rhs: string, lines: seq<string>): (r: Option<(string, seq<string>)>)
    ensures r.Some? ==> |r.value.1| <= |lines|
  {
    if rhs != "" && rhs[0] == '[' then Gathered(rhs, lines) else Some((rhs, lines))
  }

  function Parsed(lines: seq<string>, d: Draft): Result<Draft>
    decreases |lines|
  {
    if lines == [] then Ok(d)
    else
      var line := Cleaned(lines[0]);
      if line == "" || (line[0] == '[' && line[|line| - 1] == ']') then Parsed(lines[1..], d)
      else if '=' !in line then Err(Error.Config)
      else
        var eq := Index(line, '=');
        match RhsFrom(Trim(line[eq + 1..]), lines[1..])
        case None => Err(Error.Config)
        case Some((rhs, rest)) => var d' :- Assign(d, Trim(line[..eq]), rhs); Parsed(rest, d')
  }

  method ParseValue(d: Draft, key: string, rhs: string) returns (r: Result<Draft>)
    ensures r == Assign(d, key, rhs)
  {
    hide StrValue, ArrValue, U64Value;
    match key
    case "vault_id" => var v :- ParseStr(rhs); return Ok(d.(vaultId := Some(v)));
    case "name" => var v :- ParseStr(rhs); return Ok(d.(name := v));
    case "peers" => var v :- ParseArr(rhs); return Ok(d.(peers := v));
    case "listen" => var v :- ParseStr(rhs); return Ok(d.(listen := Some(v)));
    case "no_tofu" => return Ok(d.(noTofu := rhs == "true"));
    case "no_tls" => return Ok(d.(noTls := rhs == "true"));
    case "log" => var v :- ParseStr(rhs); return Ok(d.(log := Some(v)));
    case "debounce_ms" => var v :- U64Value(rhs); return Ok(d.(debounceMs := v));
    case "allow_binary" => return Ok(d.(allowBinary := rhs == "true"));
    case "include" => var v :- ParseArr(rhs); return Ok(d.(globs := Some(v)));
    case "auth_keys" => var v :- ParseArr(rhs); return Ok(d.(authKeys := v));
    case "default_key_ttl_days" => var v :- U64Value(rhs); return Ok(d.(defaultKeyTtlDays := Some(v)));
    case _ => return Ok(d);
  }

  method Gather(rhs: string, lines: seq<string>, from: nat) returns (full: Option<string>, next: nat)
    requires from <= |lines|
    ensures from <= next <= |lines|
    ensures Gathered(rhs, lines[from..]) == if full.None? then None else Some((full.value, lines[next..]))
  {
    var text := rhs;
    next := from;
    var complete := ArrComplete(text);
    while !complete
      invariant from <= next <= |lines|
      invariant complete == Balances(text, 0, false)
      invariant Gathered(rhs, lines[from..]) == Gathered(text, lines[next..])
      decreases |lines| - next
    {
      if next == |lines| {
        return None, next;
      }
      assert lines[next..][1..] == lines[next + 1..];
      var kept := StripComment(lines[next]);
      text := text + " " + Trim(kept);
      next := next + 1;
      complete := ArrComplete(text);
    }
    return Some(text), next;
  }

  method FromTomlStr(s: string) returns (r: Result<VaultConfig>)
    ensures r == match Parsed(Lines(UnCrLf(s)), BLANK) case Err(e) => Err(e) case Ok(d) => Finish(d)
  {
    hide Assign, Gathered, Finish, Uncommented, Trim, Lines, UnCrLf;
    var lines := Lines(UnCrLf(s));
    var d, i := BLANK, 0;
    assert lines[0..] == lines;
    while i < |lines|
      invariant 0 <= i <= |lines|
      invariant Parsed(lines[i..], d) == Parsed(lines, BLANK)
    {
      assert lines[i..][1..] == lines[i + 1..];
      var kept := StripComment(lines[i]);
      var line := Trim(kept);
      assert line == Cleaned(lines[i..][0]);
      i := i + 1;
      if line == "" || (line[0] == '[' && line[|line| - 1] == ']') {
        continue;
      }
      if '=' !in line {
        return Err(Error.Config);
      }
      var eq := Index(line, '=');
      var rhs := Trim(line[eq + 1..]);
      if rhs != "" && rhs[0] == '[' {
        var full, next := Gather(rhs, lines, i);
        if full.None? {
          return Err(Error.Config);
        }
        rhs, i := full.value, next;
      }
      var parsed := ParseValue(d, Trim(line[..eq]), rhs);
      d :- parsed;
    }
    return Finish(d);
  }
}
