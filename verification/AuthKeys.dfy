/** Lines of the authorized-keys file (authkeys.rs): a key, a comment, and when it expires. */
module AuthKeys {
  import opened Prelude
  import opened Objects
  import opened Text
  import opened Dates

  datatype Expiry = At(time: nat) | Never | Unset {
    predicate IsValid(now: nat) {
      At? ==> now < time
    }
  }

  datatype KeyEntry = KeyEntry(raw: string, node: Option<NodeId>, expiry: Expiry)

  const ALGORITHM := "ssh-ed25519"
  const TOK_EXPIRES := "expires="
  const TOK_TTL := "ttl="
  const TOK_ADDED := "added="
  const NEVER := "never"

  /** Base64 (section 4 of RFC 4648) pads with `=` in the last two places only, and a key takes
      more than 40 characters of it. */
  ghost predicate ReadsKeys(decode: string -> Option<NodeId>) {
    forall b :: decode(b).Some? ==> |b| > 40 && forall i :: 0 <= i < |b| - 2 ==> b[i] != '='
  }

  type KeyDecoder = decode: string -> Option<NodeId> | ReadsKeys(decode) witness (b => None)

  /** The key in a base64 blob, if there is one. */
  const DecodeKey: KeyDecoder

  // ---- Words ----

  function WordEnd(s: string): (n: nat)
    ensures n <= |s| && forall i :: 0 <= i < n ==> !IsSpace(s[i])
    ensures n < |s| ==> IsSpace(s[n])
  {
    if s == "" || IsSpace(s[0]) then 0 else 1 + WordEnd(s[1..])
  }

  /** The text split at white space. */
  function Words(s: string): seq<string>
    decreases |s|
  {
    if s == "" then []
    else if IsSpace(s[0]) then Words(s[1..])
    else [s[..WordEnd(s)]] + Words(s[WordEnd(s)..])
  }

  function Joined(words: seq<string>): string {
    if words == [] then "" else if |words| == 1 then words[0] else words[0] + " " + Joined(words[1..])
  }

  predicate IsWord(w: string) {
    w != "" && forall c | c in w :: !IsSpace(c)
  }

  predicate IsExpiryToken(w: string) {
    StartsWith(w, TOK_EXPIRES) || StartsWith(w, TOK_TTL) || StartsWith(w, TOK_ADDED)
  }

  function Kept(words: seq<string>): seq<string> {
    if words == [] then [] else (if IsExpiryToken(words[0]) then [] else [words[0]]) + Kept(words[1..])
  }

  // ---- Reading a line ----

  function ParseKey(words: seq<string>): Option<NodeId> {
    if |words| < 2 || words[0] != ALGORITHM then None else DecodeKey(words[1])
  }

  function Lower(s: string): string {
    if s == "" then "" else Lower(s[..|s| - 1]) + [if 'A' <= s[|s| - 1] <= 'Z' then s[|s| - 1] + 32 as char else s[|s| - 1]]
  }

  function Unit(s: string, c: char, days: nat): Option<Option<nat>> {
    if s != "" && s[|s| - 1] == c then
      Some(match ParseNumber(s[..|s| - 1], 10) case Some(n) => Some(n * days) case None => None)
    else None
  }

  /** `90d`, `12w`, `1y`, or a bare number of days. */
  function ParseDuration(text: string): Option<nat> {
    var s := Lower(Trim(text));
    if s == NEVER || s == "0" then None
    else if Unit(s, 'd', 1).Some? then Unit(s, 'd', 1).value
    else if Unit(s, 'w', 7).Some? then Unit(s, 'w', 7).value
    else if Unit(s, 'y', 365).Some? then Unit(s, 'y', 365).value
    else ParseNumber(s, 10)
  }

  datatype Tokens = Tokens(expires: Option<Expiry>, ttl: Option<nat>, added: Option<nat>)

  /** What one more token of the comment adds; the last well-formed one of each kind stands. */
  function Token(t: Tokens, w: string): Tokens {
    if StartsWith(w, TOK_EXPIRES) then
      var v := w[|TOK_EXPIRES|..];
      if v == NEVER then t.(expires := Some(Never))
      else match ParseDate(v) case Some(time) => t.(expires := Some(At(time))) case None => t
    else if StartsWith(w, TOK_TTL) then
      match ParseDuration(w[|TOK_TTL|..]) case Some(days) => t.(ttl := Some(days)) case None => t
    else if StartsWith(w, TOK_ADDED) then
      match ParseDate(w[|TOK_ADDED|..]) case Some(time) => t.(added := Some(time)) case None => t
    else t
  }

  function Scanned(words: seq<string>): Tokens {
    if words == [] then Tokens(None, None, None) else Token(Scanned(words[..|words| - 1]), words[|words| - 1])
  }

  function ExpiryIn(t: Tokens): Expiry {
    match t
    case Tokens(Some(e), _, _) => e
    case Tokens(None, Some(days), Some(start)) => At(start + days * SECS_PER_DAY)
    case _ => Unset
  }

  /** What follows the algorithm and the key. */
  function Comment(words: seq<string>): seq<string> {
    if |words| < 2 then [] else words[2..]
  }

  method ParseExpiryTokens(words: seq<string>) returns (e: Expiry)
    ensures e == ExpiryIn(Scanned(Comment(words)))
  {
    hide Token;
    var t := Tokens(None, None, None);
    var comment := Comment(words);
    for i := 0 to |comment|
      invariant t == Scanned(comment[..i])
    {
      assert comment[..i + 1][..i] == comment[..i];
      t := Token(t, comment[i]);
    }
    assert comment[..|comment|] == comment;
    return ExpiryIn(t);
  }

  function TrimLast(s: string, c: char): string {
    if s != "" && s[|s| - 1] == c then TrimLast(s[..|s| - 1], c) else s
  }

  /** What a line says; lines that are no keys are kept as they are. */
  function LineEntry(line: string): KeyEntry {
    var raw := TrimLast(TrimLast(line, '\n'), '\r');
    var text := Trim(raw);
    var words := Words(text);
    if text == "" || text[0] == '#' || ParseKey(words).None? then KeyEntry(raw, None, Unset)
    else KeyEntry(raw, ParseKey(words), ExpiryIn(Scanned(words[2..])))
  }

  method ParseLine(line: string) returns (e: KeyEntry)
    ensures e == LineEntry(line)
  {
    var raw := TrimLast(TrimLast(line, '\n'), '\r');
    var text := Trim(raw);
    if text == "" || text[0] == '#' {
      return KeyEntry(raw, None, Unset);
    }
    var node := ParseKey(Words(text));
    var expiry := Unset;
    if node.Some? {
      expiry := ParseExpiryTokens(Words(text));
    }
    return KeyEntry(raw, node, expiry);
  }

  // ---- Writing a line ----

  function BuildLine(sshLine: string, expiry: Expiry): string {
    var head := Joined(Kept(Words(Trim(sshLine))));
    match expiry
    case At(t) => head + " " + TOK_EXPIRES + FormatDate(t)
    case Never => head + " " + TOK_EXPIRES + NEVER
    case Unset => head
  }

  function TokenOf(expiry: Expiry): seq<string> {
    match expiry
    case At(t) => [TOK_EXPIRES + FormatDate(t)]
    case Never => [TOK_EXPIRES + NEVER]
    case Unset => []
  }

  // ---- What was written is read ----

  lemma {:induction false} WordsAreWords(s: string)
    ensures forall w :: w in Words(s) ==> IsWord(w)
    decreases |s|
  {
    if s != "" {
      if IsSpace(s[0]) {
        WordsAreWords(s[1..]);
      } else {
        WordsAreWords(s[WordEnd(s)..]);
      }
    }
  }

  lemma {:induction false} WordEndIs(w: string, rest: string)
    requires (forall c | c in w :: !IsSpace(c)) && (rest == "" || IsSpace(rest[0]))
    ensures WordEnd(w + rest) == |w|
  {
    if w == "" {
      assert w + rest == rest;
    } else {
      assert w[0] in w;
      assert (w + rest)[1..] == w[1..] + rest;
      WordEndIs(w[1..], rest);
    }
  }

  /** Words joined by single spaces split into the same words. */
  lemma {:induction false} JoinedSplits(words: seq<string>)
    requires forall w :: w in words ==> IsWord(w)
    ensures Words(Joined(words)) == words
    decreases |words|
  {
    if words != [] {
      var w := words[0];
      assert w in words && w[0] in w;
      if |words| == 1 {
        WordEndIs(w, "");
        assert w + "" == w && w[..|w|] == w && w[|w|..] == "";
      } else {
        var rest := " " + Joined(words[1..]);
        var s := Joined(words);
        assert s == w + rest && s[0] == w[0];
        assert IsSpace(rest[0]) && rest[1..] == Joined(words[1..]);
        WordEndIs(w, rest);
        assert s[..|w|] == w && s[|w|..] == rest;
        JoinedSplits(words[1..]);
      }
    }
  }

  lemma {:induction false} JoinedIsTight(words: seq<string>)
    requires words != [] && forall w :: w in words ==> IsWord(w)
    ensures Tight(Joined(words)) && Joined(words)[0] == words[0][0]
    decreases |words|
  {
    var w := words[0];
    assert w in words && w[0] in w && w[|w| - 1] in w;
    if |words| > 1 {
      JoinedIsTight(words[1..]);
    }
  }

  lemma {:induction false} JoinedOneMore(words: seq<string>, w: string)
    requires words != []
    ensures Joined(words + [w]) == Joined(words) + " " + w
    decreases |words|
  {
    if |words| == 1 {
      assert words + [w] == [words[0], w] && [words[0], w][1..] == [w];
    } else {
      assert (words + [w])[1..] == words[1..] + [w];
      JoinedOneMore(words[1..], w);
    }
  }

  lemma {:induction false} KeptHas(words: seq<string>)
    ensures forall w :: w in Kept(words) ==> w in words && !IsExpiryToken(w)
  {
    if words != [] {
      KeptHas(words[1..]);
    }
  }

  /** A key blob never looks like an expiry token, so the key stays in front. */
  lemma KeyStays(words: seq<string>)
    requires ParseKey(words).Some?
    ensures |Kept(words)| >= 2 && Kept(words)[..2] == words[..2]
  {
    var blob := words[1];
    assert !IsExpiryToken(words[0]) by {
      assert words[0][0] == 's' && TOK_EXPIRES[0] == 'e' && TOK_TTL[0] == 't' && TOK_ADDED[0] == 'a';
      SameAt(words[0], TOK_EXPIRES, 0);
      SameAt(words[0], TOK_TTL, 0);
      SameAt(words[0], TOK_ADDED, 0);
    }
    assert !IsExpiryToken(blob) by {
      assert blob[3] != '=' && blob[5] != '=' && blob[7] != '=';
      SameAt(blob, TOK_EXPIRES, 7);
      SameAt(blob, TOK_TTL, 3);
      SameAt(blob, TOK_ADDED, 5);
    }
    assert words[1..][0] == blob;
    assert Kept(words) == [words[0]] + Kept(words[1..]);
    assert Kept(words[1..]) == [blob] + Kept(words[1..][1..]);
  }

  lemma {:induction false} NoTokens(words: seq<string>)
    requires forall w :: w in words ==> !IsExpiryToken(w)
    ensures Scanned(words) == Tokens(None, None, None)
  {
    if words != [] {
      NoTokens(words[..|words| - 1]);
      assert words[|words| - 1] in words;
      assert !IsExpiryToken(words[|words| - 1]);
    }
  }

  lemma {:induction false} TrimsNoneLast(s: string, c: char)
    requires s == "" || s[|s| - 1] != c
    ensures TrimLast(s, c) == s
  {
  }

  /** A line for a key reads back as that key, with whatever its one expiry token says. */
  lemma LineReads(sshLine: string, words: seq<string>, line: string)
    requires ParseKey(Words(Trim(sshLine))).Some? && forall w :: w in words ==> IsWord(w)
    requires words[..|words|] == words && line == Joined(words)
    requires |words| >= 2 && words[..2] == Words(Trim(sshLine))[..2]
    ensures LineEntry(line).node == ParseKey(Words(Trim(sshLine)))
    ensures LineEntry(line).expiry == ExpiryIn(Scanned(words[2..]))
  {
    hide IsSpace, Words, Trim, Joined, Scanned, ExpiryIn;
    JoinedIsTight(words);
    JoinedSplits(words);
    assert words[0] == words[..2][0] && words[1] == words[..2][1];
    assert Words(Trim(sshLine))[0] == words[0] && Words(Trim(sshLine))[1] == words[1];
    NotLineEnd();
    TrimsNoneLast(line, '\n');
    TrimsNoneLast(line, '\r');
    TrimsNothing(line);
  }

  lemma NotLineEnd()
    ensures IsSpace('\n') && IsSpace('\r')
  {
  }

  /** What a written expiry is read as. A time past the year 9999 is lost, and the key then never
      expires. */
  function ExpiryReadAgain(expiry: Expiry): Expiry {
    match expiry
    case At(t) => (match ReadAgain(t) case Some(midnight) => At(midnight) case None => Unset)
    case Never => Never
    case Unset => Unset
  }

  /** What `build_line` wrote, `parse_line` reads: the same key, and for every expiry exactly what
      its text can carry. */
  lemma BuiltLineReads(sshLine: string, expiry: Expiry)
    requires ParseKey(Words(Trim(sshLine))).Some?
    ensures var e := LineEntry(BuildLine(sshLine, expiry));
      e.node == ParseKey(Words(Trim(sshLine))) && e.expiry == ExpiryReadAgain(expiry)
  {
    hide IsSpace, Words, Trim, Joined, Kept, ParseKey, ExpiryReadAgain, TokenOf, IsExpiryToken, Scanned, ExpiryIn, LineEntry;
    var before := Words(Trim(sshLine));
    var kept := Kept(before);
    var words := kept + TokenOf(expiry);
    WordsAreWords(Trim(sshLine));
    KeptHas(before);
    KeyStays(before);
    TokensAreTokens(expiry);
    BuiltJoins(sshLine, expiry);
    LineReads(sshLine, words, Joined(words));
    assert words[2..] == kept[2..] + TokenOf(expiry);
    LastToken(kept[2..], expiry);
  }

  lemma BuiltJoins(sshLine: string, expiry: Expiry)
    requires Kept(Words(Trim(sshLine))) != []
    ensures BuildLine(sshLine, expiry) == Joined(Kept(Words(Trim(sshLine))) + TokenOf(expiry))
  {
    hide Words, Trim, Joined, Kept, FormatDate;
    var kept := Kept(Words(Trim(sshLine)));
    if expiry == Unset {
      assert kept + [] == kept;
    } else {
      JoinedOneMore(kept, TokenOf(expiry)[0]);
      assert BuildLine(sshLine, expiry) == Joined(kept) + " " + TokenOf(expiry)[0];
    }
  }

  lemma TokenIsWord(date: string)
    requires forall c | c in date :: !IsSpace(c)
    ensures IsWord(TOK_EXPIRES + date)
  {
  }

  lemma LastToken(words: seq<string>, expiry: Expiry)
    requires forall w :: w in words ==> !IsExpiryToken(w)
    ensures ExpiryIn(Scanned(words + TokenOf(expiry))) == ExpiryReadAgain(expiry)
  {
    hide ParseDate, FormatDate, ReadAgain;
    NoTokens(words);
    if expiry.Unset? {
      assert words + [] == words;
    } else {
      var w := TokenOf(expiry)[0];
      assert (words + [w])[..|words|] == words && words + TokenOf(expiry) == words + [w];
      assert w[..|TOK_EXPIRES|] == TOK_EXPIRES;
      if expiry.At? {
        assert w[|TOK_EXPIRES|..] == FormatDate(expiry.time);
        DateTextRoundTrip(expiry.time);
        NeverIsNoDate(expiry.time);
      } else {
        assert w[|TOK_EXPIRES|..] == NEVER;
      }
    }
  }

  lemma NeverIsNoDate(t: nat)
    ensures FormatDate(t) != NEVER
  {
    hide CivilFromDays;
    var c := CivilFromDays(t / SECS_PER_DAY);
    DayRoundTrip(t / SECS_PER_DAY);
    assert '-' in FormatDate(t) && '-' !in NEVER;
  }

  lemma {:induction false} KeptAppend(a: seq<string>, b: seq<string>)
    ensures Kept(a + b) == Kept(a) + Kept(b)
  {
    if a == [] {
      assert a + b == b;
    } else {
      assert (a + b)[1..] == a[1..] + b;
      KeptAppend(a[1..], b);
    }
  }

  lemma {:induction false} KeptKeeps(words: seq<string>)
    requires forall w :: w in words ==> !IsExpiryToken(w)
    ensures Kept(words) == words
  {
    if words != [] {
      assert words[0] in words;
      KeptKeeps(words[1..]);
    }
  }

  lemma TokensAreTokens(expiry: Expiry)
    ensures Kept(TokenOf(expiry)) == [] && forall w :: w in TokenOf(expiry) ==> IsWord(w)
  {
    hide CivilFromDays, Padded;
    match expiry
    case At(t) =>
      var c := CivilFromDays(t / SECS_PER_DAY);
      DayRoundTrip(t / SECS_PER_DAY);
      PaddedReads(c.year, 4);
      PaddedReads(c.month, 2);
      PaddedReads(c.day, 2);
      TokenIsWord(FormatDate(t));
      var w := TOK_EXPIRES + FormatDate(t);
      assert w[..|TOK_EXPIRES|] == TOK_EXPIRES;
    case Never =>
      assert (TOK_EXPIRES + NEVER)[..|TOK_EXPIRES|] == TOK_EXPIRES;
    case Unset =>
  }

  /** The words of a written line: the old ones without expiry tokens, and the new token. */
  lemma BuiltWords(sshLine: string, expiry: Expiry)
    ensures Words(Trim(BuildLine(sshLine, expiry))) == Kept(Words(Trim(sshLine))) + TokenOf(expiry)
  {
    hide IsSpace, Words, Trim, Joined, Kept, FormatDate, IsExpiryToken;
    var kept := Kept(Words(Trim(sshLine)));
    var words := kept + TokenOf(expiry);
    WordsAreWords(Trim(sshLine));
    KeptHas(Words(Trim(sshLine)));
    TokensAreTokens(expiry);
    JoinedSplits(words);
    if kept == [] {
      JoinedFew("");
      if expiry != Unset {
        var token := TokenOf(expiry)[0];
        JoinedFew(token);
        JoinedIsTight([token]);
        assert [] + [token] == [token];
        assert BuildLine(sshLine, expiry) == "" + " " + token == " " + token + "";
        SpaceIsSpace();
        Trims(" ", token, "");
      }
    } else {
      JoinedIsTight(words);
      TrimsNothing(Joined(words));
      BuiltJoins(sshLine, expiry);
    }
  }

  lemma JoinedFew(w: string)
    ensures Joined([]) == "" && Joined([w]) == w && Trim("") == ""
  {
  }

  lemma SpaceIsSpace()
    ensures IsSpace(' ')
  {
  }

  /** Writing a line again replaces whatever expiry it had, and changes nothing else; writing it
      with the same expiry changes nothing at all. */
  lemma RebuildReplaces(sshLine: string, before: Expiry, after: Expiry)
    ensures BuildLine(BuildLine(sshLine, before), after) == BuildLine(sshLine, after)
  {
    hide Words, Trim, Joined, Kept, FormatDate, IsExpiryToken;
    var kept := Kept(Words(Trim(sshLine)));
    BuiltWords(sshLine, before);
    KeptAppend(kept, TokenOf(before));
    KeptHas(Words(Trim(sshLine)));
    KeptKeeps(kept);
    TokensAreTokens(before);
    assert kept + [] == kept;
  }

  /** An enrolled key's expiry survives the file, and lies after its time to live by a day at most,
      if and only if it lies in a year the text can carry; a later one comes back as none at all, and
      the key is valid forever. */
  lemma EnrolmentSurvives(sshLine: string, now: nat, ttl: nat)
    requires ParseKey(Words(Trim(sshLine))).Some?
    ensures var t := ExpiryFromTtlDays(now, ttl);
      var e := LineEntry(BuildLine(sshLine, At(t)));
      && e.node == ParseKey(Words(Trim(sshLine)))
      && e.expiry == (if CivilFromDays(t / SECS_PER_DAY).year <= 9999 then At(t) else Unset)
      && e.expiry.IsValid(now + ttl * SECS_PER_DAY)
      && (e.expiry.IsValid(now + ttl * SECS_PER_DAY + SECS_PER_DAY) <==> CivilFromDays(t / SECS_PER_DAY).year > 9999)
  {
    hide BuildLine, LineEntry, Words, Trim, ParseKey, CivilFromDays;
    var t := ExpiryFromTtlDays(now, ttl);
    ExpiryIsJustAfter(now, ttl);
    assert t / SECS_PER_DAY * SECS_PER_DAY == t;
    BuiltLineReads(sshLine, At(t));
  }

  /** There is such a time to live. */
  lemma FarExpiryIsLost(sshLine: string)
    requires ParseKey(Words(Trim(sshLine))).Some?
    ensures LineEntry(BuildLine(sshLine, At(ExpiryFromTtlDays(0, 3000000)))).expiry == Unset
  {
    hide BuildLine, LineEntry, Words, Trim, ParseKey, FormatDate, ParseDate;
    EnrolmentSurvives(sshLine, 0, 3000000);
  }
}
