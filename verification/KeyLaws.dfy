/** What the tokens of a key line mean (authkeys.rs): durations in days, weeks and years, the two ways
    to say when a key expires, and which of them counts. */
module KeyLaws {
  import opened Prelude
  import opened Objects
  import opened Text
  import opened Dates
  import opened AuthKeys

  // ---- Durations ----

  lemma {:induction false} DigitsAreLower(s: string)
    requires forall c | c in s :: '0' <= c <= '9'
    ensures Lower(s) == s
  {
    if s != "" {
      var k := |s| - 1;
      assert s == s[..k] + [s[k]] && s[k] in s && forall c :: c in s[..k] ==> c in s;
      DigitsAreLower(s[..k]);
    }
  }

  lemma LowerAppend(s: string, c: char)
    ensures Lower(s + [c]) == Lower(s) + [if 'A' <= c <= 'Z' then c + 32 as char else c]
  {
    assert (s + [c])[..|s|] == s;
  }

  /** The digits of a number with a unit: trimming and lower case leave the digits alone. */
  lemma WithUnit(n: nat, unit: char)
    requires unit == 'd' || unit == 'w' || unit == 'y' || unit == 'D' || unit == 'W' || unit == 'Y'
    ensures var s := Lower(Trim(Decimal(n) + [unit]));
      s == Decimal(n) + [if unit <= 'Z' then unit + 32 as char else unit] && s != NEVER && s != "0"
    ensures ParseNumber(Decimal(n), 10) == Some(n)
  {
    hide Decimal, DigitsValue, Lower;
    var d := Decimal(n);
    DecimalReads(n);
    assert d[0] in d;
    TrimsNothing(d + [unit]);
    DigitsAreLower(d);
    LowerAppend(d, unit);
    assert (d + [unit])[0] == d[0] && NEVER[0] == 'n';
  }

  /** A number of days, of weeks of seven days, or of years of 365, in either case. */
  lemma DurationsRead(n: nat)
    ensures ParseDuration(Decimal(n) + "d") == ParseDuration(Decimal(n) + "D") == Some(n)
    ensures ParseDuration(Decimal(n) + "w") == ParseDuration(Decimal(n) + "W") == Some(7 * n)
    ensures ParseDuration(Decimal(n) + "y") == ParseDuration(Decimal(n) + "Y") == Some(365 * n)
  {
    hide Decimal, Lower, Trim, ParseNumber;
    WithUnit(n, 'd');
    WithUnit(n, 'D');
    WithUnit(n, 'w');
    WithUnit(n, 'W');
    WithUnit(n, 'y');
    WithUnit(n, 'Y');
  }

  /** A bare number is one of days, except that zero, like the word, is no duration. */
  lemma BareNumbersRead(n: nat)
    ensures ParseDuration(Decimal(n)) == if n == 0 then None else Some(n)
    ensures ParseDuration("never") == None && ParseDuration("0") == None
  {
    hide DigitsValue, Lower, Decimal, Trim;
    var d := Decimal(n);
    DecimalReads(n);
    assert d[0] in d && d[|d| - 1] in d;
    TrimsNothing(d);
    TrimsNothing("never");
    TrimsNothing("0");
    DigitsAreLower(d);
    DigitsAreLower("0");
    NeverIsLower();
    assert NEVER[0] == 'n';
    ZeroIsZero(n);
  }

  lemma NeverIsLower()
    ensures Lower("never") == "never"
  {
    hide Lower;
    DigitsAreLower("");
    assert "never" == "neve" + "r" && "neve" == "nev" + "e" && "nev" == "ne" + "v" && "ne" == "n" + "e" && "n" == "" + "n";
    LowerAppend("", 'n');
    LowerAppend("n", 'e');
    LowerAppend("ne", 'v');
    LowerAppend("nev", 'e');
    LowerAppend("neve", 'r');
  }

  lemma ZeroIsZero(n: nat)
    ensures Decimal(n) == "0" <==> n == 0
  {
    hide DigitsValue;
    DecimalReads(n);
    DecimalReads(0);
    assert Decimal(0) == "0";
  }

  // ---- Which token counts ----

  /** Tokens are read one after the other. */
  lemma {:induction false} ScannedFrom(a: seq<string>, b: seq<string>)
    ensures Scanned(a + b) == FoldTokens(Scanned(a), b)
    decreases |b|
  {
    hide Token;
    if b == [] {
      assert a + b == a;
    } else {
      var k := |b| - 1;
      assert (a + b)[..|a + b| - 1] == a + b[..k];
      ScannedFrom(a, b[..k]);
    }
  }

  function FoldTokens(t: Tokens, words: seq<string>): Tokens {
    if words == [] then t else Token(FoldTokens(t, words[..|words| - 1]), words[|words| - 1])
  }

  lemma {:induction false} KeepsExpires(t: Tokens, words: seq<string>)
    requires forall w :: w in words ==> !StartsWith(w, "expires=")
    ensures FoldTokens(t, words).expires == t.expires
  {
    if words != [] {
      var k := |words| - 1;
      assert words[k] in words && words == words[..k] + [words[k]];
      KeepsExpires(t, words[..k]);
    }
  }

  lemma ExpiresTokenReads(t: Tokens, time: nat)
    requires CivilFromDays(time / SECS_PER_DAY).year <= 9999
    ensures Token(t, "expires=" + FormatDate(time)).expires == Some(At(Midnight(time)))
    ensures Token(t, "expires=never").expires == Some(Never)
  {
    hide FormatDate, ParseDate, CivilFromDays;
    var w := "expires=" + FormatDate(time);
    assert w[..8] == "expires=" && w[8..] == FormatDate(time);
    assert "expires=never"[..8] == "expires=" && "expires=never"[8..] == "never";
    DateTextRoundTrip(time);
    NeverIsNoDate(time);
  }

  /** The last absolute expiry counts, whatever comes before it, and whatever time to live is given. */
  lemma AbsoluteCounts(before: seq<string>, time: nat, after: seq<string>)
    requires CivilFromDays(time / SECS_PER_DAY).year <= 9999
    requires forall w :: w in after ==> !StartsWith(w, "expires=")
    ensures ExpiryIn(Scanned(before + ["expires=" + FormatDate(time)] + after)) == At(Midnight(time))
    ensures ExpiryIn(Scanned(before + ["expires=never"] + after)) == Never
  {
    hide Token, FormatDate, CivilFromDays, Scanned, Midnight;
    AddsOne(before, "expires=" + FormatDate(time), after);
    AddsOne(before, "expires=never", after);
    ExpiresTokenReads(Scanned(before), time);
    KeepsExpires(Token(Scanned(before), "expires=" + FormatDate(time)), after);
    KeepsExpires(Token(Scanned(before), "expires=never"), after);
  }

  lemma AddsOne(before: seq<string>, w: string, after: seq<string>)
    ensures Scanned(before + [w] + after) == FoldTokens(Token(Scanned(before), w), after)
  {
    hide Token;
    ScannedFrom(before + [w], after);
    assert (before + [w])[..|before|] == before;
  }

  /** Without one, a time to live counts from the day the key was added, in either order of the two. */
  lemma TtlCounts(words: seq<string>, n: nat, added: nat)
    requires forall w :: w in words ==> !IsExpiryToken(w)
    requires CivilFromDays(added / SECS_PER_DAY).year <= 9999
    ensures ExpiryIn(Scanned(words + ["ttl=" + Decimal(n) + "d", "added=" + FormatDate(added)])) == At(Midnight(added) + n * 86400)
    ensures ExpiryIn(Scanned(words + ["added=" + FormatDate(added), "ttl=" + Decimal(n) + "d"])) == At(Midnight(added) + n * 86400)
    ensures ExpiryIn(Scanned(words + ["ttl=" + Decimal(n) + "d"])) == ExpiryIn(Scanned(words + ["added=" + FormatDate(added)])) == Unset
  {
    hide Token, FormatDate, CivilFromDays, Decimal, Midnight, Scanned;
    var none := Tokens(None, None, None);
    var a, b := "ttl=" + Decimal(n) + "d", "added=" + FormatDate(added);
    NoTokens(words);
    AddsOne(words, a, [b]);
    AddsOne(words, b, [a]);
    AddsOne(words, a, []);
    AddsOne(words, b, []);
    assert words + [a] + [b] == words + [a, b] && words + [b] + [a] == words + [b, a];
    assert words + [a] + [] == words + [a] && words + [b] + [] == words + [b];
    OneFolds(Token(none, a), b);
    OneFolds(Token(none, b), a);
    TtlTokenReads(none, n);
    TtlTokenReads(Token(none, b), n);
    AddedTokenReads(none, added);
    AddedTokenReads(Token(none, a), added);
  }

  lemma OneFolds(t: Tokens, w: string)
    ensures FoldTokens(t, [w]) == Token(t, w) && FoldTokens(t, []) == t
  {
    hide Token;
    assert [w][..0] == [];
  }

  lemma TtlTokenReads(t: Tokens, n: nat)
    ensures Token(t, "ttl=" + Decimal(n) + "d") == t.(ttl := Some(n))
  {
    hide Decimal, ParseDuration;
    var w := "ttl=" + Decimal(n) + "d";
    assert w[0] == 't' && "expires="[0] == 'e';
    SameAt(w, "expires=", 0);
    assert w[..4] == "ttl=" && w[4..] == Decimal(n) + "d";
    DurationsRead(n);
  }

  lemma AddedTokenReads(t: Tokens, added: nat)
    requires CivilFromDays(added / SECS_PER_DAY).year <= 9999
    ensures Token(t, "added=" + FormatDate(added)) == t.(added := Some(Midnight(added)))
  {
    hide FormatDate, ParseDate, CivilFromDays, Midnight;
    var w := "added=" + FormatDate(added);
    assert w[0] == 'a' && "expires="[0] == 'e' && "ttl="[0] == 't';
    SameAt(w, "expires=", 0);
    SameAt(w, "ttl=", 0);
    assert w[..6] == "added=" && w[6..] == FormatDate(added);
    DateTextRoundTrip(added);
  }

  // ---- Lines ----

  lemma TokensAreWords(n: nat, added: nat)
    ensures IsWord("ttl=" + Decimal(n) + "d") && IsWord("added=" + FormatDate(added))
  {
    hide DigitsValue, FormatDate;
    DecimalReads(n);
    DateTextRoundTrip(added);
    DigitsAreNoSpace();
    assert forall c | c in "ttl=" + Decimal(n) + "d" :: c in "ttl=" || c in Decimal(n) || c in "d";
    assert forall c | c in "added=" + FormatDate(added) :: c in "added=" || c in FormatDate(added);
  }

  /** A key line with a time to live and the day it was added: the same key, and that many days from
      that midnight. */
  lemma TtlLineReads(sshLine: string, n: nat, added: nat)
    requires ParseKey(Words(Trim(sshLine))).Some? && CivilFromDays(added / SECS_PER_DAY).year <= 9999
    ensures var line := Joined(Kept(Words(Trim(sshLine))) + ["ttl=" + Decimal(n) + "d", "added=" + FormatDate(added)]);
      LineEntry(line).node == ParseKey(Words(Trim(sshLine))) && LineEntry(line).expiry == At(Midnight(added) + n * 86400)
  {
    hide Words, Trim, Joined, Kept, ParseKey, FormatDate, CivilFromDays, IsExpiryToken, Scanned, ExpiryIn, LineEntry, Decimal, Midnight;
    var kept := Kept(Words(Trim(sshLine)));
    var tokens := ["ttl=" + Decimal(n) + "d", "added=" + FormatDate(added)];
    WordsAreWords(Trim(sshLine));
    KeptHas(Words(Trim(sshLine)));
    KeyStays(Words(Trim(sshLine)));
    TokensAreWords(n, added);
    LineReads(sshLine, kept + tokens, Joined(kept + tokens));
    assert (kept + tokens)[2..] == kept[2..] + tokens;
    TtlCounts(kept[2..], n, added);
  }

  /** A blank line, a comment, or a line for another kind of key names no key, and is kept as it is. */
  lemma OtherLines(line: string)
    requires line == "" || (line[|line| - 1] != '\n' && line[|line| - 1] != '\r')
    requires Trim(line) == "" || Trim(line)[0] == '#' || (|Words(Trim(line))| > 0 ==> Words(Trim(line))[0] != "ssh-ed25519")
    ensures LineEntry(line) == KeyEntry(line, None, Unset)
  {
    hide Trim, Words;
    TrimsNoneLast(line, '\n');
    TrimsNoneLast(line, '\r');
  }
}
