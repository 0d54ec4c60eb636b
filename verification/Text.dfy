/** Text as the configuration and key files use it: spaces, numbers, and where a character is. */
module Text {
  import opened Prelude

  // ---- Spaces ----

  /** Unicode White_Space. */
  predicate IsSpace(c: char) {
    var n := c as int;
    9 <= n <= 13 || n == 0x20 || n == 0x85 || n == 0xA0 || n == 0x1680 || 0x2000 <= n <= 0x200A
    || n == 0x2028 || n == 0x2029 || n == 0x202F || n == 0x205F || n == 0x3000
  }

  function TrimStart(s: string): string {
    if s != "" && IsSpace(s[0]) then TrimStart(s[1..]) else s
  }

  function TrimEnd(s: string): string {
    if s != "" && IsSpace(s[|s| - 1]) then TrimEnd(s[..|s| - 1]) else s
  }

  function Trim(s: string): string {
    TrimEnd(TrimStart(s))
  }

  predicate Tight(s: string) {
    s != "" && !IsSpace(s[0]) && !IsSpace(s[|s| - 1])
  }

  predicate Spaces(s: string) {
    forall c | c in s :: IsSpace(c)
  }

  lemma {:induction false} TrimsStart(pad: string, s: string)
    requires Spaces(pad) && s != "" && !IsSpace(s[0])
    ensures TrimStart(pad + s) == s
  {
    if pad == "" {
      assert pad + s == s;
    } else {
      assert (pad + s)[1..] == pad[1..] + s;
      TrimsStart(pad[1..], s);
    }
  }

  lemma {:induction false} TrimsEnd(s: string, pad: string)
    requires Spaces(pad) && s != "" && !IsSpace(s[|s| - 1])
    ensures TrimEnd(s + pad) == s
  {
    if pad == "" {
      assert s + pad == s;
    } else {
      assert (s + pad)[..|s + pad| - 1] == s + pad[..|pad| - 1];
      TrimsEnd(s, pad[..|pad| - 1]);
    }
  }

  lemma Trims(before: string, s: string, after: string)
    requires Spaces(before) && Spaces(after) && Tight(s)
    ensures Trim(before + s + after) == s
  {
    assert before + s + after == before + (s + after);
    TrimsStart(before, s + after);
    TrimsEnd(s, after);
  }

  lemma TrimsNothing(s: string)
    requires Tight(s)
    ensures Trim(s) == s
  {
    Trims("", s, "");
    assert "" + s + "" == s;
  }

  // ---- Numbers ----

  function HexDigit(n: nat): char
    requires n < 16
  {
    if n < 10 then '0' + n as char else 'A' + (n - 10) as char
  }

  function HexValue(c: char): Option<nat> {
    if '0' <= c <= '9' then Some(c as int - '0' as int)
    else if 'a' <= c <= 'f' then Some(c as int - 'a' as int + 10)
    else if 'A' <= c <= 'F' then Some(c as int - 'A' as int + 10)
    else None
  }

  function DigitsValue(s: string, radix: nat): Option<nat> {
    if s == "" then Some(0)
    else
      match (DigitsValue(s[..|s| - 1], radix), HexValue(s[|s| - 1]))
      case (Some(high), Some(low)) => if low < radix then Some(high * radix + low) else None
      case _ => None
  }

  /** An unsigned number in some radix, with an optional plus sign. */
  function ParseNumber(s: string, radix: nat): Option<nat> {
    var digits := if s != "" && s[0] == '+' then s[1..] else s;
    if digits == "" then None else DigitsValue(digits, radix)
  }

  lemma HexDigitValue(n: nat)
    requires n < 16
    ensures HexValue(HexDigit(n)) == Some(n)
  {
  }

  function Decimal(n: nat): string {
    (if n < 10 then "" else Decimal(n / 10)) + [HexDigit(n % 10)]
  }

  lemma {:induction false} DecimalReads(n: nat)
    ensures DigitsValue(Decimal(n), 10) == Some(n)
    ensures Decimal(n) != "" && forall c | c in Decimal(n) :: '0' <= c <= '9'
    decreases n
  {
    var s := Decimal(n);
    HexDigitValue(n % 10);
    if n < 10 {
      assert s == [HexDigit(n)] && s[..0] == "";
      assert DigitsValue("", 10) == Some(0);
    } else {
      DecimalReads(n / 10);
      assert s[..|s| - 1] == Decimal(n / 10);
    }
  }

  // ---- Positions ----

  predicate StartsWith(s: string, prefix: string) {
    |prefix| <= |s| && s[..|prefix|] == prefix
  }

  lemma SameAt(s: string, prefix: string, i: nat)
    requires i < |prefix|
    ensures StartsWith(s, prefix) ==> i < |s| && s[i] == prefix[i]
  {
    if StartsWith(s, prefix) {
      assert s[..|prefix|][i] == s[i];
    }
  }

  function Index(s: string, c: char): (i: nat)
    requires c in s
    ensures i < |s| && s[i] == c && c !in s[..i]
  {
    if s[0] == c then 0 else 1 + Index(s[1..], c)
  }

  lemma {:induction false} IndexIs(s: string, k: nat, c: char)
    requires k < |s| && s[k] == c && c !in s[..k]
    ensures Index(s, c) == k
  {
    if k > 0 {
      assert s[0] in s[..k];
      assert s[1..][..k - 1] == s[..k][1..];
      IndexIs(s[1..], k - 1, c);
    }
  }

  // ---- Lines ----

  /** The lines of a text, without their ends. */
  function Lines(s: string): seq<string>
    decreases |s|
  {
    if s == "" then []
    else if '\n' !in s then [s]
    else
      var k := Index(s, '\n');
      [if k > 0 && s[k - 1] == '\r' then s[..k - 1] else s[..k]] + Lines(s[k + 1..])
  }

  /** No control characters. */
  predicate Plain(s: string) {
    forall c | c in s :: c as int >= 0x20
  }

  function Unlines(ls: seq<string>): string {
    if ls == [] then "" else ls[0] + "\n" + Unlines(ls[1..])
  }

  lemma {:induction false} UnlinesAppend(a: seq<string>, b: seq<string>)
    ensures Unlines(a + b) == Unlines(a) + Unlines(b)
  {
    if a == [] {
      assert a + b == b;
    } else {
      assert (a + b)[1..] == a[1..] + b;
      UnlinesAppend(a[1..], b);
    }
  }

  lemma OneLine(l: string)
    ensures Unlines([l]) == l + "\n"
  {
    assert [l][1..] == [];
  }

  lemma {:induction false} LinesOfUnlines(ls: seq<string>)
    requires forall l :: l in ls ==> Plain(l)
    ensures Lines(Unlines(ls)) == ls
  {
    if ls != [] {
      var l, rest := ls[0], Unlines(ls[1..]);
      var s := Unlines(ls);
      assert l in ls;
      assert s == l + "\n" + rest && s[|l|] == '\n' && s[..|l|] == l && s[|l| + 1..] == rest;
      IndexIs(s, |l|, '\n');
      LinesOfUnlines(ls[1..]);
      assert |l| > 0 ==> s[|l| - 1] == l[|l| - 1] && l[|l| - 1] in l;
    }
  }

  /** Text after a line end only adds its own lines. */
  lemma {:induction false} LinesSplit(x: string, y: string)
    ensures Lines(x + "\n" + y) == Lines(x + "\n") + Lines(y)
    decreases |x|
  {
    hide Index, Lines;
    var s, t := x + "\n" + y, x + "\n";
    var k := Index(t, '\n');
    assert s[k] == '\n' && s[..k] == t[..k];
    FirstLine(s, k);
    FirstLine(t, k);
    assert k > 0 ==> s[k - 1] == t[k - 1] && s[..k - 1] == t[..k - 1];
    if k == |x| {
      assert s[k + 1..] == y && t[k + 1..] == "";
      NoLines();
    } else {
      var x' := x[k + 1..];
      assert s[k + 1..] == x' + "\n" + y && t[k + 1..] == x' + "\n";
      LinesSplit(x', y);
    }
  }

  lemma NoLines()
    ensures Lines("") == []
  {
  }

  lemma FirstLine(s: string, k: nat)
    requires k < |s| && s[k] == '\n' && '\n' !in s[..k]
    ensures Lines(s) == [if k > 0 && s[k - 1] == '\r' then s[..k - 1] else s[..k]] + Lines(s[k + 1..])
  {
    hide Index;
    IndexIs(s, k, '\n');
  }
}
