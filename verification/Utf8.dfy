/** What a text file is (merge.rs, scope.rs): the UTF-8 encoding of some characters, none of them NUL.
    Anything else is binary, and is never merged by lines. */
module Utf8 {
  import opened Prelude
  import opened Merge

  /** A Unicode scalar value: a code point that is no surrogate. */
  predicate Scalar(n: nat) {
    n < 0xD800 || 0xE000 <= n < 0x11_0000
  }

  /** UTF-8, as section 3 of RFC 3629 lays it out. */
  function Encoded(n: nat): Bytes
    requires Scalar(n)
  {
    if n < 0x80 then [n]
    else if n < 0x800 then [0xC0 + n / 64, 0x80 + n % 64]
    else if n < 0x1_0000 then [0xE0 + n / 4096, 0x80 + n / 64 % 64, 0x80 + n % 64]
    else [0xF0 + n / 262144, 0x80 + n / 4096 % 64, 0x80 + n / 64 % 64, 0x80 + n % 64]
  }

  function EncodedAll(cs: seq<nat>): Bytes
    requires forall c :: c in cs ==> Scalar(c)
  {
    if cs == [] then [] else Encoded(cs[0]) + EncodedAll(cs[1..])
  }

  /** `s` spells out some characters, none of them NUL. */
  ghost predicate Spelled(s: Bytes, cs: seq<nat>) {
    (forall c :: c in cs ==> Scalar(c) && c != 0) && EncodedAll(cs) == s
  }

  ghost predicate IsText(s: Bytes) {
    exists cs :: Spelled(s, cs)
  }

  // ---- One character ----

  lemma EncodedIsValid(n: nat, rest: Bytes)
    requires Scalar(n)
    ensures ValidUtf8(Encoded(n) + rest) == ValidUtf8(rest)
    ensures 0 in Encoded(n) <==> n == 0
  {
    var e := Encoded(n);
    var s := e + rest;
    assert s[|e|..] == rest;
    if n < 0x80 {
      assert s[0] == n;
    } else if n < 0x800 {
      assert s[0] == e[0] && s[1] == e[1];
    } else if n < 0x1_0000 {
      assert s[0] == e[0] && s[1] == e[1] && s[2] == e[2];
      ThreeBytes(n);
    } else {
      assert s[0] == e[0] && s[1] == e[1] && s[2] == e[2] && s[3] == e[3];
      FourBytes(n);
    }
  }

  lemma ThreeBytes(n: nat)
    requires Scalar(n) && 0x800 <= n < 0x1_0000
    ensures n / 4096 == 0 ==> 32 <= n / 64 % 64
    ensures n / 4096 == 13 ==> n / 64 % 64 < 32
    ensures n / 4096 < 16
  {
  }

  lemma FourBytes(n: nat)
    requires Scalar(n) && 0x1_0000 <= n
    ensures n / 262144 == 0 ==> 16 <= n / 4096 % 64
    ensures n / 262144 == 4 ==> n / 4096 % 64 < 16
    ensures n / 262144 <= 4
  {
  }

  /** The character a valid text starts with, and what follows it. */
  lemma FirstCharacter(s: Bytes) returns (n: nat, rest: Bytes)
    requires s != [] && ValidUtf8(s)
    ensures Scalar(n) && s == Encoded(n) + rest && ValidUtf8(rest) && |rest| < |s|
  {
    if s[0] <= 0x7F {
      n, rest := s[0], s[1..];
    } else if s[0] <= 0xDF {
      var a: nat, b: nat := s[0] - 0xC0, s[1] - 0x80;
      n, rest := a * 64 + b, s[2..];
    } else if s[0] <= 0xEF {
      var a: nat, b: nat, c: nat := s[0] - 0xE0, s[1] - 0x80, s[2] - 0x80;
      n, rest := a * 4096 + b * 64 + c, s[3..];
      Digits(a, b, c);
      assert s[..3] == Encoded(n);
    } else {
      var a: nat, b: nat, c: nat, d: nat := s[0] - 0xF0, s[1] - 0x80, s[2] - 0x80, s[3] - 0x80;
      n, rest := a * 262144 + b * 4096 + c * 64 + d, s[4..];
      MoreDigits(a, b, c, d);
      assert s[..4] == Encoded(n);
    }
  }

  /** Six bits more, and six bits less. */
  lemma Shift(a: nat, b: nat)
    requires b < 64
    ensures (a * 64 + b) / 64 == a && (a * 64 + b) % 64 == b
  {
  }

  lemma TwiceSix(n: nat)
    ensures n / 4096 == n / 64 / 64
  {
    var q, r := n / 64, n % 64;
    assert n == 4096 * (q / 64) + (64 * (q % 64) + r) && 0 <= 64 * (q % 64) + r < 4096;
  }

  lemma ThriceSix(n: nat)
    ensures n / 262144 == n / 64 / 4096
  {
    var q, r := n / 64, n % 64;
    assert n == 262144 * (q / 4096) + (64 * (q % 4096) + r) && 0 <= 64 * (q % 4096) + r < 262144;
  }

  lemma Digits(a: nat, b: nat, c: nat)
    requires b < 64 && c < 64
    ensures var n := a * 4096 + b * 64 + c;
      n / 4096 == a && n / 64 % 64 == b && n % 64 == c
  {
    Shift(a, b);
    Shift(a * 64 + b, c);
    TwiceSix(a * 4096 + b * 64 + c);
    assert (a * 64 + b) * 64 + c == a * 4096 + b * 64 + c;
  }

  lemma MoreDigits(a: nat, b: nat, c: nat, d: nat)
    requires b < 64 && c < 64 && d < 64
    ensures var n := a * 262144 + b * 4096 + c * 64 + d;
      n / 262144 == a && n / 4096 % 64 == b && n / 64 % 64 == c && n % 64 == d
  {
    var m, n := a * 4096 + b * 64 + c, a * 262144 + b * 4096 + c * 64 + d;
    Digits(a, b, c);
    assert n == m * 64 + d;
    Shift(m, d);
    TwiceSix(n);
    ThriceSix(n);
  }

  // ---- Whole texts ----

  lemma {:induction false} SpelledIsText(s: Bytes, cs: seq<nat>)
    requires Spelled(s, cs)
    ensures !IsBinary(s)
    decreases |cs|
  {
    hide ValidUtf8, Encoded;
    if cs == [] {
      NothingIsValid();
    } else {
      assert cs[0] in cs && forall c :: c in cs[1..] ==> c in cs;
      EncodedIsValid(cs[0], EncodedAll(cs[1..]));
      SpelledIsText(EncodedAll(cs[1..]), cs[1..]);
    }
  }

  lemma NothingIsValid()
    ensures ValidUtf8([])
  {
  }

  lemma {:induction false} TextIsSpelled(s: Bytes) returns (cs: seq<nat>)
    requires !IsBinary(s)
    ensures Spelled(s, cs)
    decreases |s|
  {
    hide ValidUtf8, Encoded;
    cs := [];
    if s != [] {
      var n, rest := FirstCharacter(s);
      assert forall b :: b in rest ==> b in s;
      assert forall b :: b in Encoded(n) ==> b in s;
      EncodedIsValid(n, rest);
      var more := TextIsSpelled(rest);
      cs := [n] + more;
      assert cs[1..] == more;
    }
  }

  /** A file is text, to the merge and to the scope alike, exactly when it is that. */
  lemma TextIff(s: Bytes)
    ensures !IsBinary(s) <==> IsText(s)
  {
    hide IsBinary, Spelled;
    if !IsBinary(s) {
      var cs := TextIsSpelled(s);
    }
    if cs :| Spelled(s, cs) {
      SpelledIsText(s, cs);
    }
  }

  /** If any of the three is not text, theirs is taken whole. */
  lemma BinaryGoesToTheirs(base: Bytes, ours: Bytes, theirs: Bytes)
    requires !IsText(base) || !IsText(ours) || !IsText(theirs)
    ensures MergedBlob(base, ours, theirs) == theirs
  {
    hide IsBinary, IsText;
    TextIff(base);
    TextIff(ours);
    TextIff(theirs);
  }
}
