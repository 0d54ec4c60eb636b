/** The text of an edit's message (identity.rs, fold.rs): how the counter, the author, the undone
    deletes and the signature are written as trailers, and that reading them gives them back. This
    is what lets the rest of the model treat a message as its fields. */
module Trailers {
  import opened Prelude
  import opened Objects
  import opened Text
  import opened Signing

  const COUNTER := "CSP-Counter: "
  const NODE := "CSP-Node: "
  const READD := "CSP-Readd: "
  const SIGNATURE := "CSP-Signature: "
  const U64_LIMIT := 0x1_0000_0000_0000_0000

  // ---- Hexadecimal ----

  function LowerDigit(n: nat): char
    requires n < 16
  {
    if n < 10 then '0' + n as char else 'a' + (n - 10) as char
  }

  function Hex(bytes: Bytes): string {
    if bytes == [] then "" else [LowerDigit(bytes[0] / 16), LowerDigit(bytes[0] % 16)] + Hex(bytes[1..])
  }

  function UnHex(s: string): Option<Bytes> {
    if s == "" then Some([])
    else if |s| == 1 then None
    else
      match (HexValue(s[0]), HexValue(s[1]), UnHex(s[2..]))
      case (Some(high), Some(low), Some(rest)) => Some([(high * 16 + low) as Byte] + rest)
      case _ => None
  }

  lemma {:induction false} HexReads(bytes: Bytes)
    ensures UnHex(Hex(bytes)) == Some(bytes)
    ensures |Hex(bytes)| == 2 * |bytes| && Visible(Hex(bytes))
  {
    hide HexValue, LowerDigit, IsSpace, Hex, UnHex, Visible;
    if bytes == [] {
      HexNothing();
    } else {
      HexReads(bytes[1..]);
      HexOneMore(bytes[0], bytes[1..]);
      assert bytes == [bytes[0]] + bytes[1..];
    }
  }

  lemma HexNothing()
    ensures Hex([]) == "" && UnHex("") == Some([]) && Visible("")
  {
  }

  lemma HexOneMore(b: Byte, rest: Bytes)
    requires UnHex(Hex(rest)) == Some(rest) && Visible(Hex(rest))
    ensures var s := Hex([b] + rest);
      UnHex(s) == Some([b] + rest) && |s| == 2 + |Hex(rest)| && Visible(s)
  {
    hide HexValue, LowerDigit, IsSpace;
    var s := Hex([b] + rest);
    assert ([b] + rest)[0] == b && ([b] + rest)[1..] == rest;
    LowerDigitReads(b / 16);
    LowerDigitReads(b % 16);
    assert s[2..] == Hex(rest);
  }

  lemma LowerDigitReads(n: nat)
    requires n < 16
    ensures HexValue(LowerDigit(n)) == Some(n) && LowerDigit(n) as int >= 0x20 && !IsSpace(LowerDigit(n))
  {
  }

  predicate Visible(s: string) {
    forall c | c in s :: c as int >= 0x20 && !IsSpace(c)
  }

  lemma VisibleIsTight(s: string)
    requires Visible(s) && s != ""
    ensures Tight(s) && Plain(s)
  {
    assert s[0] in s && s[|s| - 1] in s;
  }

  /** A node id is 32 bytes, an object id 20. */
  function ReadId(s: string, size: nat): Option<Bytes> {
    match UnHex(s)
    case Some(bytes) => if |bytes| == size then Some(bytes) else None
    case None => None
  }

  // ---- Base64, of which only this is used: it reads back, and has no white space ----

  datatype Codec = Codec(encode: Bytes -> string, decode: string -> Option<Bytes>)

  ghost predicate ReadsBack(c: Codec) {
    forall bytes :: bytes != [] ==> c.decode(c.encode(bytes)) == Some(bytes) && Visible(c.encode(bytes)) && c.encode(bytes) != ""
  }

  lemma HexReadsBack()
    ensures ReadsBack(Codec(Hex, UnHex))
  {
    forall bytes: Bytes
      ensures UnHex(Hex(bytes)) == Some(bytes) && Visible(Hex(bytes)) && (bytes != [] ==> Hex(bytes) != "")
    {
      HexReads(bytes);
    }
  }

  type TextCodec = c: Codec | ReadsBack(c) witness (HexReadsBack(); Codec(Hex, UnHex))

  const Base64: TextCodec

  // ---- Reading ----

  datatype Meta = Meta(counter: Option<nat>, node: Option<Bytes>)

  function ReadCounter(s: string): Option<nat> {
    match ParseNumber(Trim(s), 10)
    case Some(n) => if n < U64_LIMIT then Some(n) else None
    case None => None
  }

  /** One more line; a later trailer of a kind replaces an earlier one, even by nothing. */
  function MetaLine(m: Meta, line: string): Meta {
    if StartsWith(line, COUNTER) then m.(counter := ReadCounter(line[|COUNTER|..]))
    else if StartsWith(line, NODE) then m.(node := ReadId(Trim(line[|NODE|..]), 32))
    else m
  }

  function MetaLines(m: Meta, lines: seq<string>): Meta {
    if lines == [] then m else MetaLine(MetaLines(m, lines[..|lines| - 1]), lines[|lines| - 1])
  }

  /** The counter and author of an edit; `None` for every other message. */
  function MetaOf(text: string): Option<(nat, Bytes)> {
    match MetaLines(Meta(None, None), Lines(text))
    case Meta(Some(counter), Some(node)) => Some((counter, node))
    case _ => None
  }

  function ReaddLine(line: string): seq<Bytes> {
    if StartsWith(line, READD) then
      match ReadId(Trim(line[|READD|..]), 20) case Some(o) => [o] case None => []
    else []
  }

  function ReaddLines(lines: seq<string>): seq<Bytes> {
    if lines == [] then [] else ReaddLines(lines[..|lines| - 1]) + ReaddLine(lines[|lines| - 1])
  }

  /** The last line that is a signature trailer. */
  function SignatureLine(lines: seq<string>): Option<string> {
    if lines == [] then None
    else if StartsWith(lines[|lines| - 1], SIGNATURE) then Some(lines[|lines| - 1])
    else SignatureLine(lines[..|lines| - 1])
  }

  function StripSuffix(s: string, suffix: string): Option<string> {
    if |suffix| <= |s| && s[|s| - |suffix|..] == suffix then Some(s[..|s| - |suffix|]) else None
  }

  /** The signature of a message, and the text it was made over. */
  function SignedParts(text: string): Option<(Bytes, string)> {
    match SignatureLine(Lines(text))
    case None => None
    case Some(line) =>
      var b64 := line[if |SIGNATURE| <= |line| then |SIGNATURE| else |line|..];
      match (Base64.decode(Trim(b64)), StripSuffix(text, SIGNATURE + b64 + "\n"))
      case (Some(sig), Some(body)) => Some((sig, body))
      case _ => None
  }

  method ParsePrimitiveMeta(text: string) returns (r: Option<(nat, Bytes)>)
    ensures r == MetaOf(text)
  {
    hide ReadCounter, ReadId, Lines;
    var lines := Lines(text);
    var counter: Option<nat>, node: Option<Bytes> := None, None;
    for i := 0 to |lines|
      invariant Meta(counter, node) == MetaLines(Meta(None, None), lines[..i])
    {
      assert lines[..i + 1][..i] == lines[..i];
      if StartsWith(lines[i], COUNTER) {
        counter := ReadCounter(lines[i][|COUNTER|..]);
      } else if StartsWith(lines[i], NODE) {
        node := ReadId(Trim(lines[i][|NODE|..]), 32);
      }
    }
    assert lines[..|lines|] == lines;
    return if counter.Some? && node.Some? then Some((counter.value, node.value)) else None;
  }

  method ParsePrimitiveReadds(text: string) returns (out: seq<Bytes>)
    ensures out == ReaddLines(Lines(text))
  {
    hide ReadId, Lines;
    var lines := Lines(text);
    out := [];
    for i := 0 to |lines|
      invariant out == ReaddLines(lines[..i])
    {
      assert lines[..i + 1][..i] == lines[..i];
      if StartsWith(lines[i], READD) {
        var o := ReadId(Trim(lines[i][|READD|..]), 20);
        if o.Some? {
          out := out + [o.value];
        }
      }
    }
    assert lines[..|lines|] == lines;
  }

  // ---- Writing ----

  function ReaddTexts(readds: seq<Bytes>): string {
    if readds == [] then "" else READD + Hex(readds[0]) + "\n" + ReaddTexts(readds[1..])
  }

  /** What gets signed: subject, a blank line, and the trailers. */
  function Body(subject: string, counter: nat, node: Bytes, readds: seq<Bytes>): string {
    subject + "\n\n" + COUNTER + Decimal(counter) + "\n" + NODE + Hex(node) + "\n" + ReaddTexts(readds)
  }

  function Signed(body: string, sig: Bytes): string {
    body + SIGNATURE + Base64.encode(sig) + "\n"
  }

  method BuildBody(subject: string, counter: nat, node: Bytes, readds: seq<Bytes>) returns (body: string)
    ensures body == Body(subject, counter, node, readds)
  {
    body := subject + "\n\n" + COUNTER + Decimal(counter) + "\n" + NODE + Hex(node) + "\n";
    ghost var head := body;
    for i := 0 to |readds|
      invariant body + ReaddTexts(readds[i..]) == head + ReaddTexts(readds)
    {
      assert readds[i..][1..] == readds[i + 1..];
      assert body + (READD + Hex(readds[i]) + "\n" + ReaddTexts(readds[i + 1..])) ==
        body + (READD + Hex(readds[i]) + "\n") + ReaddTexts(readds[i + 1..]);
      body := body + (READD + Hex(readds[i]) + "\n");
    }
  }

  // ---- What was written is read ----

  function ReaddLinesFor(readds: seq<Bytes>): seq<string> {
    if readds == [] then [] else [READD + Hex(readds[0])] + ReaddLinesFor(readds[1..])
  }

  function TrailerLines(counter: nat, node: Bytes, readds: seq<Bytes>): seq<string> {
    [COUNTER + Decimal(counter), NODE + Hex(node)] + ReaddLinesFor(readds)
  }

  lemma {:induction false} ReaddTextsAreLines(readds: seq<Bytes>)
    ensures ReaddTexts(readds) == Unlines(ReaddLinesFor(readds))
    ensures forall l :: l in ReaddLinesFor(readds) ==> Plain(l) && StartsWith(l, READD)
  {
    if readds != [] {
      HexReads(readds[0]);
      ReaddTextsAreLines(readds[1..]);
      assert ReaddLinesFor(readds)[1..] == ReaddLinesFor(readds[1..]);
      PlainTrailer(READD, Hex(readds[0]));
    }
  }

  lemma PlainTrailer(prefix: string, value: string)
    requires Plain(prefix) && Plain(value)
    ensures Plain(prefix + value) && StartsWith(prefix + value, prefix) && (prefix + value)[|prefix|..] == value
  {
  }

  /** The lines of a signed message: whatever the subject has, then one line per trailer. */
  lemma MessageLines(subject: string, counter: nat, node: Bytes, readds: seq<Bytes>, sig: Bytes)
    requires sig != []
    ensures Lines(Signed(Body(subject, counter, node, readds), sig)) ==
      Lines(subject + "\n\n") + TrailerLines(counter, node, readds) + [SIGNATURE + Base64.encode(sig)]
  {
    hide Lines, Plain, Unlines, Body, Hex, Decimal;
    var trailers := TrailerLines(counter, node, readds);
    var last := SIGNATURE + Base64.encode(sig);
    var text := Signed(Body(subject, counter, node, readds), sig);
    TrailersArePlain(counter, node, readds, sig);
    TrailersText(counter, node, readds);
    OneLine(last);
    UnlinesAppend(trailers, [last]);
    BodyShape(subject, counter, node, readds);
    assert text == subject + "\n\n" + Unlines(trailers) + SIGNATURE + Base64.encode(sig) + "\n";
    Regroup(subject, Unlines(trailers), SIGNATURE, Base64.encode(sig));
    assert text == (subject + "\n") + "\n" + Unlines(trailers + [last]);
    LinesSplit(subject + "\n", Unlines(trailers + [last]));
    assert (subject + "\n") + "\n" == subject + "\n\n";
    LinesOfUnlines(trailers + [last]);
  }

  lemma Regroup(a: string, b: string, c: string, d: string)
    ensures a + "\n\n" + b + c + d + "\n" == (a + "\n") + "\n" + (b + (c + d + "\n"))
  {
  }

  lemma BodyShape(subject: string, counter: nat, node: Bytes, readds: seq<Bytes>)
    ensures Body(subject, counter, node, readds) == subject + "\n\n" + Unlines(TrailerLines(counter, node, readds))
  {
    hide Hex, Decimal, Unlines;
    TrailersText(counter, node, readds);
  }

  lemma TrailersText(counter: nat, node: Bytes, readds: seq<Bytes>)
    ensures Unlines(TrailerLines(counter, node, readds)) ==
      COUNTER + Decimal(counter) + "\n" + NODE + Hex(node) + "\n" + ReaddTexts(readds)
  {
    hide Decimal, Hex, Unlines, ReaddTexts, ReaddLinesFor;
    ReaddTextsAreLines(readds);
    var a, b := COUNTER + Decimal(counter), NODE + Hex(node);
    OneLine(a);
    OneLine(b);
    assert TrailerLines(counter, node, readds) == [a] + ([b] + ReaddLinesFor(readds));
    UnlinesAppend([a], [b] + ReaddLinesFor(readds));
    UnlinesAppend([b], ReaddLinesFor(readds));
  }

  lemma TrailersArePlain(counter: nat, node: Bytes, readds: seq<Bytes>, sig: Bytes)
    requires sig != []
    ensures forall l :: l in TrailerLines(counter, node, readds) + [SIGNATURE + Base64.encode(sig)] ==> Plain(l)
  {
    hide Decimal, Hex, Plain, StartsWith;
    ValuesArePlain(counter, node, sig);
    NamesArePlain();
    ReaddTextsAreLines(readds);
    PlainTrailer(COUNTER, Decimal(counter));
    PlainTrailer(NODE, Hex(node));
    PlainTrailer(SIGNATURE, Base64.encode(sig));
  }

  lemma NamesArePlain()
    ensures Plain(COUNTER) && Plain(NODE) && Plain(READD) && Plain(SIGNATURE)
  {
    assert Plain(COUNTER) by { NameIsPlain(COUNTER); }
    assert Plain(NODE) by { NameIsPlain(NODE); }
    assert Plain(READD) by { NameIsPlain(READD); }
    assert Plain(SIGNATURE) by { NameIsPlain(SIGNATURE); }
  }

  lemma NameIsPlain(name: string)
    requires name in {COUNTER, NODE, READD, SIGNATURE}
    ensures Plain(name)
  {
    forall c | c in name
      ensures c as int >= 0x20
    {
      var i :| 0 <= i < |name| && name[i] == c;
    }
  }

  lemma ValuesArePlain(counter: nat, node: Bytes, sig: Bytes)
    requires sig != []
    ensures Plain(Decimal(counter)) && Plain(Hex(node)) && Plain(Base64.encode(sig))
  {
    hide Decimal, Hex, IsSpace, DigitsValue, UnHex;
    DecimalReads(counter);
    HexReads(node);
    assert ReadsBack(Base64);
  }

  lemma PrefixesDiffer(line: string)
    ensures StartsWith(line, READD) ==> !StartsWith(line, COUNTER) && !StartsWith(line, NODE) && !StartsWith(line, SIGNATURE)
    ensures StartsWith(line, SIGNATURE) ==> !StartsWith(line, COUNTER) && !StartsWith(line, NODE) && !StartsWith(line, READD)
    ensures StartsWith(line, NODE) ==> !StartsWith(line, COUNTER) && !StartsWith(line, READD)
    ensures StartsWith(line, COUNTER) ==> !StartsWith(line, READD)
  {
    assert COUNTER[4] == 'C' && NODE[4] == 'N' && READD[4] == 'R' && SIGNATURE[4] == 'S';
    SameAt(line, COUNTER, 4);
    SameAt(line, NODE, 4);
    SameAt(line, READD, 4);
    SameAt(line, SIGNATURE, 4);
  }

  lemma {:induction false} MetaUnmoved(m: Meta, before: seq<string>, lines: seq<string>)
    requires forall l :: l in lines ==> StartsWith(l, READD) || StartsWith(l, SIGNATURE)
    ensures MetaLines(m, before + lines) == MetaLines(m, before)
  {
    hide StartsWith;
    if lines == [] {
      assert before + lines == before;
    } else {
      var n := |lines| - 1;
      assert (before + lines)[..|before + lines| - 1] == before + lines[..n];
      assert lines[n] in lines;
      PrefixesDiffer(lines[n]);
      MetaUnmoved(m, before, lines[..n]);
    }
  }

  lemma MetaOneMore(m: Meta, before: seq<string>, line: string)
    ensures MetaLines(m, before + [line]) == MetaLine(MetaLines(m, before), line)
  {
    assert (before + [line])[..|before|] == before;
  }

  /** Whatever the subject holds, trailers of its own included, a signed edit reads back with the
      counter and the author it was written with. */
  lemma MetaReads(subject: string, counter: nat, node: Bytes, readds: seq<Bytes>, sig: Bytes)
    requires counter < U64_LIMIT && |node| == 32 && sig != []
    ensures MetaOf(Signed(Body(subject, counter, node, readds), sig)) == Some((counter, node))
  {
    hide Lines, MetaLines, StartsWith, Decimal, Hex, UnHex, Trim, DigitsValue;
    var text := Signed(Body(subject, counter, node, readds), sig);
    var none := Meta(None, None);
    var head := Lines(subject + "\n\n");
    var a, b, last := COUNTER + Decimal(counter), NODE + Hex(node), SIGNATURE + Base64.encode(sig);
    MessageLines(subject, counter, node, readds, sig);
    ReaddTextsAreLines(readds);
    CounterReads(counter);
    NodeReads(node);
    MetaOneMore(none, head, a);
    MetaOneMore(none, head + [a], b);
    PrefixesDiffer(b);
    SignatureStarts(sig);
    var rest := ReaddLinesFor(readds) + [last];
    assert forall l :: l in rest ==> StartsWith(l, READD) || StartsWith(l, SIGNATURE);
    MetaUnmoved(none, head + [a] + [b], rest);
    assert Lines(text) == head + [a] + [b] + rest;
  }

  lemma SignatureStarts(sig: Bytes)
    ensures StartsWith(SIGNATURE + Base64.encode(sig), SIGNATURE)
  {
  }

  lemma CounterReads(counter: nat)
    requires counter < U64_LIMIT
    ensures var line := COUNTER + Decimal(counter);
      StartsWith(line, COUNTER) && ReadCounter(line[|COUNTER|..]) == Some(counter)
  {
    hide Decimal, DigitsValue;
    var s := Decimal(counter);
    DecimalReads(counter);
    assert s[0] in s && s[|s| - 1] in s;
    TrimsNothing(s);
    assert (COUNTER + s)[|COUNTER|..] == s;
  }

  lemma NodeReads(node: Bytes)
    requires |node| == 32
    ensures var line := NODE + Hex(node);
      StartsWith(line, NODE) && ReadId(Trim(line[|NODE|..]), 32) == Some(node)
  {
    hide Hex, UnHex;
    HexReads(node);
    VisibleIsTight(Hex(node));
    TrimsNothing(Hex(node));
    assert (NODE + Hex(node))[|NODE|..] == Hex(node);
  }

  lemma {:induction false} ReaddsAppend(a: seq<string>, b: seq<string>)
    ensures ReaddLines(a + b) == ReaddLines(a) + ReaddLines(b)
  {
    if b == [] {
      assert a + b == a;
    } else {
      var n := |b| - 1;
      assert (a + b)[..|a + b| - 1] == a + b[..n];
      ReaddsAppend(a, b[..n]);
    }
  }

  lemma {:induction false} ReaddsRead(readds: seq<Bytes>)
    requires forall o :: o in readds ==> |o| == 20
    ensures ReaddLines(ReaddLinesFor(readds)) == readds
  {
    hide ReaddLine, Hex, ReadId;
    if readds != [] {
      var line := READD + Hex(readds[0]);
      assert readds[0] in readds;
      OneReaddReads(readds[0]);
      ReaddsRead(readds[1..]);
      ReaddsAppend([line], ReaddLinesFor(readds[1..]));
      assert [line][..0] == [];
      assert readds == [readds[0]] + readds[1..];
    }
  }

  lemma OneReaddReads(o: Bytes)
    requires |o| == 20
    ensures ReaddLine(READD + Hex(o)) == [o]
  {
    hide Hex, UnHex;
    HexReads(o);
    VisibleIsTight(Hex(o));
    TrimsNothing(Hex(o));
    assert (READD + Hex(o))[|READD|..] == Hex(o);
  }

  /** The undone deletes read back in order, after any that the subject itself spells out: they
      are exactly the ones written if and only if the subject spells out none. */
  lemma ReaddsReadBack(subject: string, counter: nat, node: Bytes, readds: seq<Bytes>, sig: Bytes)
    requires sig != [] && forall o :: o in readds ==> |o| == 20
    ensures var read := ReaddLines(Lines(Signed(Body(subject, counter, node, readds), sig)));
      && read == ReaddLines(Lines(subject + "\n\n")) + readds
      && (read == readds <==> ReaddLines(Lines(subject + "\n\n")) == [])
  {
    hide Lines, ReaddLines, StartsWith, Decimal, Hex;
    var head := Lines(subject + "\n\n");
    var a, b, last := COUNTER + Decimal(counter), NODE + Hex(node), SIGNATURE + Base64.encode(sig);
    MessageLines(subject, counter, node, readds, sig);
    ReaddsRead(readds);
    NoReadds(a, b, last);
    var middle := ReaddLinesFor(readds);
    assert head + TrailerLines(counter, node, readds) + [last] == head + ([a, b] + (middle + [last]));
    ReaddsAppend(head, [a, b] + (middle + [last]));
    ReaddsAppend([a, b], middle + [last]);
    ReaddsAppend(middle, [last]);
    assert readds + [] == readds && [] + readds == readds;
  }

  lemma NoReadds(a: string, b: string, last: string)
    requires |a| > 4 && |b| > 4 && |last| > 4 && a[4] == 'C' && b[4] == 'N' && last[4] == 'S'
    ensures ReaddLines([a, b]) == [] && ReaddLines([last]) == []
  {
    NoReadd(a);
    NoReadd(b);
    NoReadd(last);
    assert [a, b] == [a] + [b];
    ReaddsAppend([a], [b]);
  }

  lemma NoReadd(line: string)
    requires |line| > 4 && line[4] != 'R'
    ensures ReaddLine(line) == [] && ReaddLines([line]) == []
  {
    assert READD[4] == 'R';
    SameAt(line, READD, 4);
    assert [line][..0] == [];
  }

  /** Reading the signature of a signed message gives the signature and the exact text it was
      made over, whatever the subject holds. */
  lemma SignatureReads(body: string, subject: string, counter: nat, node: Bytes, readds: seq<Bytes>, sig: Bytes)
    requires sig != [] && body == Body(subject, counter, node, readds)
    ensures SignedParts(Signed(body, sig)) == Some((sig, body))
  {
    hide Lines, Body, Trim;
    MessageLines(subject, counter, node, readds, sig);
    var b64 := Base64.encode(sig);
    var line := SIGNATURE + b64;
    var lines := Lines(subject + "\n\n") + TrailerLines(counter, node, readds) + [line];
    SignatureStarts(sig);
    assert lines[|lines| - 1] == line;
    assert line[|SIGNATURE|..] == b64;
    assert ReadsBack(Base64);
    VisibleIsTight(b64);
    TrimsNothing(b64);
    var suffix := SIGNATURE + b64 + "\n";
    assert Signed(body, sig) == body + suffix;
    assert (body + suffix)[|body|..] == suffix && (body + suffix)[..|body|] == body;
  }

  /** Fold commits and the root are never taken for edits. */
  lemma FoldsAreNotEdits()
    ensures MetaOf("csp: genesis\n") == None && MetaOf("csp: fold\n") == None
  {
    assert MetaOf("csp: genesis\n") == None by { GenesisIsNoEdit(); }
    assert MetaOf("csp: fold\n") == None by { FoldIsNoEdit(); }
  }

  lemma GenesisIsNoEdit()
    ensures MetaOf("csp: genesis\n") == None
  {
    hide MetaOf;
    var line := "csp: genesis";
    assert forall i :: 0 <= i < |line| ==> line[i] as int >= 0x20;
    NoTrailer(line);
    assert line + "\n" == "csp: genesis\n";
  }

  lemma FoldIsNoEdit()
    ensures MetaOf("csp: fold\n") == None
  {
    hide MetaOf;
    var line := "csp: fold";
    assert forall i :: 0 <= i < |line| ==> line[i] as int >= 0x20;
    NoTrailer(line);
    assert line + "\n" == "csp: fold\n";
  }

  lemma NoTrailer(line: string)
    requires line != "" && line[0] == 'c' && Plain(line)
    ensures MetaOf(line + "\n") == None
  {
    hide Lines;
    OneLine(line);
    LinesOfUnlines([line]);
    assert COUNTER[0] == 'C' && NODE[0] == 'C';
    SameAt(line, COUNTER, 0);
    SameAt(line, NODE, 0);
    MetaOneMore(Meta(None, None), [], line);
    assert [] + [line] == [line];
  }

  // ---- Messages as fields, and as text ----

  predicate AreBytes(s: seq<nat>) {
    forall i :: 0 <= i < |s| ==> s[i] < 256
  }

  /** An edit as a node writes it: a 32-byte author, 20-byte ids, a signature, a 64-bit counter. */
  predicate Writable(m: Message) {
    && m.Edit? && m.counter < U64_LIMIT && m.subject == EDIT_SUBJECT
    && AreBytes(m.node) && |m.node| == 32 && AreBytes(m.signature) && m.signature != []
    && forall i :: 0 <= i < |m.readds| ==> AreBytes(m.readds[i]) && |m.readds[i]| == 20
  }

  function UnsignedText(m: Message): string
    requires Writable(m)
  {
    Body(m.subject, m.counter, m.node, m.readds)
  }

  function TextOf(m: Message): string
    requires Writable(m)
  {
    Signed(UnsignedText(m), m.signature)
  }

  /** The text of an edit carries exactly its fields: everything the engine reads out of a message
      is what the node put in. */
  lemma FieldsReadBack(m: Message)
    requires Writable(m)
    ensures MetaOf(TextOf(m)) == Some((m.counter, m.node))
    ensures ReaddLines(Lines(TextOf(m))) == m.readds
    ensures SignedParts(TextOf(m)) == Some((m.signature, UnsignedText(m)))
  {
    hide Lines, Body, Signed, MetaOf, ReaddLines, SignedParts;
    MetaReads(m.subject, m.counter, m.node, m.readds, m.signature);
    ReaddsReadBack(m.subject, m.counter, m.node, m.readds, m.signature);
    SubjectHasNoReadds();
    SignatureReads(UnsignedText(m), m.subject, m.counter, m.node, m.readds, m.signature);
  }

  lemma SubjectHasNoReadds()
    ensures ReaddLines(Lines(EDIT_SUBJECT + "\n\n")) == []
  {
    hide Lines;
    var s := EDIT_SUBJECT + "\n\n";
    LinesSplit(EDIT_SUBJECT, "\n");
    assert s == EDIT_SUBJECT + "\n" + "\n";
    OneLine(EDIT_SUBJECT);
    LinesOfUnlines([EDIT_SUBJECT]);
    OneLine("");
    LinesOfUnlines([""]);
    assert "" + "\n" == "\n";
    NoReadd(EDIT_SUBJECT);
    ReaddsAppend([EDIT_SUBJECT], [""]);
    assert [""][..0] == [];
  }

  /** Equal texts mean equal fields, so signing the text signs the fields. */
  lemma TextDeterminesFields(m: Message, m': Message)
    requires Writable(m) && Writable(m') && TextOf(m) == TextOf(m')
    ensures m == m'
  {
    hide Lines, MetaOf, ReaddLines, SignedParts, TextOf, UnsignedText;
    FieldsReadBack(m);
    FieldsReadBack(m');
  }
}
