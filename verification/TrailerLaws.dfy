/** What a message must hold to be an edit, what its signature covers, and how it is written, in so many
    characters (identity.rs). */
module TrailerLaws {
  import opened Prelude
  import opened Objects
  import opened Text
  import opened Trailers

  // ---- Reading ----

  /** A signature covers everything before its own line, and that line is the last of the text: nothing can
      be added after it, and nothing before it is left out. */
  lemma SignedCoversAll(text: string)
    requires SignedParts(text).Some?
    ensures var (sig, body) := SignedParts(text).value;
      exists b64 :: text == body + "CSP-Signature: " + b64 + "\n" && Base64.decode(Trim(b64)) == Some(sig)
  {
    hide Lines, SignatureLine, Trim;
    var line := SignatureLine(Lines(text)).value;
    var b64 := line[if |SIGNATURE| <= |line| then |SIGNATURE| else |line|..];
    var (sig, body) := SignedParts(text).value;
    assert text == body + (SIGNATURE + b64 + "\n");
    assert text == body + "CSP-Signature: " + b64 + "\n" && Base64.decode(Trim(b64)) == Some(sig);
  }

  /** Counter and author of an edit each stand on a line of their own, fit their width, and only such lines
      give them. */
  lemma EditHasBoth(text: string)
    requires MetaOf(text).Some?
    ensures var (counter, node) := MetaOf(text).value;
      && counter < U64_LIMIT && |node| == 32
      && (exists line :: line in Lines(text) && "CSP-Counter: " <= line && ReadCounter(line[13..]) == Some(counter))
      && (exists line :: line in Lines(text) && "CSP-Node: " <= line && UnHex(Trim(line[10..])) == Some(node))
  {
    hide Lines, ReadCounter, UnHex, Trim, MetaLines;
    var m := MetaLines(Meta(None, None), Lines(text));
    FoundIn(Lines(text));
    CounterFits(m.counter.value, Lines(text));
  }

  lemma {:induction false} FoundIn(lines: seq<string>)
    ensures var m := MetaLines(Meta(None, None), lines);
      && (m.counter.Some? ==> exists line :: line in lines && "CSP-Counter: " <= line && ReadCounter(line[13..]) == m.counter)
      && (m.node.Some? ==> |m.node.value| == 32)
      && (m.node.Some? ==> exists line :: line in lines && "CSP-Node: " <= line && UnHex(Trim(line[10..])) == m.node)
  {
    hide ReadCounter, UnHex, Trim;
    if lines != [] {
      var k := |lines| - 1;
      FoundIn(lines[..k]);
      assert forall line :: line in lines[..k] ==> line in lines;
      assert lines[k] in lines && |COUNTER| == 13 && |NODE| == 10;
    }
  }

  lemma CounterFits(counter: nat, lines: seq<string>)
    requires exists line :: line in lines && "CSP-Counter: " <= line && ReadCounter(line[13..]) == Some(counter)
    ensures counter < U64_LIMIT
  {
  }

  // ---- Writing ----

  /** A message as it is written, with and without an undone delete. */
  lemma WrittenText(subject: string, counter: nat, node: Bytes, readd: Bytes, sig: Bytes)
    ensures Signed(Body(subject, counter, node, []), sig) ==
      subject + "\n\n" + "CSP-Counter: " + Decimal(counter) + "\n" + "CSP-Node: " + Hex(node) + "\n" + "CSP-Signature: " + Base64.encode(sig) + "\n"
    ensures Signed(Body(subject, counter, node, [readd]), sig) ==
      subject + "\n\n" + "CSP-Counter: " + Decimal(counter) + "\n" + "CSP-Node: " + Hex(node) + "\n"
      + ("CSP-Readd: " + Hex(readd) + "\n") + "CSP-Signature: " + Base64.encode(sig) + "\n"
  {
    hide Hex, Decimal;
    assert [readd][1..] == [];
    assert ReaddTexts([readd]) == "CSP-Readd: " + Hex(readd) + "\n";
    var front := subject + "\n\n" + "CSP-Counter: " + Decimal(counter) + "\n" + "CSP-Node: " + Hex(node) + "\n";
    assert front + "" == front;
  }

  /** Bytes are written as two lower-case digits each, the high one first. */
  lemma HexText(b: Byte, rest: Bytes)
    ensures Hex([b] + rest) == ["0123456789abcdef"[b / 16], "0123456789abcdef"[b % 16]] + Hex(rest)
  {
    hide Hex;
    HexFirst(b, rest);
    DigitIs(b / 16);
    DigitIs(b % 16);
  }

  lemma HexFirst(b: Byte, rest: Bytes)
    ensures Hex([b] + rest) == [LowerDigit(b / 16), LowerDigit(b % 16)] + Hex(rest)
  {
    assert ([b] + rest)[1..] == rest;
  }

  lemma DigitIs(n: nat)
    requires n < 16
    ensures LowerDigit(n) == "0123456789abcdef"[n]
  {
  }
}
