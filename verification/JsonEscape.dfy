/** The truncating escaper, what the parser and the decoder make of its output, and UTF-8 through the decoder. */
module JsonEscape {
  import opened Bytes
  import opened JsonGrammar
  import opened JsonRecogniser
  import opened JsonCorrect
  import opened JsonMembers
  import opened JsonStrings
  import opened Utf8

  function HexDigit(v: nat): byte
    requires v < 16
  {
    if v < 10 then ZERO + v else 0x61 + (v - 10)
  }

  /** How one byte is written inside a JSON string. */
  function Escape(c: byte): (t: seq<byte>)
    ensures 1 <= |t| <= 6
  {
    if c == QUOTE || c == BACKSLASH then [BACKSLASH, c]
    else if c == LF then [BACKSLASH, LOWER_N]
    else if c == CR then [BACKSLASH, LOWER_R]
    else if c == TAB then [BACKSLASH, LOWER_T]
    else if c < 0x20 then [BACKSLASH, LOWER_U, ZERO, ZERO, HexDigit(c / 16), HexDigit(c % 16)]
    else [c]
  }

  function EscapeAll(s: seq<byte>): seq<byte> {
    if s == [] then [] else EscapeAll(s[..|s| - 1]) + Escape(s[|s| - 1])
  }

  /** `n` characters of `s` fit a buffer of `z` bytes with their terminator, and no longer prefix does. */
  ghost predicate LongestFit(s: seq<byte>, z: nat, n: nat) {
    && n <= |s| && |EscapeAll(s[..n])| + 1 <= z
    && forall m :: n < m <= |s| ==> |EscapeAll(s[..m])| + 1 > z
  }

  lemma EscapeOneMore(s: seq<byte>, n: nat)
    requires n < |s|
    ensures EscapeAll(s[..n + 1]) == EscapeAll(s[..n]) + Escape(s[n])
  {
    assert s[..n + 1][..n] == s[..n];
  }

  lemma {:induction false} EscapeGrows(s: seq<byte>, n: nat, m: nat)
    requires n <= m <= |s|
    ensures |EscapeAll(s[..n])| <= |EscapeAll(s[..m])|
    decreases m - n
  {
    if n < m {
      EscapeOneMore(s, m - 1);
      EscapeGrows(s, n, m - 1);
    }
  }

  /**
   * `json_escape`: writes the escape of the longest prefix that fits, terminated. `written` is
   * that prefix's length.
   */
  method JsonEscape(out: array<byte>, s: seq<byte>) returns (written: nat)
    requires out.Length >= 1
    modifies out
    ensures LongestFit(s, out.Length, written)
    ensures var text := EscapeAll(s[..written]); out[..|text|] == text && out[|text|] == 0
  {
    var n, i := 0, 0;
    assert s[..0] == [];
    while i < |s|
      invariant i <= |s| && n == |EscapeAll(s[..i])| < out.Length
      invariant out[..n] == EscapeAll(s[..i])
    {
      var c := s[i];
      var width := if c == QUOTE || c == BACKSLASH || c == LF || c == CR || c == TAB then 2
                   else if c < 0x20 then 6
                   else 1;
      EscapeOneMore(s, i);
      if n + width + 1 > out.Length {
        forall m | i < m <= |s| ensures |EscapeAll(s[..m])| + 1 > out.Length { EscapeGrows(s, i + 1, m); }
        break;
      }
      PutEscape(out, n, c);
      n := n + width;
      i := i + 1;
    }
    out[n] := 0;
    return i;
  }

  /** The writes for one byte. */
  method PutEscape(out: array<byte>, n: nat, c: byte)
    requires n + |Escape(c)| < out.Length
    modifies out
    ensures out[..n + |Escape(c)|] == old(out[..n]) + Escape(c)
  {
    if c == QUOTE || c == BACKSLASH {
      out[n], out[n + 1] := BACKSLASH, c;
    } else if c == LF {
      out[n], out[n + 1] := BACKSLASH, LOWER_N;
    } else if c == CR {
      out[n], out[n + 1] := BACKSLASH, LOWER_R;
    } else if c == TAB {
      out[n], out[n + 1] := BACKSLASH, LOWER_T;
    } else if c >= 0x20 {
      out[n] := c;
    } else {
      out[n], out[n + 1], out[n + 2], out[n + 3] := BACKSLASH, LOWER_U, ZERO, ZERO;
      out[n + 4], out[n + 5] := HexDigit(c / 16), HexDigit(c % 16);
    }
  }

  // ---- Round trip -------------------------------------------------------------------------

  predicate NoControls(s: seq<byte>) {
    forall k :: 0 <= k < |s| ==> s[k] >= 0x20
  }

  /** The escape text of one byte as a character of the grammar. */
  function EscapedChar(c: byte): Char {
    if c == QUOTE || c == BACKSLASH then Escaped(c)
    else if c == LF then Escaped(LOWER_N)
    else if c == CR then Escaped(LOWER_R)
    else if c == TAB then Escaped(LOWER_T)
    else if c < 0x20 then Unicode(ZERO, ZERO, HexDigit(c / 16), HexDigit(c % 16))
    else Raw(c)
  }

  function EscapedChars(s: seq<byte>): (cs: seq<Char>) {
    if s == [] then [] else [EscapedChar(s[0])] + EscapedChars(s[1..])
  }

  lemma EscapeLast(s: seq<byte>)
    requires s != []
    ensures EscapeAll(s) == EscapeAll(s[..|s| - 1]) + Escape(s[|s| - 1])
  {
  }

  lemma Regroup(a: seq<byte>, b: seq<byte>, c: seq<byte>)
    ensures (a + b) + c == a + (b + c)
  {
  }

  /** Reading the escape text from the front. */
  lemma {:induction false} EscapeFront(s: seq<byte>)
    requires s != []
    ensures EscapeAll(s) == Escape(s[0]) + EscapeAll(s[1..])
    decreases |s|
  {
    hide Escape;
    var n := |s|;
    if n == 1 {
      assert s[..0] == [] && s[1..] == [];
    } else {
      hide EscapeAll;
      var front, last := s[..n - 1], Escape(s[n - 1]);
      EscapeFront(front);
      EscapeLast(s);
      EscapeLast(s[1..]);
      assert front[1..] == s[1..][..n - 2];
      Regroup(Escape(s[0]), EscapeAll(front[1..]), last);
    }
  }

  lemma {:induction false} EscapeRenders(s: seq<byte>)
    ensures CharsOk(EscapedChars(s)) && RenderChars(EscapedChars(s)) == EscapeAll(s) + [QUOTE]
    decreases |s|
  {
    if s != [] {
      EscapeFront(s);
      EscapeRenders(s[1..]);
      assert EscapedChars(s)[1..] == EscapedChars(s[1..]);
    }
  }

  /** The escape of every byte, controls included, stands for that byte to a parser that resolves all escapes. */
  lemma {:induction false} EscapeSpells(s: seq<byte>)
    ensures Spells(EscapedChars(s), s)
    decreases |s|
  {
    hide Decoded, EscapedChar;
    if s != [] {
      EscapeSpells(s[1..]);
      EscapedDecodes(s[0]);
      assert s == [s[0]] + s[1..];
    }
  }

  lemma EscapedDecodes(c: byte)
    ensures Decoded(EscapedChar(c)) == c
  {
    if c < 0x20 {
      HexDigitReads(c / 16);
      HexDigitReads(c % 16);
    }
  }

  lemma HexDigitReads(v: nat)
    requires v < 16
    ensures HexValue(HexDigit(v)) == v
  {
  }

  /** Between quotation marks, every escape text is one string of the grammar, whole. */
  lemma EscapeParses(text: seq<byte>, i: nat, s: seq<byte>)
    requires Occurs(text, i, [QUOTE] + (EscapeAll(s) + [QUOTE]))
    ensures i <= |text| && ScanString(text, i) == At(i + |EscapeAll(s)| + 2)
  {
    OccursBound(text, i, [QUOTE] + (EscapeAll(s) + [QUOTE]));
    EscapeRenders(s);
    StringComplete(text, i, EscapedChars(s));
  }

  lemma {:induction false} EscapeDecodes(text: seq<byte>, i: nat, s: seq<byte>)
    requires Occurs(text, i, EscapeAll(s) + [QUOTE])
    ensures i <= |text|
    ensures DecodeFrom(text, i) == if NoControls(s) then Text(s) else NoText
    decreases |s|
  {
    hide Occurs, PieceAt, Escape, NoControls;
    OccursBound(text, i, EscapeAll(s) + [QUOTE]);
    if s == [] {
      assert EscapeAll(s) + [QUOTE] == [QUOTE];
      assert NoControls(s) by { NoControlsNil(); }
      OccursOne(text, i, QUOTE);
    } else {
      var c, t := s[0], s[1..];
      EscapeFront(s);
      assert EscapeAll(s) + [QUOTE] == Escape(c) + (EscapeAll(t) + [QUOTE]);
      OccursConcat(text, i, Escape(c), EscapeAll(t) + [QUOTE]);
      EscapeDecodes(text, i + |Escape(c)|, t);
      EscapedPiece(text, i, c);
      NoControlsFront(s);
    }
  }

  lemma NoControlsNil()
    ensures NoControls([])
  {
  }

  lemma NoControlsFront(s: seq<byte>)
    requires s != []
    ensures NoControls(s) <==> s[0] >= 0x20 && NoControls(s[1..])
    ensures s == [s[0]] + s[1..]
  {
    if s[0] >= 0x20 && NoControls(s[1..]) {
      forall k | 0 <= k < |s| ensures s[k] >= 0x20 { if k > 0 { assert s[k] == s[1..][k - 1]; } }
    }
  }

  lemma EscapedPiece(text: seq<byte>, i: nat, c: byte)
    requires Occurs(text, i, Escape(c))
    ensures i + |Escape(c)| <= |text| && text[i] != QUOTE
    ensures PieceAt(text, i) == if c >= 0x20 then Piece([c], i + |Escape(c)|) else BadPiece
  {
    var e := Escape(c);
    OccursAt(text, i, e, 0);
    if |e| > 1 { OccursAt(text, i, e, 1); }
    if |e| > 2 {
      OccursAt(text, i, e, 2);
      OccursAt(text, i, e, 3);
      OccursAt(text, i, e, 4);
      OccursAt(text, i, e, 5);
      assert Unit(text, i + 2) == c;
    }
  }

  /**
   * Escaping and decoding: for every string and every buffer, the quoted output parses, and it
   * decodes to the prefix that was written exactly when that prefix has no byte below 0x20.
   */
  lemma RoundTrip(text: seq<byte>, i: nat, s: seq<byte>, z: nat, n: nat)
    requires LongestFit(s, z, n) && Occurs(text, i, [QUOTE] + (EscapeAll(s[..n]) + [QUOTE]))
    ensures i <= |text| && ScanString(text, i) == At(i + |EscapeAll(s[..n])| + 2)
    ensures Decode(text, i) == if NoControls(s[..n]) then Text(s[..n]) else NoText
  {
    var p := s[..n];
    EscapeParses(text, i, p);
    OccursConcat(text, i, [QUOTE], EscapeAll(p) + [QUOTE]);
    OccursOne(text, i, QUOTE);
    EscapeDecodes(text, i + 1, p);
  }

  /** The full round trip fails for a string as plain as one line feed. */
  lemma LineFeedDoesNotReturn()
    ensures EscapeAll([LF]) == [BACKSLASH, LOWER_N]
    ensures Decode([QUOTE] + (EscapeAll([LF]) + [QUOTE]), 0) == NoText
  {
    var text := [QUOTE] + (EscapeAll([LF]) + [QUOTE]);
    assert [LF][..0] == [];
    assert EscapeAll([LF]) == [] + Escape(LF);
    OccursWhole(text);
    OccursConcat(text, 0, [QUOTE], EscapeAll([LF]) + [QUOTE]);
    EscapeDecodes(text, 1, [LF]);
    assert !NoControls([LF]) by { assert [LF][0] < 0x20; }
  }

  // ---- UTF-8 through the decoder ----------------------------------------------------------

  lemma AsciiStep(s: seq<byte>, i: nat, end: nat)
    requires i < end <= |s| && ValidTo(s, i, end) && s[i] < 0x80
    ensures ValidTo(s, i + 1, end)
  {
  }

  lemma AsciiSteps(s: seq<byte>, i: nat, j: nat, end: nat)
    requires i <= j <= end <= |s| && ValidTo(s, i, end) && forall k :: i <= k < j ==> s[k] < 0x80
    ensures ValidTo(s, j, end)
    decreases j - i
  {
    if i < j {
      AsciiStep(s, i, end);
      AsciiSteps(s, i + 1, j, end);
    }
  }

  /** Bytes above 0x7F decode to themselves, one by one. */
  lemma {:induction false} RawRun(s: seq<byte>, i: nat, j: nat)
    requires i <= j <= |s| && forall k :: i <= k < j ==> s[k] >= 0x80
    ensures DecodeFrom(s, i).Text? <==> DecodeFrom(s, j).Text?
    ensures DecodeFrom(s, i).Text? ==> DecodeFrom(s, i).bytes == s[i..j] + DecodeFrom(s, j).bytes
    ensures ScanChars(s, i) == ScanChars(s, j)
    decreases j - i
  {
    hide DecodeFrom, ScanChars;
    if i < j {
      RawByte(s, i);
      RawRun(s, i + 1, j);
      assert s[i..j] == [s[i]] + s[i + 1..j];
    } else {
      assert s[i..j] == [];
    }
  }

  lemma RawByte(s: seq<byte>, i: nat)
    requires i < |s| && s[i] >= 0x80
    ensures DecodeFrom(s, i).Text? <==> DecodeFrom(s, i + 1).Text?
    ensures DecodeFrom(s, i).Text? ==> DecodeFrom(s, i).bytes == [s[i]] + DecodeFrom(s, i + 1).bytes
    ensures ScanChars(s, i) == ScanChars(s, i + 1)
  {
  }

  /** A piece of the decoder is a step of the scan. */
  lemma PieceScans(s: seq<byte>, i: nat)
    requires i < |s| && s[i] != QUOTE && PieceAt(s, i).Piece?
    ensures ScanChars(s, i) == ScanChars(s, PieceAt(s, i).next)
  {
    if s[i] == BACKSLASH && s[i + 1] == LOWER_U {
      assert ScanChars(s, i) == ScanChars(s, i + 6);
    }
  }

  lemma AsciiEncodes()
    ensures forall c: byte :: c < 0x80 ==> Encode(c) == [c]
  {
  }

  /** An escape is ASCII and decodes to whole encodings. */
  lemma EscapePiece(s: seq<byte>, i: nat) returns (c: Scalar)
    requires i < |s| && s[i] != QUOTE && s[i] < 0x80 && PieceAt(s, i).Piece?
    ensures PieceAt(s, i).bytes == Encode(c)
    ensures forall k :: i <= k < PieceAt(s, i).next ==> s[k] < 0x80
  {
    hide HexUnit, Encode;
    AsciiEncodes();
    if s[i] != BACKSLASH {
      c := s[i];
    } else if s[i + 1] != LOWER_U {
      c := s[i + 1];
    } else {
      var u := Unit(s, i + 2);
      c := if 0xD800 <= u <= 0xDBFF then Paired(u, Unit(s, i + 8)) else u;
    }
  }

  /** Well-formed UTF-8 between the quotation marks decodes to well-formed UTF-8. */
  lemma {:induction false} DecodeKeepsUtf8(s: seq<byte>, i: nat, end: nat)
    requires i <= end < |s| && ScanChars(s, i) == At(end + 1)
    requires ValidTo(s, i, end) && DecodeFrom(s, i).Text?
    ensures WellFormed(DecodeFrom(s, i).bytes)
    decreases |s| - i
  {
    hide WellFormed, Encode;
    if s[i] == QUOTE {
      EmptyWellFormed();
    } else if s[i] < 0x80 {
      var p := PieceAt(s, i);
      var c := EscapePiece(s, i);
      PieceScans(s, i);
      ScanEnds(s, p.next);
      AsciiSteps(s, i, p.next, end);
      DecodeKeepsUtf8(s, p.next, end);
      Prepend(c, DecodeFrom(s, p.next).bytes);
    } else {
      ScanEnds(s, i);
      var n := UnitLength(s, i, end);
      var c := UnitSound(s, i, end);
      HighBytes(s, i, end);
      RawRun(s, i, i + n);
      DecodeKeepsUtf8(s, i + n, end);
      Prepend(c, DecodeFrom(s, i + n).bytes);
    }
  }

  lemma EmptyWellFormed()
    ensures WellFormed([])
  {
    assert EncodeAll([]) == [];
  }

  lemma HighBytes(s: seq<byte>, i: nat, end: nat)
    requires i < end <= |s| && s[i] >= 0x80 && UnitLength(s, i, end) > 0
    ensures forall k :: i <= k < i + UnitLength(s, i, end) ==> s[k] >= 0x80
  {
  }

  lemma ScanEnds(s: seq<byte>, i: nat)
    requires i <= |s| && ScanChars(s, i).At?
    ensures i < ScanChars(s, i).next
    ensures s[i] != QUOTE ==> i < ScanChars(s, i).next - 1
  {
  }

  /** The same for a whole string literal: its raw bytes are well formed, so is what it decodes to. */
  lemma StringKeepsUtf8(s: seq<byte>, i: nat)
    requires i < |s| && ScanString(s, i).At? && Decode(s, i).Text?
    requires WellFormed(s[i + 1..ScanString(s, i).next - 1])
    ensures WellFormed(Decode(s, i).bytes)
  {
    hide ScanChars, DecodeFrom, ValidTo;
    ScanEnds(s, i + 1);
    var end := ScanString(s, i).next - 1;
    var body := s[i + 1..end];
    var cs: seq<Scalar> :| EncodeAll(cs) == body;
    assert Occurs(s, i + 1, body);
    ValidComplete(s, i + 1, cs);
    DecodeKeepsUtf8(s, i + 1, end);
  }
}
