/** The string decoder of `json.c`: what a string decodes to, and the loop that writes it into a caller's buffer. */
module JsonStrings {
  import opened Bytes
  import opened JsonGrammar
  import opened JsonMembers
  import opened Utf8

  // ---- Decoding ---------------------------------------------------------------------------

  datatype Text = NoText | Text(bytes: seq<byte>)

  /** What one character of a string body decodes to, and where the next one starts. */
  datatype Piece = BadPiece | Piece(bytes: seq<byte>, next: nat)

  predicate Hex4(s: seq<byte>, i: nat) {
    i + 4 <= |s| && IsHex(s[i]) && IsHex(s[i + 1]) && IsHex(s[i + 2]) && IsHex(s[i + 3])
  }

  function Unit(s: seq<byte>, i: nat): (u: nat)
    requires Hex4(s, i)
    ensures u <= 0xFFFF
  {
    HexUnit(s[i], s[i + 1], s[i + 2], s[i + 3])
  }

  /** The code point of a surrogate pair (section 7 of RFC 8259). */
  function Paired(high: nat, low: nat): Scalar
    requires 0xD800 <= high <= 0xDBFF && 0xDC00 <= low <= 0xDFFF
  {
    0x10000 + (high - 0xD800) * 0x400 + (low - 0xDC00)
  }

  function UnicodePiece(s: seq<byte>, i: nat): (p: Piece)
    requires i + 1 < |s|
    ensures p.Piece? ==> i < p.next <= |s|
  {
    if !Hex4(s, i + 2) then BadPiece else
    var u := Unit(s, i + 2);
    if 0xD800 <= u <= 0xDBFF then
      if i + 8 <= |s| && s[i + 6] == BACKSLASH && s[i + 7] == LOWER_U && Hex4(s, i + 8)
         && 0xDC00 <= Unit(s, i + 8) <= 0xDFFF
      then Piece(Encode(Paired(u, Unit(s, i + 8))), i + 12) else BadPiece
    else if 0xDC00 <= u <= 0xDFFF || u < 0x20 then BadPiece
    else Piece(Encode(u), i + 6)
  }

  /** No character below 0x20 decodes, not even one written as an escape. */
  function PieceAt(s: seq<byte>, i: nat): (p: Piece)
    requires i < |s| && s[i] != QUOTE
    ensures p.Piece? ==> i < p.next <= |s|
  {
    if s[i] != BACKSLASH then
      if s[i] < 0x20 then BadPiece else Piece([s[i]], i + 1)
    else if i + 1 >= |s| then BadPiece
    else if s[i + 1] == LOWER_U then UnicodePiece(s, i)
    else if s[i + 1] == QUOTE || s[i + 1] == BACKSLASH || s[i + 1] == SLASH then Piece([s[i + 1]], i + 2)
    else BadPiece
  }

  /** The decoded characters from `i` to the closing quotation mark. */
  function DecodeFrom(s: seq<byte>, i: nat): Text
    requires i <= |s|
    decreases |s| - i
  {
    if i >= |s| then NoText
    else if s[i] == QUOTE then Text([])
    else
      var p := PieceAt(s, i);
      if p.BadPiece? then NoText else
      var rest := DecodeFrom(s, p.next);
      if rest.NoText? then NoText else Text(p.bytes + rest.bytes)
  }

  /** The string that starts with a quotation mark at `i`. */
  function Decode(s: seq<byte>, i: nat): Text {
    if i < |s| && s[i] == QUOTE then DecodeFrom(s, i + 1) else NoText
  }

  /** `append_codepoint`: the UTF-8 form of a code point, when it and a terminator still fit. */
  method AppendCodepoint(out: array<byte>, used: nat, codepoint: nat) returns (ok: bool, more: nat)
    requires used <= out.Length && codepoint <= MAX_SCALAR
    modifies out
    ensures ok == (used + |Encode(codepoint)| + 1 <= out.Length)
    ensures !ok ==> more == used && out[..] == old(out[..])
    ensures ok ==> more == used + |Encode(codepoint)| && out[..more] == old(out[..used]) + Encode(codepoint)
  {
    var width := if codepoint <= 0x7F then 1
                 else if codepoint <= 0x7FF then 2
                 else if codepoint <= 0xFFFF then 3
                 else 4;
    if used + width + 1 > out.Length { return false, used; }
    if width == 1 {
      out[used] := codepoint;
    } else if width == 2 {
      out[used] := 0xC0 + codepoint / 0x40;
      out[used + 1] := 0x80 + codepoint % 0x40;
    } else if width == 3 {
      out[used] := 0xE0 + codepoint / 0x1000;
      out[used + 1] := 0x80 + codepoint / 0x40 % 0x40;
      out[used + 2] := 0x80 + codepoint % 0x40;
    } else {
      out[used] := 0xF0 + codepoint / 0x40000;
      out[used + 1] := 0x80 + codepoint / 0x1000 % 0x40;
      out[used + 2] := 0x80 + codepoint / 0x40 % 0x40;
      out[used + 3] := 0x80 + codepoint % 0x40;
    }
    return true, used + width;
  }

  /** How far a decoding loop has come: `done` decoded bytes before `i`, all of them in the buffer. */
  ghost predicate Decoding(s: seq<byte>, start: nat, i: nat, done: seq<byte>) {
    && start <= |s| && i <= |s|
    && DecodeFrom(s, start) ==
       if DecodeFrom(s, i).NoText? then NoText else Text(done + DecodeFrom(s, i).bytes)
  }

  /** One piece further; nothing is decoded in full without it. */
  lemma DecodeStep(s: seq<byte>, start: nat, i: nat, done: seq<byte>)
    requires Decoding(s, start, i, done) && i < |s| && s[i] != QUOTE
    ensures PieceAt(s, i).BadPiece? ==> DecodeFrom(s, start) == NoText
    ensures PieceAt(s, i).Piece? ==>
              var p := PieceAt(s, i);
              && Decoding(s, start, p.next, done + p.bytes)
              && (DecodeFrom(s, start).Text? ==> |DecodeFrom(s, start).bytes| >= |done| + |p.bytes|)
  {
    hide PieceAt;
    var p := PieceAt(s, i);
    if p.Piece? && DecodeFrom(s, p.next).Text? {
      assert done + (p.bytes + DecodeFrom(s, p.next).bytes) == (done + p.bytes) + DecodeFrom(s, p.next).bytes;
    }
  }

  lemma DecodeStart(s: seq<byte>, start: nat)
    requires start <= |s|
    ensures Decoding(s, start, start, [])
  {
    if DecodeFrom(s, start).Text? {
      assert [] + DecodeFrom(s, start).bytes == DecodeFrom(s, start).bytes;
    }
  }

  /**
   * `json_get_string_at` on a C string: fails unless the whole string decodes and fits with its
   * terminator.
   */
  method GetStringAt(s: seq<byte>, i: nat, out: array<byte>) returns (ok: bool)
    modifies out
    ensures ok == (Decode(s, i).Text? && |Decode(s, i).bytes| + 1 <= out.Length)
    ensures ok ==> var v := Decode(s, i).bytes; out[..|v|] == v && out[|v|] == 0
  {
    hide PieceAt, DecodeFrom, Utf8.Encode, Decoding;
    if out.Length == 0 || i >= |s| || s[i] != QUOTE { return false; }
    var p, used := i + 1, 0;
    ghost var start, done := p, [];
    DecodeStart(s, start);
    while p < |s| && s[p] != QUOTE
      invariant start <= p <= |s| && Decoding(s, start, p, done)
      invariant used == |done| < out.Length && out[..used] == done
      decreases |s| - p
    {
      DecodeStep(s, start, p, done);
      ghost var piece := PieceAt(s, p);
      PieceCases(s, p);
      var c := s[p];
      if c == BACKSLASH {
        if p + 1 >= |s| { return false; }
        c := s[p + 1];
        if c == LOWER_U {
          var codepoint, next := ReadCodepoint(s, p);
          if codepoint < 0 { return false; }
          ok, used := AppendCodepoint(out, used, codepoint);
          if !ok { return false; }
          p := next;
          done := done + piece.bytes;
          continue;
        }
        if c == LOWER_N { c := LF; }
        else if c == LOWER_R { c := CR; }
        else if c == LOWER_T { c := TAB; }
        else if c == LOWER_B { c := 8; }
        else if c == LOWER_F { c := 12; }
        else if c != QUOTE && c != BACKSLASH && c != SLASH { return false; }
        p := p + 1;
      }
      p := p + 1;
      if c < 0x20 || used + 2 > out.Length { return false; }
      out[used] := c;
      used := used + 1;
      done := done + piece.bytes;
    }
    DecodeEnd(s, start, p, done);
    if p >= |s| { return false; }
    out[used] := 0;
    return true;
  }

  lemma DecodeEnd(s: seq<byte>, start: nat, i: nat, done: seq<byte>)
    requires Decoding(s, start, i, done) && (i < |s| ==> s[i] == QUOTE)
    ensures DecodeFrom(s, start) == if i < |s| then Text(done) else NoText
  {
    assert done + [] == done;
  }

  /** The cases of the loop body. */
  lemma PieceCases(s: seq<byte>, p: nat)
    requires p < |s| && s[p] != QUOTE
    ensures s[p] != BACKSLASH ==> PieceAt(s, p) == if s[p] < 0x20 then BadPiece else Piece([s[p]], p + 1)
    ensures s[p] == BACKSLASH && p + 1 >= |s| ==> PieceAt(s, p) == BadPiece
    ensures s[p] == BACKSLASH && p + 1 < |s| ==>
              var c := s[p + 1];
              PieceAt(s, p) == if c == LOWER_U then UnicodePiece(s, p)
                               else if c == QUOTE || c == BACKSLASH || c == SLASH then Piece([c], p + 2)
                               else BadPiece
  {
  }

  /** A `\u` escape and, behind a high surrogate, its partner; -1 when they do not decode. */
  method ReadCodepoint(s: seq<byte>, p: nat) returns (codepoint: int, next: nat)
    requires p + 1 < |s|
    ensures codepoint < 0 <==> UnicodePiece(s, p).BadPiece?
    ensures codepoint >= 0 ==> codepoint <= MAX_SCALAR && UnicodePiece(s, p) == Piece(Utf8.Encode(codepoint), next)
  {
    hide Utf8.Encode;
    if p + 6 > |s| { return -1, p; }
    var h0, h1, h2, h3 := HexValue(s[p + 2]), HexValue(s[p + 3]), HexValue(s[p + 4]), HexValue(s[p + 5]);
    if h0 < 0 || h1 < 0 || h2 < 0 || h3 < 0 { return -1, p; }
    codepoint, next := h0 * 0x1000 + h1 * 0x100 + h2 * 0x10 + h3, p + 6;
    if 0xD800 <= codepoint <= 0xDBFF {
      if p + 12 > |s| || s[p + 6] != BACKSLASH || s[p + 7] != LOWER_U { return -1, p; }
      var l0, l1, l2, l3 := HexValue(s[p + 8]), HexValue(s[p + 9]), HexValue(s[p + 10]), HexValue(s[p + 11]);
      if l0 < 0 || l1 < 0 || l2 < 0 || l3 < 0 { return -1, p; }
      var low := l0 * 0x1000 + l1 * 0x100 + l2 * 0x10 + l3;
      if low < 0xDC00 || low > 0xDFFF { return -1, p; }
      codepoint, next := 0x10000 + (codepoint - 0xD800) * 0x400 + (low - 0xDC00), p + 12;
    } else if 0xDC00 <= codepoint <= 0xDFFF {
      return -1, p;
    }
    if codepoint < 0x20 || codepoint > MAX_SCALAR { return -1, p; }
  }
}
