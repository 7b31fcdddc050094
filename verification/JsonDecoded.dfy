/** What a string of the grammar decodes to, character by character, apart from the code that decodes it. */
module JsonDecoded {
  import opened Bytes
  import opened JsonGrammar
  import opened JsonRecogniser
  import opened JsonCorrect
  import opened JsonMembers
  import opened JsonStrings
  import opened Utf8

  // ---- UTF-8 ------------------------------------------------------------------------------

  /** What a leading byte holds, by the number of bytes it announces; -1 for any other. */
  function Lead(b: int, length: nat): int {
    if length == 1 && b < 128 then b
    else if length == 2 && 192 <= b < 224 then b - 192
    else if length == 3 && 224 <= b < 240 then b - 224
    else if length == 4 && 240 <= b < 248 then b - 240
    else -1
  }

  /** The value of a leading byte and the first `n` of the bytes that continue it, six bits each. */
  function Prefix(t: seq<byte>, n: nat): int
    requires n < |t|
  {
    if n == 0 then Lead(t[0], |t|)
    else if Prefix(t, n - 1) < 0 || !(128 <= t[n] < 192) then -1
    else Prefix(t, n - 1) * 64 + (t[n] as int - 128)
  }

  /** The scalar value that one to four bytes stand for (section 3 of RFC 3629); -1 for other bytes. */
  function ScalarOf(t: seq<byte>): int {
    if t == [] then -1 else Prefix(t, |t| - 1)
  }

  lemma SixBits(c: nat)
    ensures c == c / 0x40 * 64 + c % 0x40
    ensures c / 0x40 == c / 0x1000 * 64 + c / 0x40 % 0x40
    ensures c / 0x1000 == c / 0x40000 * 64 + c / 0x1000 % 0x40
  {
    assert c / 0x40 / 0x40 == c / 0x1000;
    assert c / 0x1000 / 0x40 == c / 0x40000;
  }

  /** An encoding stands for its scalar value, in as few bytes as can. */
  lemma EncodeMeans(c: Scalar)
    ensures ScalarOf(Encode(c)) == c
    ensures |Encode(c)| == if c <= 0x7F then 1 else if c <= 0x7FF then 2 else if c <= 0xFFFF then 3 else 4
  {
    SixBits(c);
    var t := Encode(c);
    if |t| >= 2 { assert Prefix(t, 0) == t[0] - (if |t| == 2 then 192 else if |t| == 3 then 224 else 240); }
    if |t| >= 3 { assert Prefix(t, 1) == if |t| == 3 then c / 0x40 else c / 0x1000; }
    if |t| >= 4 { assert Prefix(t, 2) == c / 0x40; }
  }

  lemma LastSix(c: int, q: int, r: int)
    requires 0 <= r < 64 && c == q * 64 + r
    ensures q == c / 64 && r == c % 64
  {
  }

  /** Bytes of one length that stand for the same value are the same bytes. */
  lemma {:induction false} PrefixUnique(t: seq<byte>, u: seq<byte>, n: nat)
    requires |t| == |u| && n < |t| && Prefix(t, n) == Prefix(u, n) >= 0
    ensures t[..n + 1] == u[..n + 1]
    decreases n
  {
    hide Lead;
    if n > 0 {
      LastSix(Prefix(t, n), Prefix(t, n - 1), t[n] as int - 128);
      LastSix(Prefix(u, n), Prefix(u, n - 1), u[n] as int - 128);
      PrefixUnique(t, u, n - 1);
      assert t[..n + 1] == t[..n] + [t[n]] && u[..n + 1] == u[..n] + [u[n]];
    } else {
      LeadUnique(t[0], u[0], |t|);
    }
  }

  lemma LeadUnique(a: byte, b: byte, length: nat)
    requires Lead(a, length) == Lead(b, length) >= 0
    ensures a == b
  {
  }

  /** Nothing else of its length stands for the same value. */
  lemma EncodeOnly(c: Scalar, t: seq<byte>)
    requires ScalarOf(t) == c && |t| == |Encode(c)|
    ensures t == Encode(c)
  {
    hide Encode, Prefix;
    EncodeMeans(c);
    PrefixUnique(t, Encode(c), |t| - 1);
    assert t[..|t|] == t && Encode(c)[..|t|] == Encode(c);
  }

  // ---- Escapes ----------------------------------------------------------------------------

  /** All 22 digits. */
  lemma HexDigitsMean(v: nat)
    ensures v < 16 ==> HexValue("0123456789abcdef"[v] as int) == v
    ensures v < 16 ==> HexValue("0123456789ABCDEF"[v] as int) == v
    ensures forall b: byte :: HexValue(b) < 0 <==> !IsHex(b)
  {
    if v < 16 {
      LowerDigit(v);
      UpperDigit(v);
    }
  }

  lemma LowerDigit(v: nat)
    requires v < 16
    ensures "0123456789abcdef"[v] as int == if v < 10 then 48 + v else 97 + (v - 10)
  {
  }

  lemma UpperDigit(v: nat)
    requires v < 16
    ensures "0123456789ABCDEF"[v] as int == if v < 10 then 48 + v else 65 + (v - 10)
  {
  }

  /** The number of a hexadecimal digit. */
  function DigitOf(b: byte): int {
    if 48 <= b <= 57 then b - 48 else if 97 <= b <= 102 then b - 87 else if 65 <= b <= 70 then b - 55 else -1
  }

  /** The number of four digits, most significant first. */
  function FourDigits(c: Char): int
    requires c.Unicode?
  {
    ((DigitOf(c.h0) * 16 + DigitOf(c.h1)) * 16 + DigitOf(c.h2)) * 16 + DigitOf(c.h3)
  }

  predicate IsHigh(u: int) { 0xD800 <= u < 0xDC00 }

  predicate IsLow(u: int) { 0xDC00 <= u < 0xE000 }

  /** The two halves of a pair give ten bits each, above the first 65536 values. */
  function Joined(high: int, low: int): int {
    65536 + 1024 * (high - 0xD800) + (low - 0xDC00)
  }

  // ---- Strings ----------------------------------------------------------------------------

  function Followed(front: seq<byte>, rest: Text): Text {
    if rest.NoText? then NoText else Text(front + rest.bytes)
  }

  /**
   * What a string means: raw bytes and the escapes of `"`, `\` and `/` stand for themselves, a `u` escape or a
   * pair of them for the encoding of its scalar value; anything below a space, other escapes and lone halves of
   * pairs refuse the string.
   */
  function Meaning(cs: seq<Char>): Text
    requires CharsOk(cs)
    decreases |cs|
  {
    if cs == [] then Text([])
    else
      match cs[0]
      case Raw(b) => Followed([b], Meaning(cs[1..]))
      case Escaped(e) => if e in {0x22, 0x5C, 0x2F} then Followed([e], Meaning(cs[1..])) else NoText
      case Unicode(_, _, _, _) =>
        var u := FourDigits(cs[0]);
        if u < 0x20 || IsLow(u) then NoText
        else if !IsHigh(u) then
          UnicodeRange(cs[0]);
          Followed(Encode(u), Meaning(cs[1..]))
        else if |cs| >= 2 && cs[1].Unicode? && IsLow(FourDigits(cs[1])) then
          Followed(Encode(Joined(u, FourDigits(cs[1]))), Meaning(cs[2..]))
        else NoText
  }

  lemma UnicodeRange(c: Char)
    requires CharOk(c) && c.Unicode?
    ensures 0 <= FourDigits(c) <= 0xFFFF
    ensures FourDigits(c) == HexUnit(c.h0, c.h1, c.h2, c.h3)
  {
  }

  lemma CharBytes(s: seq<byte>, i: nat, c: Char)
    requires Occurs(s, i, RenderChar(c))
    ensures i + |RenderChar(c)| <= |s|
    ensures c.Raw? ==> s[i] == c.b
    ensures !c.Raw? ==> s[i] == BACKSLASH && s[i + 1] == if c.Escaped? then c.e else LOWER_U
    ensures c.Unicode? ==> s[i + 2] == c.h0 && s[i + 3] == c.h1 && s[i + 4] == c.h2 && s[i + 5] == c.h3
  {
    hide Occurs;
    OccursBound(s, i, RenderChar(c));
    OccursAt(s, i, RenderChar(c), 0);
    if !c.Raw? { OccursAt(s, i, RenderChar(c), 1); }
    if c.Unicode? {
      OccursAt(s, i, RenderChar(c), 2);
      OccursAt(s, i, RenderChar(c), 3);
      OccursAt(s, i, RenderChar(c), 4);
      OccursAt(s, i, RenderChar(c), 5);
    }
  }

  /** Where the string goes on: its first character, or the quotation mark. */
  lemma RestBytes(s: seq<byte>, i: nat, cs: seq<Char>)
    requires CharsOk(cs) && Occurs(s, i, RenderChars(cs))
    ensures i < |s|
    ensures cs == [] ==> s[i] == QUOTE
    ensures cs != [] ==>
              Occurs(s, i, RenderChar(cs[0])) && Occurs(s, i + |RenderChar(cs[0])|, RenderChars(cs[1..]))
  {
    hide Occurs;
    OccursBound(s, i, RenderChars(cs));
    if cs == [] {
      OccursOne(s, i, QUOTE);
    } else {
      OccursConcat(s, i, RenderChar(cs[0]), RenderChars(cs[1..]));
      CharBytes(s, i, cs[0]);
    }
  }

  /** A second escape stands at `i`. */
  predicate PairAt(s: seq<byte>, i: nat) {
    i + 2 <= |s| && s[i] == BACKSLASH && s[i + 1] == LOWER_U && Hex4(s, i + 2)
  }

  /** A pair is there exactly if the next character is an escape that can be its second half. */
  lemma PairThere(s: seq<byte>, i: nat, cs: seq<Char>)
    requires CharsOk(cs) && Occurs(s, i, RenderChars(cs))
    ensures var pair := PairAt(s, i);
            && (pair <==> cs != [] && cs[0].Unicode?)
            && (pair ==> Unit(s, i + 2) == FourDigits(cs[0]) && |RenderChar(cs[0])| == 6)
  {
    hide Occurs, HexUnit, FourDigits;
    RestBytes(s, i, cs);
    if cs != [] {
      CharBytes(s, i, cs[0]);
      if cs[0].Unicode? { UnicodeRange(cs[0]); }
    }
  }

  lemma UnicodePieceIs(s: seq<byte>, i: nat)
    requires i + 1 < |s| && Hex4(s, i + 2)
    ensures var u := Unit(s, i + 2);
            UnicodePiece(s, i) ==
              if u < 0x20 || IsLow(u) then BadPiece
              else if !IsHigh(u) then Piece(Encode(u), i + 6)
              else if PairAt(s, i + 6) && IsLow(Unit(s, i + 8)) then Piece(Encode(Joined(u, Unit(s, i + 8))), i + 12)
              else BadPiece
  {
    hide Encode, Unit;
  }

  /** What the decoder does at a `u` escape. */
  lemma UnicodePieceMeans(s: seq<byte>, i: nat, cs: seq<Char>)
    requires CharsOk(cs) && cs != [] && cs[0].Unicode? && Occurs(s, i, RenderChars(cs))
    ensures var u := FourDigits(cs[0]);
            && i + 6 <= |s| && s[i] == BACKSLASH && s[i + 1] == LOWER_U && 0 <= u <= 0xFFFF
            && UnicodePiece(s, i) ==
                 if u < 0x20 || IsLow(u) then BadPiece
                 else if !IsHigh(u) then Piece(Encode(u), i + 6)
                 else if |cs| >= 2 && cs[1].Unicode? && IsLow(FourDigits(cs[1]))
                 then Piece(Encode(Joined(u, FourDigits(cs[1]))), i + 12)
                 else BadPiece
  {
    UnicodeRange(cs[0]);
    RestBytes(s, i, cs);
    CharBytes(s, i, cs[0]);
    PairThere(s, i, cs);
    PairThere(s, i + 6, cs[1..]);
    hide Occurs, Encode, FourDigits, Unit, Hex4, UnicodePiece, RenderChars, IsLow, IsHigh, Joined;
    UnicodePieceIs(s, i);
  }

  /** The string that is written at `i` decodes to what it means. */
  lemma {:induction false} DecodeMeans(s: seq<byte>, i: nat, cs: seq<Char>)
    requires CharsOk(cs) && Occurs(s, i, RenderChars(cs))
    ensures i <= |s| && DecodeFrom(s, i) == Meaning(cs)
    decreases |cs|
  {
    hide Occurs, UnicodePiece, Encode, FourDigits, RenderChars;
    RestBytes(s, i, cs);
    if cs != [] {
      CharBytes(s, i, cs[0]);
      DecodeMeans(s, i + |RenderChar(cs[0])|, cs[1..]);
      if cs[0].Unicode? {
        UnicodePieceMeans(s, i, cs);
        PairThere(s, i + 6, cs[1..]);
        if |cs| >= 2 && cs[1].Unicode? {
          RestBytes(s, i + 6, cs[1..]);
          assert cs[1..][1..] == cs[2..];
          DecodeMeans(s, i + 12, cs[2..]);
        }
      }
    }
  }

  /** A whole string literal, from its quotation mark on. */
  lemma StringMeans(s: seq<byte>, i: nat, cs: seq<Char>)
    requires CharsOk(cs) && Occurs(s, i, RenderString(cs))
    ensures Decode(s, i) == Meaning(cs)
  {
    hide Occurs, RenderChars;
    OccursConcat(s, i, [QUOTE], RenderChars(cs));
    OccursOne(s, i, QUOTE);
    DecodeMeans(s, i + 1, cs);
  }

  /** The characters of a name, as keys are compared: the five other escapes stand for their controls. */
  lemma NameCharsMean(c: Char)
    requires CharOk(c)
    ensures c.Raw? ==> Decoded(c) == c.b
    ensures c.Unicode? ==> Decoded(c) == FourDigits(c)
    ensures c.Escaped? && c.e in {0x22, 0x5C, 0x2F} ==> Decoded(c) == c.e
    ensures c == Escaped('b' as int) ==> Decoded(c) == 0x08
    ensures c == Escaped('t' as int) ==> Decoded(c) == 0x09
    ensures c == Escaped('n' as int) ==> Decoded(c) == 0x0A
    ensures c == Escaped('f' as int) ==> Decoded(c) == 0x0C
    ensures c == Escaped('r' as int) ==> Decoded(c) == 0x0D
  {
  }
}
