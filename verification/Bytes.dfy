/** Bytes, the characters the JSON code names, and substrings at a position. */
module Bytes {
  type byte = b: int | 0 <= b < 256

  const TAB: byte := 0x09
  const LF: byte := 0x0A
  const CR: byte := 0x0D
  const SPACE: byte := 0x20
  const QUOTE: byte := 0x22
  const PLUS: byte := 0x2B
  const COMMA: byte := 0x2C
  const MINUS: byte := 0x2D
  const DOT: byte := 0x2E
  const SLASH: byte := 0x2F
  const ZERO: byte := 0x30
  const NINE: byte := 0x39
  const COLON: byte := 0x3A
  const UPPER_E: byte := 0x45
  const LBRACKET: byte := 0x5B
  const BACKSLASH: byte := 0x5C
  const RBRACKET: byte := 0x5D
  const LOWER_B: byte := 0x62
  const LOWER_E: byte := 0x65
  const LOWER_F: byte := 0x66
  const LOWER_N: byte := 0x6E
  const LOWER_R: byte := 0x72
  const LOWER_T: byte := 0x74
  const LOWER_U: byte := 0x75
  const LBRACE: byte := 0x7B
  const RBRACE: byte := 0x7D

  /** `t` stands at position `i` of `s`. */
  predicate Occurs(s: seq<byte>, i: nat, t: seq<byte>) {
    i + |t| <= |s| && s[i..i + |t|] == t
  }

  lemma OccursConcat(s: seq<byte>, i: nat, a: seq<byte>, b: seq<byte>)
    ensures Occurs(s, i, a + b) <==> Occurs(s, i, a) && Occurs(s, i + |a|, b)
  {
    if i + |a| + |b| <= |s| {
      assert s[i..i + |a + b|] == s[i..i + |a|] + s[i + |a|..i + |a| + |b|];
      if s[i..i + |a + b|] == a + b {
        assert s[i..i + |a|] == (s[i..i + |a + b|])[..|a|] == a;
        assert s[i + |a|..i + |a| + |b|] == (s[i..i + |a + b|])[|a|..] == b;
      }
    }
  }

  lemma OccursBound(s: seq<byte>, i: nat, t: seq<byte>)
    requires Occurs(s, i, t)
    ensures i + |t| <= |s|
  {
  }

  lemma OccursAt(s: seq<byte>, i: nat, t: seq<byte>, k: nat)
    requires Occurs(s, i, t) && k < |t|
    ensures s[i + k] == t[k]
  {
    assert s[i + k] == s[i..i + |t|][k];
  }

  lemma OccursWhole(s: seq<byte>)
    ensures Occurs(s, 0, s)
  {
    assert s[0..|s|] == s;
  }

  lemma OccursThree(s: seq<byte>, a: seq<byte>, b: seq<byte>, c: seq<byte>)
    requires s == a + (b + c)
    ensures Occurs(s, 0, a) && Occurs(s, |a|, b) && Occurs(s, |a| + |b|, c) && |s| == |a| + |b| + |c|
  {
    OccursWhole(s);
    OccursConcat(s, 0, a, b + c);
    OccursConcat(s, |a|, b, c);
  }

  lemma OccursOne(s: seq<byte>, i: nat, b: byte)
    ensures Occurs(s, i, [b]) <==> i < |s| && s[i] == b
  {
    if i < |s| {
      assert s[i..i + 1] == [s[i]];
    }
  }

  /** What a sequence of chunks amounts to. */
  function Concat(chunks: seq<seq<byte>>): seq<byte> {
    if chunks == [] then [] else chunks[0] + Concat(chunks[1..])
  }
}
