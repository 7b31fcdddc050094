/** UTF-8 (RFC 3629, sections 3 and 4): the encoding, and the two validators of the source. */
module Utf8 {
  import opened Bytes

  const MAX_SCALAR := 0x10FFFF

  /** A Unicode scalar value: a code point that is not a surrogate. */
  type Scalar = c: int | 0 <= c <= 0x10FFFF && !(0xD800 <= c <= 0xDFFF)

  /** Bits of `c`, most significant first, spread over lead and continuation bytes. */
  function Encode(c: nat): (bytes: seq<byte>)
    requires c <= MAX_SCALAR
    ensures 1 <= |bytes| <= 4
  {
    if c < 0x80 then [c]
    else if c < 0x800 then [0xC0 + c / 0x40, 0x80 + c % 0x40]
    else if c < 0x10000 then [0xE0 + c / 0x1000, 0x80 + c / 0x40 % 0x40, 0x80 + c % 0x40]
    else [0xF0 + c / 0x40000, 0x80 + c / 0x1000 % 0x40, 0x80 + c / 0x40 % 0x40, 0x80 + c % 0x40]
  }

  function EncodeAll(cs: seq<Scalar>): seq<byte> {
    if cs == [] then [] else Encode(cs[0]) + EncodeAll(cs[1..])
  }

  ghost predicate WellFormed(s: seq<byte>) {
    exists cs: seq<Scalar> :: EncodeAll(cs) == s
  }

  predicate IsTail(b: byte) {
    0x80 <= b <= 0xBF
  }

  /** Bytes `i + 1` to `i + n` lie before `end`, the first in the given range, the others continuation bytes. */
  predicate Tails(s: seq<byte>, i: nat, end: nat, n: nat, low: byte, high: byte)
    requires end <= |s| && n > 0
  {
    i + n < end && low <= s[i + 1] <= high && forall k :: i + 2 <= k <= i + n ==> IsTail(s[k])
  }

  /** Length of the encoded character at `i`, 0 if there is none. */
  function UnitLength(s: seq<byte>, i: nat, end: nat): (n: nat)
    requires i < end <= |s|
    ensures i + n <= end && n <= 4
  {
    var c := s[i];
    if c <= 0x7F then 1
    else if 0xC2 <= c <= 0xDF then if Tails(s, i, end, 1, 0x80, 0xBF) then 2 else 0
    else if c == 0xE0 then if Tails(s, i, end, 2, 0xA0, 0xBF) then 3 else 0
    else if 0xE1 <= c <= 0xEC || 0xEE <= c <= 0xEF then if Tails(s, i, end, 2, 0x80, 0xBF) then 3 else 0
    else if c == 0xED then if Tails(s, i, end, 2, 0x80, 0x9F) then 3 else 0
    else if c == 0xF0 then if Tails(s, i, end, 3, 0x90, 0xBF) then 4 else 0
    else if 0xF1 <= c <= 0xF3 then if Tails(s, i, end, 3, 0x80, 0xBF) then 4 else 0
    else if c == 0xF4 then if Tails(s, i, end, 3, 0x80, 0x8F) then 4 else 0
    else 0
  }

  predicate ValidTo(s: seq<byte>, i: nat, end: nat)
    requires i <= end <= |s|
    decreases end - i
  {
    i == end || (UnitLength(s, i, end) > 0 && ValidTo(s, i + UnitLength(s, i, end), end))
  }

  // ---- The validator accepts exactly the encodings ----------------------------------------

  /** Base 64 digits of a number. */
  lemma Digits(x: nat, a: nat, b: nat)
    requires b < 0x40 && x == a * 0x40 + b
    ensures x / 0x40 == a && x % 0x40 == b
  {
  }

  /** The encoding of a code point given by its digits; the lead byte's digit is `a`. */
  lemma Encode2(c: nat, a: nat, b1: nat)
    requires b1 < 0x40 && c == a * 0x40 + b1 && 2 <= a < 0x20
    ensures 0x80 <= c < 0x800 && Encode(c) == [0xC0 + a, 0x80 + b1]
  {
    Digits(c, a, b1);
  }

  lemma Encode3(c: nat, a: nat, b1: nat, b2: nat)
    requires b1 < 0x40 && b2 < 0x40 && c == (a * 0x40 + b1) * 0x40 + b2 && 0x20 <= a * 0x40 + b1 < 0x400
    ensures 0x800 <= c < 0x10000 && Encode(c) == [0xE0 + a, 0x80 + b1, 0x80 + b2]
  {
    Digits(c, a * 0x40 + b1, b2);
    Digits(a * 0x40 + b1, a, b1);
    assert c / 0x1000 == c / 0x40 / 0x40;
  }

  lemma Encode4(c: nat, a: nat, b1: nat, b2: nat, b3: nat)
    requires b1 < 0x40 && b2 < 0x40 && b3 < 0x40
    requires c == ((a * 0x40 + b1) * 0x40 + b2) * 0x40 + b3 && 0x10 <= a * 0x40 + b1 < 0x110
    ensures 0x10000 <= c <= MAX_SCALAR && Encode(c) == [0xF0 + a, 0x80 + b1, 0x80 + b2, 0x80 + b3]
  {
    Digits(c, (a * 0x40 + b1) * 0x40 + b2, b3);
    Digits((a * 0x40 + b1) * 0x40 + b2, a * 0x40 + b1, b2);
    Digits(a * 0x40 + b1, a, b1);
    assert c / 0x1000 == c / 0x40 / 0x40;
    assert c / 0x40000 == c / 0x1000 / 0x40;
  }

  lemma UnitSound(s: seq<byte>, i: nat, end: nat) returns (c: Scalar)
    requires i < end <= |s| && UnitLength(s, i, end) > 0
    ensures Encode(c) == s[i..i + UnitLength(s, i, end)]
  {
    hide Encode;
    var n := UnitLength(s, i, end);
    var b0: int := s[i];
    if n == 1 {
      c := b0;
      EncodeAscii(c);
    } else {
      var b1: int := s[i + 1] - 0x80;
      if n == 2 {
        c := (b0 - 0xC0) * 0x40 + b1;
        Encode2(c, b0 - 0xC0, b1);
      } else {
        var b2: int := s[i + 2] - 0x80;
        if n == 3 {
          c := ((b0 - 0xE0) * 0x40 + b1) * 0x40 + b2;
          Encode3(c, b0 - 0xE0, b1, b2);
        } else {
          var b3: int := s[i + 3] - 0x80;
          c := (((b0 - 0xF0) * 0x40 + b1) * 0x40 + b2) * 0x40 + b3;
          Encode4(c, b0 - 0xF0, b1, b2, b3);
        }
      }
    }
  }

  lemma EncodeAscii(c: nat)
    requires c < 0x80
    ensures Encode(c) == [c]
  {
  }

  lemma UnitComplete(s: seq<byte>, i: nat, end: nat, c: Scalar)
    requires i < end <= |s| && Occurs(s, i, Encode(c)) && i + |Encode(c)| <= end
    ensures UnitLength(s, i, end) == |Encode(c)|
  {
    hide Encode, Occurs;
    EncodeShape(c);
    OccursAt(s, i, Encode(c), 0);
    if |Encode(c)| > 1 { OccursAt(s, i, Encode(c), 1); }
    if |Encode(c)| > 2 { OccursAt(s, i, Encode(c), 2); }
    if |Encode(c)| > 3 { OccursAt(s, i, Encode(c), 3); }
  }

  /** The byte ranges of section 4 of RFC 3629. */
  lemma EncodeShape(c: Scalar)
    ensures var e := Encode(c);
            && (|e| == 1 ==> e[0] <= 0x7F)
            && (|e| == 2 ==> 0xC2 <= e[0] <= 0xDF && IsTail(e[1]))
            && (|e| == 3 ==> 0xE0 <= e[0] <= 0xEF && IsTail(e[1]) && IsTail(e[2])
                             && (e[0] == 0xE0 ==> 0xA0 <= e[1]) && (e[0] == 0xED ==> e[1] <= 0x9F))
            && (|e| == 4 ==> 0xF0 <= e[0] <= 0xF4 && IsTail(e[1]) && IsTail(e[2]) && IsTail(e[3])
                             && (e[0] == 0xF0 ==> 0x90 <= e[1]) && (e[0] == 0xF4 ==> e[1] <= 0x8F))
  {
    var d, e, f := c / 0x40, c / 0x1000, c / 0x40000;
    assert e == d / 0x40 && f == e / 0x40;
    var b0, b1, b2 := c % 0x40, d % 0x40, e % 0x40;
    assert c == d * 0x40 + b0 && d == e * 0x40 + b1 && e == f * 0x40 + b2;
    if 0x80 <= c < 0x800 {
      Encode2(c, d, b0);
    } else if 0x800 <= c < 0x10000 {
      Encode3(c, e, b1, b0);
    } else if 0x10000 <= c {
      Encode4(c, f, b2, b1, b0);
    }
  }

  lemma {:induction false} ValidSound(s: seq<byte>, i: nat, end: nat) returns (cs: seq<Scalar>)
    requires i <= end <= |s| && ValidTo(s, i, end)
    ensures EncodeAll(cs) == s[i..end]
    decreases end - i
  {
    if i == end {
      cs := [];
    } else {
      var n := UnitLength(s, i, end);
      var c := UnitSound(s, i, end);
      var rest := ValidSound(s, i + n, end);
      cs := [c] + rest;
      assert cs[1..] == rest;
      assert s[i..end] == s[i..i + n] + s[i + n..end];
    }
  }

  lemma {:induction false} ValidComplete(s: seq<byte>, i: nat, cs: seq<Scalar>)
    requires Occurs(s, i, EncodeAll(cs))
    ensures ValidTo(s, i, i + |EncodeAll(cs)|)
    decreases |cs|
  {
    hide Encode, UnitLength, Occurs;
    OccursBound(s, i, EncodeAll(cs));
    if cs != [] {
      OccursConcat(s, i, Encode(cs[0]), EncodeAll(cs[1..]));
      UnitComplete(s, i, i + |EncodeAll(cs)|, cs[0]);
      ValidComplete(s, i + |Encode(cs[0])|, cs[1..]);
    }
  }

  lemma ValidIffWellFormed(s: seq<byte>)
    ensures ValidTo(s, 0, |s|) <==> WellFormed(s)
  {
    hide ValidTo, EncodeAll;
    if ValidTo(s, 0, |s|) {
      var cs := ValidSound(s, 0, |s|);
      assert s[0..|s|] == s;
    }
    if WellFormed(s) {
      var cs: seq<Scalar> :| EncodeAll(cs) == s;
      OccursWhole(s);
      ValidComplete(s, 0, cs);
    }
  }

  lemma Prepend(c: Scalar, t: seq<byte>)
    requires WellFormed(t)
    ensures WellFormed(Encode(c) + t)
  {
    var cs: seq<Scalar> :| EncodeAll(cs) == t;
    assert ([c] + cs)[1..] == cs;
    assert EncodeAll([c] + cs) == Encode(c) + t;
  }

  // ---- The two validators -----------------------------------------------------------------

  /** `valid_utf8` of the HTTP layer. */
  method ValidUtf8(p: seq<byte>) returns (ok: bool)
    ensures ok <==> WellFormed(p)
  {
    ValidIffWellFormed(p);
    var n, i := |p|, 0;
    while i < n
      invariant i <= n && (ValidTo(p, i, n) <==> ValidTo(p, 0, n))
      decreases n - i
    {
      var c := p[i];
      if c <= 0x7F { i := i + 1; continue; }
      if 0xC2 <= c <= 0xDF {
        if i + 1 >= n || !IsTail(p[i + 1]) { return false; }
        i := i + 2;
        continue;
      }
      if c == 0xE0 {
        if i + 2 >= n || p[i + 1] < 0xA0 || p[i + 1] > 0xBF || !IsTail(p[i + 2]) { return false; }
        i := i + 3;
        continue;
      }
      if 0xE1 <= c <= 0xEC || 0xEE <= c <= 0xEF {
        if i + 2 >= n || !IsTail(p[i + 1]) || !IsTail(p[i + 2]) { return false; }
        i := i + 3;
        continue;
      }
      if c == 0xED {
        if i + 2 >= n || p[i + 1] < 0x80 || p[i + 1] > 0x9F || !IsTail(p[i + 2]) { return false; }
        i := i + 3;
        continue;
      }
      if c == 0xF0 {
        if i + 3 >= n || p[i + 1] < 0x90 || p[i + 1] > 0xBF || !IsTail(p[i + 2]) || !IsTail(p[i + 3]) { return false; }
        i := i + 4;
        continue;
      }
      if 0xF1 <= c <= 0xF3 {
        if i + 3 >= n || !IsTail(p[i + 1]) || !IsTail(p[i + 2]) || !IsTail(p[i + 3]) { return false; }
        i := i + 4;
        continue;
      }
      if c == 0xF4 {
        if i + 3 >= n || p[i + 1] < 0x80 || p[i + 1] > 0x8F || !IsTail(p[i + 2]) || !IsTail(p[i + 3]) { return false; }
        i := i + 4;
        continue;
      }
      return false;
    }
    return true;
  }

  /** `timer_valid_utf8` of the Linux backend: its own chain of cases. */
  method TimerValidUtf8(p: seq<byte>) returns (ok: bool)
    ensures ok <==> WellFormed(p)
  {
    ValidIffWellFormed(p);
    var i := 0;
    while i < |p|
      invariant i <= |p| && (ValidTo(p, i, |p|) <==> ValidTo(p, 0, |p|))
      decreases |p| - i
    {
      var c := p[i];
      if c <= 0x7F {
        i := i + 1;
      } else if 0xC2 <= c <= 0xDF {
        if i + 1 >= |p| || !IsTail(p[i + 1]) { return false; }
        i := i + 2;
      } else if c == 0xE0 {
        if i + 2 >= |p| || p[i + 1] < 0xA0 || p[i + 1] > 0xBF || !IsTail(p[i + 2]) { return false; }
        i := i + 3;
      } else if 0xE1 <= c <= 0xEC || 0xEE <= c <= 0xEF {
        if i + 2 >= |p| || !IsTail(p[i + 1]) || !IsTail(p[i + 2]) { return false; }
        i := i + 3;
      } else if c == 0xED {
        if i + 2 >= |p| || p[i + 1] < 0x80 || p[i + 1] > 0x9F || !IsTail(p[i + 2]) { return false; }
        i := i + 3;
      } else if c == 0xF0 {
        if i + 3 >= |p| || p[i + 1] < 0x90 || p[i + 1] > 0xBF || !IsTail(p[i + 2]) || !IsTail(p[i + 3]) {
          return false;
        }
        i := i + 4;
      } else if 0xF1 <= c <= 0xF3 {
        if i + 3 >= |p| || !IsTail(p[i + 1]) || !IsTail(p[i + 2]) || !IsTail(p[i + 3]) { return false; }
        i := i + 4;
      } else if c == 0xF4 {
        if i + 3 >= |p| || p[i + 1] < 0x80 || p[i + 1] > 0x8F || !IsTail(p[i + 2]) || !IsTail(p[i + 3]) {
          return false;
        }
        i := i + 4;
      } else {
        return false;
      }
    }
    return true;
  }
}
