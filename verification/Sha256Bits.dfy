/** The word functions and the constants of `Sha256`, in the terms of FIPS 180-4: bit by bit, and as roots of primes. */
module Sha256Bits {
  import opened Sha256
  import opened Bytes

  /** Bit `i` of a word, the lowest being bit 0. */
  function Bit(x: nat, i: nat): (b: nat)
    ensures b < 2
  {
    x / Power2(i) % 2
  }

  // ---- Arithmetic of powers ---------------------------------------------------------------

  lemma {:induction false} AtLeastOnce(d: nat, n: nat)
    requires n > 0
    ensures d * n >= d
    decreases n
  {
    if n > 1 {
      AtLeastOnce(d, n - 1);
      assert d * n == d * (n - 1) + d;
    }
  }

  lemma BigMultiple(d: nat, n: int)
    requires n != 0
    ensures if n > 0 then d * n >= d else d * n <= 0 - d
  {
    if n > 0 {
      AtLeastOnce(d, n);
    } else {
      AtLeastOnce(d, 0 - n);
      assert d * n == 0 - d * (0 - n);
    }
  }

  lemma QuotientIs(x: nat, d: nat, q: nat, r: nat)
    requires d > 0 && r < d && x == d * q + r
    ensures x / d == q && x % d == r
  {
    var k := x / d;
    assert d * (k - q) == r - x % d;
    if k != q { BigMultiple(d, k - q); }
  }

  lemma DivMod(x: nat, d: nat)
    requires d > 0
    ensures x == d * (x / d) + x % d
  {
  }

  lemma Fits(d: nat, e: nat, b: nat, r: nat)
    requires r < d && b < e
    ensures d * b + r < d * e
  {
    assert d * e == d * b + d * (e - b);
    BigMultiple(d, e - b);
  }

  lemma Expand(d: nat, e: nat, a: nat, b: nat, r: nat)
    ensures (d * e) * a + (d * b + r) == d * (e * a + b) + r
  {
    assert d * (e * a + b) == d * (e * a) + d * b;
    assert (d * e) * a == d * (e * a);
  }

  lemma DivTwice(x: nat, d: nat, e: nat)
    requires d > 0 && e > 0
    ensures d * e > 0 && x / d / e == x / (d * e)
  {
    var q, r := x / d, x % d;
    var a, b := q / e, q % e;
    BigMultiple(d, e);
    DivMod(x, d);
    DivMod(q, e);
    Expand(d, e, a, b, r);
    Fits(d, e, b, r);
    QuotientIs(x, d * e, a, d * b + r);
  }

  lemma {:induction false} PowerSum(m: nat, n: nat)
    ensures Power2(m + n) == Power2(m) * Power2(n)
    decreases m
  {
    if m > 0 {
      PowerSum(m - 1, n);
      DoubleProduct(Power2(m - 1), Power2(n));
    }
  }

  lemma DoubleProduct(a: nat, b: nat)
    ensures 2 * (a * b) == (2 * a) * b
  {
  }

  // ---- Bits of the operations -------------------------------------------------------------

  lemma BitStep(x: nat, i: nat)
    ensures Bit(x, 0) == x % 2 && Bit(x, i + 1) == Bit(x / 2, i)
  {
    DivTwice(x, 2, Power2(i));
  }

  lemma {:induction false} AndBits(x: nat, y: nat, n: nat, i: nat)
    requires i < n
    ensures Bit(BitAnd(x, y, n), i) == 1 <==> Bit(x, i) == 1 && Bit(y, i) == 1
    decreases n
  {
    hide Bit;
    var r := BitAnd(x, y, n);
    BitStep(x, if i == 0 then 0 else i - 1);
    BitStep(y, if i == 0 then 0 else i - 1);
    BitStep(r, if i == 0 then 0 else i - 1);
    if i > 0 { AndBits(x / 2, y / 2, n - 1, i - 1); }
  }

  lemma {:induction false} XorBits(x: nat, y: nat, n: nat, i: nat)
    requires i < n
    ensures Bit(BitXor(x, y, n), i) == (Bit(x, i) + Bit(y, i)) % 2
    decreases n
  {
    hide Bit;
    var r := BitXor(x, y, n);
    BitStep(x, if i == 0 then 0 else i - 1);
    BitStep(y, if i == 0 then 0 else i - 1);
    BitStep(r, if i == 0 then 0 else i - 1);
    if i > 0 { XorBits(x / 2, y / 2, n - 1, i - 1); }
  }

  lemma {:induction false} NotBits(x: nat, n: nat, i: nat)
    requires i < n && x < Power2(n)
    ensures Bit(Power2(n) - 1 - x, i) == 1 - Bit(x, i)
    decreases n
  {
    hide Bit;
    var r := Power2(n) - 1 - x;
    BitStep(x, if i == 0 then 0 else i - 1);
    BitStep(r, if i == 0 then 0 else i - 1);
    assert r / 2 == Power2(n - 1) - 1 - x / 2;
    if i > 0 { NotBits(x / 2, n - 1, i - 1); }
  }

  function Upper(x: nat, p: nat): nat
    requires p > 0
  {
    x / p
  }

  lemma ShiftedBit(x: nat, n: nat, i: nat)
    ensures Bit(Upper(x, Power2(n)), i) == Bit(x, n + i)
  {
    hide Power2;
    DivTwice(x, Power2(n), Power2(i));
    PowerSum(n, i);
  }

  lemma HighBit(x: nat, n: nat, i: nat)
    requires x < Power2(n) && n <= i
    ensures Bit(x, i) == 0
  {
    hide Power2;
    PowerSum(n, i - n);
    BigMultiple(Power2(n), Power2(i - n));
    QuotientIs(x, Power2(i), 0, x);
  }

  /** Below `m`, the bits of `a + b * 2^m` are those of `a`; from there on, those of `b`. */
  lemma JoinedBit(a: nat, b: nat, m: nat, i: nat)
    requires a < Power2(m)
    ensures b * Power2(m) >= 0 && Bit(a + b * Power2(m), i) == if i < m then Bit(a, i) else Bit(b, i - m)
  {
    BigProduct(b, Power2(m));
    if i < m {
      PowerSum(i, m - i);
      JoinedLow(a, b, Power2(i), Power2(m - i - 1), Power2(m));
    } else {
      hide Power2;
      QuotientIs(a + b * Power2(m), Power2(m), b, a);
      ShiftedBit(a + b * Power2(m), m, i - m);
    }
  }

  lemma BigProduct(a: nat, b: nat)
    ensures a * b >= 0
  {
  }

  lemma JoinedLow(a: nat, b: nat, low: nat, rest: nat, p: nat)
    requires low > 0 && p == low * (2 * rest)
    ensures b * p >= 0 && (a + b * p) / low % 2 == a / low % 2
  {
    BigProduct(b, p);
    BigProduct(rest, b);
    var q, r, e := a / low, a % low, rest * b;
    Regroup(b, low, rest);
    assert low * (q + 2 * e) == low * q + low * (2 * e);
    QuotientIs(a + b * p, low, q + 2 * e, r);
  }

  lemma Regroup(b: nat, low: nat, rest: nat)
    ensures b * (low * (2 * rest)) == low * (2 * (rest * b))
  {
    assert b * (low * (2 * rest)) == (b * low) * (2 * rest) == low * (b * (2 * rest));
    assert b * (2 * rest) == 2 * (rest * b);
  }

  lemma LowBits(x: nat, n: nat, i: nat)
    requires i < n
    ensures Bit(x % Power2(n), i) == Bit(x, i)
  {
    hide Power2, Bit;
    var p := Power2(n);
    assert x == x % p + (x / p) * p;
    JoinedBit(x % p, x / p, n, i);
  }

  lemma DivAtMost(x: nat, d: nat)
    requires d > 0
    ensures x / d <= x
  {
    var q := x / d;
    if q > 0 { BigMultiple(q, d); }
  }

  /** A shift to the right. */
  lemma ShrBit(x: word, n: nat, i: nat)
    requires i < 32
    ensures Bit(Shr(x, n), i) == if i + n < 32 then Bit(x, i + n) else 0
  {
    Width();
    hide Power2, Bit;
    DivAtMost(x, Power2(n));
    assert Shr(x, n) == x / Power2(n);
    ShiftedBit(x, n, i);
    if i + n >= 32 { HighBit(x, 32, i + n); }
  }

  lemma Monotone(p: nat, q: nat, a: nat)
    ensures a >= q ==> p * a >= p * q
  {
    if a >= q {
      BigProduct(p, a - q);
      assert p * a == p * q + p * (a - q);
    }
  }

  lemma TurnedProduct(p: nat, q: nat, a: nat, b: nat)
    ensures (p * a + b) * q == (p * q) * a + b * q
  {
    assert (p * a + b) * q == (p * a) * q + b * q;
    assert (p * a) * q == (p * q) * a;
  }

  lemma Turned(x: nat, p: nat, q: nat, two: nat)
    requires p > 0 && q > 0 && p * q == two && x < two
    ensures x / p < q && (x % p) * q >= 0 && x * q % two == (x % p) * q && x / p + (x % p) * q < two
  {
    var a, b := x / p, x % p;
    Monotone(p, q, a);
    BigProduct(b, q);
    TurnedProduct(p, q, a, b);
    Fits(q, p, b, a);
    Fits(q, p, b, 0);
    QuotientIs(x * q, two, a, b * q);
  }

  lemma RotrIs(x: word, n: nat)
    requires 0 < n < 32
    ensures (x % Power2(n)) * Power2(32 - n) >= 0
    ensures Rotr(x, n) == x / Power2(n) + (x % Power2(n)) * Power2(32 - n)
    ensures x / Power2(n) < Power2(32 - n)
  {
    Width();
    hide Power2;
    PowerSum(n, 32 - n);
    Turned(x, Power2(n), Power2(32 - n), TWO_32);
    DivAtMost(x, Power2(n));
    assert Shr(x, n) == x / Power2(n);
    assert Shl(x, 32 - n) == (x % Power2(n)) * Power2(32 - n);
  }

  /** A rotation to the right. */
  lemma RotrBit(x: word, n: nat, i: nat)
    requires 0 < n < 32 && i < 32
    ensures Bit(Rotr(x, n), i) == Bit(x, (i + n) % 32)
  {
    hide Power2, Bit, Rotr;
    RotrIs(x, n);
    JoinedBit(x / Power2(n), x % Power2(n), 32 - n, i);
    if i < 32 - n {
      ShiftedBit(x, n, i);
    } else {
      LowBits(x, n, i - (32 - n));
    }
  }

  // ---- The six functions of section 4.1.2 -------------------------------------------------

  /** `Ch` chooses and `Maj` is the majority, bit by bit. */
  lemma ChMajMean(x: word, y: word, z: word, i: nat)
    requires i < 32
    ensures Bit(Ch(x, y, z), i) == if Bit(x, i) == 1 then Bit(y, i) else Bit(z, i)
    ensures Bit(Maj(x, y, z), i) == if Bit(x, i) + Bit(y, i) + Bit(z, i) >= 2 then 1 else 0
  {
    hide Bit, BitAnd, BitXor, Power2;
    Width();
    NotBits(x, 32, i);
    AndBits(x, y, 32, i);
    AndBits(Not(x), z, 32, i);
    XorBits(And(x, y), And(Not(x), z), 32, i);
    AndBits(x, z, 32, i);
    AndBits(y, z, 32, i);
    ThreeXor(And(x, y), And(x, z), And(y, z), i);
  }

  /** The two large sums: three rotations. */
  lemma SumsMean(x: word, i: nat)
    requires i < 32
    ensures Bit(Sum0(x), i) == (Bit(x, (i + 2) % 32) + Bit(x, (i + 13) % 32) + Bit(x, (i + 22) % 32)) % 2
    ensures Bit(Sum1(x), i) == (Bit(x, (i + 6) % 32) + Bit(x, (i + 11) % 32) + Bit(x, (i + 25) % 32)) % 2
  {
    hide Bit, Xor, Rotr;
    ThreeXor(Rotr(x, 2), Rotr(x, 13), Rotr(x, 22), i);
    ThreeXor(Rotr(x, 6), Rotr(x, 11), Rotr(x, 25), i);
    RotrBit(x, 2, i);
    RotrBit(x, 13, i);
    RotrBit(x, 22, i);
    RotrBit(x, 6, i);
    RotrBit(x, 11, i);
    RotrBit(x, 25, i);
  }

  /** The two small ones: two rotations and a shift. */
  lemma SigmasMean(x: word, i: nat)
    requires i < 32
    ensures Bit(Sigma0(x), i) ==
              (Bit(x, (i + 7) % 32) + Bit(x, (i + 18) % 32) + (if i + 3 < 32 then Bit(x, i + 3) else 0)) % 2
    ensures Bit(Sigma1(x), i) ==
              (Bit(x, (i + 17) % 32) + Bit(x, (i + 19) % 32) + (if i + 10 < 32 then Bit(x, i + 10) else 0)) % 2
  {
    hide Bit, Xor, Rotr, Shr;
    ThreeXor(Rotr(x, 7), Rotr(x, 18), Shr(x, 3), i);
    ThreeXor(Rotr(x, 17), Rotr(x, 19), Shr(x, 10), i);
    RotrBit(x, 7, i);
    RotrBit(x, 18, i);
    RotrBit(x, 17, i);
    RotrBit(x, 19, i);
    ShrBit(x, 3, i);
    ShrBit(x, 10, i);
  }

  lemma ThreeXor(a: word, b: word, c: word, i: nat)
    requires i < 32
    ensures Bit(Xor(Xor(a, b), c), i) == (Bit(a, i) + Bit(b, i) + Bit(c, i)) % 2
  {
    hide Bit, BitXor;
    Width();
    XorBits(a, b, 32, i);
    XorBits(Xor(a, b), c, 32, i);
  }

  // ---- The constants of sections 4.2.2 and 5.3.3 ------------------------------------------

  // The first 64 primes.
  const P0: seq<nat> := [2, 3, 5, 7, 11, 13, 17, 19]
  const P8: seq<nat> := [23, 29, 31, 37, 41, 43, 47, 53]
  const P16: seq<nat> := [59, 61, 67, 71, 73, 79, 83, 89]
  const P24: seq<nat> := [97, 101, 103, 107, 109, 113, 127, 131]
  const P32: seq<nat> := [137, 139, 149, 151, 157, 163, 167, 173]
  const P40: seq<nat> := [179, 181, 191, 193, 197, 199, 211, 223]
  const P48: seq<nat> := [227, 229, 233, 239, 241, 251, 257, 263]
  const P56: seq<nat> := [269, 271, 277, 281, 283, 293, 307, 311]

  /** `k` is the first 32 bits of the fraction of the cube root of `p`, whose whole part is `c`. */
  predicate IsCubeRoot(p: nat, c: nat, k: word) {
    var x := c * TWO_32 + k;
    x * x * x <= p * 0x1_00000000_00000000_00000000 < (x + 1) * (x + 1) * (x + 1)
  }

  predicate IsSquareRoot(p: nat, c: nat, k: word) {
    var x := c * TWO_32 + k;
    x * x <= p * 0x1_00000000_00000000 < (x + 1) * (x + 1)
  }

  /** The whole part of the cube root of a prime below 343. */
  function Whole(p: nat): nat {
    if p < 8 then 1 else if p < 27 then 2 else if p < 64 then 3 else if p < 125 then 4 else if p < 216 then 5 else 6
  }

  /** The whole part of the square root of a prime below 25. */
  function WholeRoot(p: nat): nat {
    if p < 4 then 1 else if p < 9 then 2 else if p < 16 then 3 else 4
  }

  predicate RowRoots(p: seq<nat>, k: seq<word>) {
    |p| == |k| == 8 && forall t :: 0 <= t < 8 ==> IsCubeRoot(p[t], Whole(p[t]), k[t])
  }

  lemma Roots0()
    ensures RowRoots(P0, K0)
  {
    assert IsCubeRoot(P0[0], Whole(P0[0]), K0[0]);
    assert IsCubeRoot(P0[1], Whole(P0[1]), K0[1]);
    assert IsCubeRoot(P0[2], Whole(P0[2]), K0[2]);
    assert IsCubeRoot(P0[3], Whole(P0[3]), K0[3]);
    assert IsCubeRoot(P0[4], Whole(P0[4]), K0[4]);
    assert IsCubeRoot(P0[5], Whole(P0[5]), K0[5]);
    assert IsCubeRoot(P0[6], Whole(P0[6]), K0[6]);
    assert IsCubeRoot(P0[7], Whole(P0[7]), K0[7]);
  }

  lemma Roots8()
    ensures RowRoots(P8, K8)
  {
    assert IsCubeRoot(P8[0], Whole(P8[0]), K8[0]);
    assert IsCubeRoot(P8[1], Whole(P8[1]), K8[1]);
    assert IsCubeRoot(P8[2], Whole(P8[2]), K8[2]);
    assert IsCubeRoot(P8[3], Whole(P8[3]), K8[3]);
    assert IsCubeRoot(P8[4], Whole(P8[4]), K8[4]);
    assert IsCubeRoot(P8[5], Whole(P8[5]), K8[5]);
    assert IsCubeRoot(P8[6], Whole(P8[6]), K8[6]);
    assert IsCubeRoot(P8[7], Whole(P8[7]), K8[7]);
  }

  lemma Roots16()
    ensures RowRoots(P16, K16)
  {
    assert IsCubeRoot(P16[0], Whole(P16[0]), K16[0]);
    assert IsCubeRoot(P16[1], Whole(P16[1]), K16[1]);
    assert IsCubeRoot(P16[2], Whole(P16[2]), K16[2]);
    assert IsCubeRoot(P16[3], Whole(P16[3]), K16[3]);
    assert IsCubeRoot(P16[4], Whole(P16[4]), K16[4]);
    assert IsCubeRoot(P16[5], Whole(P16[5]), K16[5]);
    assert IsCubeRoot(P16[6], Whole(P16[6]), K16[6]);
    assert IsCubeRoot(P16[7], Whole(P16[7]), K16[7]);
  }

  lemma Roots24()
    ensures RowRoots(P24, K24)
  {
    assert IsCubeRoot(P24[0], Whole(P24[0]), K24[0]);
    assert IsCubeRoot(P24[1], Whole(P24[1]), K24[1]);
    assert IsCubeRoot(P24[2], Whole(P24[2]), K24[2]);
    assert IsCubeRoot(P24[3], Whole(P24[3]), K24[3]);
    assert IsCubeRoot(P24[4], Whole(P24[4]), K24[4]);
    assert IsCubeRoot(P24[5], Whole(P24[5]), K24[5]);
    assert IsCubeRoot(P24[6], Whole(P24[6]), K24[6]);
    assert IsCubeRoot(P24[7], Whole(P24[7]), K24[7]);
  }

  lemma Roots32()
    ensures RowRoots(P32, K32)
  {
    assert IsCubeRoot(P32[0], Whole(P32[0]), K32[0]);
    assert IsCubeRoot(P32[1], Whole(P32[1]), K32[1]);
    assert IsCubeRoot(P32[2], Whole(P32[2]), K32[2]);
    assert IsCubeRoot(P32[3], Whole(P32[3]), K32[3]);
    assert IsCubeRoot(P32[4], Whole(P32[4]), K32[4]);
    assert IsCubeRoot(P32[5], Whole(P32[5]), K32[5]);
    assert IsCubeRoot(P32[6], Whole(P32[6]), K32[6]);
    assert IsCubeRoot(P32[7], Whole(P32[7]), K32[7]);
  }

  lemma Roots40()
    ensures RowRoots(P40, K40)
  {
    assert IsCubeRoot(P40[0], Whole(P40[0]), K40[0]);
    assert IsCubeRoot(P40[1], Whole(P40[1]), K40[1]);
    assert IsCubeRoot(P40[2], Whole(P40[2]), K40[2]);
    assert IsCubeRoot(P40[3], Whole(P40[3]), K40[3]);
    assert IsCubeRoot(P40[4], Whole(P40[4]), K40[4]);
    assert IsCubeRoot(P40[5], Whole(P40[5]), K40[5]);
    assert IsCubeRoot(P40[6], Whole(P40[6]), K40[6]);
    assert IsCubeRoot(P40[7], Whole(P40[7]), K40[7]);
  }

  lemma Roots48()
    ensures RowRoots(P48, K48)
  {
    assert IsCubeRoot(P48[0], Whole(P48[0]), K48[0]);
    assert IsCubeRoot(P48[1], Whole(P48[1]), K48[1]);
    assert IsCubeRoot(P48[2], Whole(P48[2]), K48[2]);
    assert IsCubeRoot(P48[3], Whole(P48[3]), K48[3]);
    assert IsCubeRoot(P48[4], Whole(P48[4]), K48[4]);
    assert IsCubeRoot(P48[5], Whole(P48[5]), K48[5]);
    assert IsCubeRoot(P48[6], Whole(P48[6]), K48[6]);
    assert IsCubeRoot(P48[7], Whole(P48[7]), K48[7]);
  }

  lemma Roots56()
    ensures RowRoots(P56, K56)
  {
    assert IsCubeRoot(P56[0], Whole(P56[0]), K56[0]);
    assert IsCubeRoot(P56[1], Whole(P56[1]), K56[1]);
    assert IsCubeRoot(P56[2], Whole(P56[2]), K56[2]);
    assert IsCubeRoot(P56[3], Whole(P56[3]), K56[3]);
    assert IsCubeRoot(P56[4], Whole(P56[4]), K56[4]);
    assert IsCubeRoot(P56[5], Whole(P56[5]), K56[5]);
    assert IsCubeRoot(P56[6], Whole(P56[6]), K56[6]);
    assert IsCubeRoot(P56[7], Whole(P56[7]), K56[7]);
  }

  /** The round constants are the cube roots of the first 64 primes. */
  lemma ConstantsMean()
    ensures K == K0 + K8 + K16 + K24 + K32 + K40 + K48 + K56
    ensures RowRoots(P0, K0) && RowRoots(P8, K8) && RowRoots(P16, K16) && RowRoots(P24, K24)
    ensures RowRoots(P32, K32) && RowRoots(P40, K40) && RowRoots(P48, K48) && RowRoots(P56, K56)
  {
    hide RowRoots;
    Roots0();
    Roots8();
    Roots16();
    Roots24();
    Roots32();
    Roots40();
    Roots48();
    Roots56();
  }

  /** The initial value is the square roots of the first eight. */
  lemma InitialMeans()
    ensures |INITIAL| == 8
    ensures forall t :: 0 <= t < 8 ==> IsSquareRoot(P0[t], WholeRoot(P0[t]), INITIAL[t])
  {
    assert IsSquareRoot(P0[0], WholeRoot(P0[0]), INITIAL[0]);
    assert IsSquareRoot(P0[1], WholeRoot(P0[1]), INITIAL[1]);
    assert IsSquareRoot(P0[2], WholeRoot(P0[2]), INITIAL[2]);
    assert IsSquareRoot(P0[3], WholeRoot(P0[3]), INITIAL[3]);
    assert IsSquareRoot(P0[4], WholeRoot(P0[4]), INITIAL[4]);
    assert IsSquareRoot(P0[5], WholeRoot(P0[5]), INITIAL[5]);
    assert IsSquareRoot(P0[6], WholeRoot(P0[6]), INITIAL[6]);
    assert IsSquareRoot(P0[7], WholeRoot(P0[7]), INITIAL[7]);
  }

  // ---- Schedule, rounds, padding and digits -----------------------------------------------

  lemma AddOne(x: nat, y: word)
    ensures Add(x % TWO_32, y) == (x + y) % TWO_32
  {
  }

  lemma AddTwo(x: nat, y: nat)
    ensures Add(x % TWO_32, y % TWO_32) == (x + y) % TWO_32
  {
  }

  lemma Small(x: word)
    ensures x % TWO_32 == x
  {
  }

  /** Section 6.2.2, step 1, as sums modulo 2^32. */
  lemma ScheduleMeans(block: seq<byte>, t: nat)
    requires |block| == 64 && t < 64
    ensures t < 16 ==> W(block, t) == Number(block[4 * t..4 * t + 4])
    ensures t >= 16 ==>
              W(block, t) == (Sigma1(W(block, t - 2)) + W(block, t - 7) + Sigma0(W(block, t - 15)) + W(block, t - 16))
                             % 0x1_0000_0000
  {
    hide Sigma0, Sigma1, W, Add, BigEndian, Number;
    ScheduleWord(block, t);
    if t < 16 {
      FourBytes(block[4 * t..4 * t + 4]);
    } else {
      var a, b, c, d := W(block, t - 16), Sigma0(W(block, t - 15)), W(block, t - 7), Sigma1(W(block, t - 2));
      var two: nat := a as nat + b;
      var three: nat := two + c;
      Small(a);
      AddOne(a, b);
      AddOne(two, c);
      AddOne(three, d);
    }
  }

  lemma FourBytes(s: seq<byte>)
    requires |s| == 4
    ensures Number(s) == BigEndian(s[0], s[1], s[2], s[3])
  {
    hide Number;
    NumberLast(s, 4);
    NumberLast(s, 3);
    NumberLast(s, 2);
    NumberLast(s, 1);
    assert s[..4] == s && s[..0] == [];
    NumberNone();
  }

  lemma NumberNone()
    ensures Number([]) == 0
  {
  }

  /** Section 6.2.2, step 3. */
  lemma RoundMeans(v: Vars, k: word, w: word)
    ensures var t1 := v.h + Sum1(v.e) + Ch(v.e, v.f, v.g) + k + w;
            var t2 := Sum0(v.a) + Maj(v.a, v.b, v.c);
            var r := Round(v, k, w);
            && r.a == (t1 + t2) % 0x1_0000_0000 && r.b == v.a && r.c == v.b && r.d == v.c
            && r.e == (v.d + t1) % 0x1_0000_0000 && r.f == v.e && r.g == v.f && r.h == v.g
  {
    hide Sum0, Sum1, Ch, Maj, Add;
    var s, c := Sum1(v.e), Ch(v.e, v.f, v.g);
    var t1 := v.h + s + c + k + w;
    var m := Maj(v.a, v.b, v.c);
    Small(v.h);
    AddOne(v.h, s);
    AddOne(v.h + s, c);
    AddOne(v.h + s + c, k);
    AddOne(v.h + s + c + k, w);
    Small(Sum0(v.a));
    AddOne(Sum0(v.a), m);
    AddTwo(t1, Sum0(v.a) + m);
    Small(v.d);
    AddTwo(v.d, t1);
  }

  /** Section 6.2.2, steps 2 to 4, over all blocks: 64 rounds from the hash so far, and the sums with it. */
  lemma BlocksMean(s: seq<byte>, h: seq<word>, block: seq<byte>, t: nat)
    requires |s| % 64 == 0 && |h| == 8 && |block| == 64 && t < 64
    ensures Fold([]) == INITIAL && (s + block)[|s|..] == block && Fold(s + block) == Compress(Fold(s), block)
    ensures var start := Vars(h[0], h[1], h[2], h[3], h[4], h[5], h[6], h[7]);
            var v, r := Rounds(start, block, 64), Compress(h, block);
            && Rounds(start, block, 0) == start
            && Rounds(start, block, t + 1) == Round(Rounds(start, block, t), K[t], W(block, t))
            && r[0] == (h[0] + v.a) % 0x1_0000_0000 && r[1] == (h[1] + v.b) % 0x1_0000_0000
            && r[2] == (h[2] + v.c) % 0x1_0000_0000 && r[3] == (h[3] + v.d) % 0x1_0000_0000
            && r[4] == (h[4] + v.e) % 0x1_0000_0000 && r[5] == (h[5] + v.f) % 0x1_0000_0000
            && r[6] == (h[6] + v.g) % 0x1_0000_0000 && r[7] == (h[7] + v.h) % 0x1_0000_0000
  {
    hide Round, W, K;
    assert (s + block)[..|s|] == s;
  }

  /** The number that bytes write, most significant first. */
  function Number(t: seq<byte>): nat {
    if t == [] then 0 else 0x100 * Number(t[..|t| - 1]) + t[|t| - 1]
  }

  lemma {:induction false} LengthPrefix(bits: nat, j: nat)
    requires j <= 8
    ensures Number(LengthBytes(bits)[..j]) == bits / Power256(8 - j) % Power256(j)
    decreases j
  {
    hide Power256, LengthBytes, Number;
    var t := LengthBytes(bits);
    if j > 0 {
      LengthPrefix(bits, j - 1);
      NumberLast(t, j);
      LengthByteIs(bits, j - 1);
      PowerNext(8 - j);
      PowerNext(j - 1);
      PrefixStep(bits, Power256(8 - j), Power256(j - 1));
    } else {
      assert t[..0] == [];
      NumberNone();
      PowerZero();
    }
  }

  lemma PrefixStep(bits: nat, p: nat, q: nat)
    requires p > 0 && q > 0
    ensures p * 0x100 > 0 && q * 0x100 > 0
    ensures 0x100 * (bits / (p * 0x100) % q) + bits / p % 0x100 == bits / p % (q * 0x100)
  {
    DivTwice(bits, p, 0x100);
    DigitAppended(bits / p, q);
  }

  lemma PowerZero()
    ensures Power256(0) == 1
  {
  }

  lemma LengthByteIs(bits: nat, j: nat)
    requires j < 8
    ensures LengthBytes(bits)[j] == bits / Power256(7 - j) % 0x100
  {
    hide Power256;
  }

  lemma NumberLast(t: seq<byte>, j: nat)
    requires 0 < j <= |t|
    ensures Number(t[..j]) == 0x100 * Number(t[..j - 1]) + t[j - 1]
  {
    assert t[..j][..j - 1] == t[..j - 1];
  }

  lemma PowerNext(n: nat)
    ensures Power256(n + 1) == Power256(n) * 0x100
  {
  }

  /** One more digit at the end. */
  lemma DigitAppended(x: nat, p: nat)
    requires p > 0
    ensures 0x100 * (x / 0x100 % p) + x % 0x100 == x % (p * 0x100)
  {
    var y := x / 0x100;
    var a, b := y / p, y % p;
    DivMod(y, p);
    Fits(0x100, p, b, x % 0x100);
    assert x == 0x100 * (p * a + b) + x % 0x100;
    assert x == (p * 0x100) * a + (0x100 * b + x % 0x100);
    QuotientIs(x, p * 0x100, a, 0x100 * b + x % 0x100);
  }

  /** Section 5.1.1: a one bit, the fewest zeros that fit, and the length of the message in bits. */
  lemma PadMeans(m: seq<byte>)
    requires |m| < 0x2000_0000_0000_0000
    ensures var p := Pad(m);
            && |p| % 64 == 0 && |m| + 9 <= |p| < |m| + 73 && p[..|m|] == m && p[|m|] == 0x80
            && (forall k :: |m| < k < |p| - 8 ==> p[k] == 0) && Number(p[|p| - 8..]) == 8 * |m|
  {
    var p := Pad(m);
    assert p[|p| - 8..] == LengthBytes(8 * |m|) == LengthBytes(8 * |m|)[..8];
    LengthPrefix(8 * |m|, 8);
    EightBytes();
  }

  lemma EightBytes()
    ensures Power256(0) == 1 && Power256(8) == 0x1_0000_0000_0000_0000
  {
    assert Power256(2) == 0x1_0000 && Power256(4) == 0x1_0000_0000 && Power256(6) == 0x1_0000_0000_0000;
  }

  /** The value of a lower-case hexadecimal digit; 16 for anything else. */
  function DigitValue(c: char): nat {
    if '0' <= c <= '9' then c as int - '0' as int
    else if 'a' <= c <= 'f' then c as int - 'a' as int + 10
    else 16
  }

  lemma DigitReads(v: int)
    requires 0 <= v < 16
    ensures DigitValue(Digit(v)) == v
  {
  }

  lemma DigitAt(h: seq<word>, i: nat, j: nat)
    requires |h| == 8 && i < 8 && j < 8
    ensures DigitValue(Hex(h)[8 * i + j]) == Nibble(h[i], j)
  {
    hide Digit, DigitValue, Nibble;
    assert (8 * i + j) / 8 == i && (8 * i + j) % 8 == j;
    DigitReads(Nibble(h[i], j));
  }

  /** The eight digits of word `i` write that word, most significant first. */
  lemma HexMeans(h: seq<word>, i: nat)
    requires |h| == 8 && i < 8
    ensures var t := Hex(h);
            h[i] == DigitValue(t[8 * i]) * 0x1000_0000 + DigitValue(t[8 * i + 1]) * 0x100_0000
                    + DigitValue(t[8 * i + 2]) * 0x10_0000 + DigitValue(t[8 * i + 3]) * 0x1_0000
                    + DigitValue(t[8 * i + 4]) * 0x1000 + DigitValue(t[8 * i + 5]) * 0x100
                    + DigitValue(t[8 * i + 6]) * 0x10 + DigitValue(t[8 * i + 7])
  {
    hide DigitValue, Hex, Nibble;
    DigitAt(h, i, 0);
    DigitAt(h, i, 1);
    DigitAt(h, i, 2);
    DigitAt(h, i, 3);
    DigitAt(h, i, 4);
    DigitAt(h, i, 5);
    DigitAt(h, i, 6);
    DigitAt(h, i, 7);
    NibblesSum(h[i]);
  }

  lemma NibblesSum(w: word)
    ensures w == Nibble(w, 0) * 0x1000_0000 + Nibble(w, 1) * 0x100_0000 + Nibble(w, 2) * 0x10_0000
                 + Nibble(w, 3) * 0x1_0000 + Nibble(w, 4) * 0x1000 + Nibble(w, 5) * 0x100 + Nibble(w, 6) * 0x10
                 + Nibble(w, 7)
  {
    NibbleOff(w, 1);
    NibbleOff(w, 0x10);
    NibbleOff(w, 0x100);
    NibbleOff(w, 0x1000);
    NibbleOff(w, 0x1_0000);
    NibbleOff(w, 0x10_0000);
    NibbleOff(w, 0x100_0000);
    assert w / 0x1000_0000 % 0x10 == w / 0x1000_0000;
  }

  /** One digit off the end. */
  lemma NibbleOff(w: nat, p: nat)
    requires p > 0
    ensures w / p == 0x10 * (w / (p * 0x10)) + w / p % 0x10
  {
    DivTwice(w, p, 0x10);
  }
}
