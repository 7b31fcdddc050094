/** SHA-256 as FIPS 180-4 defines it: padding (5.1.1), initial value (5.3.3), compression (6.2.2). */
module Sha256 {
  import opened Bytes

  /** A 32-bit word. Shifts and sums of disjoint bits are written as arithmetic. */
  type word = w: int | 0 <= w < TWO_32

  const TWO_32: nat := 0x1_0000_0000

  const K0: seq<word> := [
    0x428a2f98, 0x71374491, 0xb5c0fbcf, 0xe9b5dba5, 0x3956c25b, 0x59f111f1, 0x923f82a4, 0xab1c5ed5]
  const K8: seq<word> := [
    0xd807aa98, 0x12835b01, 0x243185be, 0x550c7dc3, 0x72be5d74, 0x80deb1fe, 0x9bdc06a7, 0xc19bf174]
  const K16: seq<word> := [
    0xe49b69c1, 0xefbe4786, 0x0fc19dc6, 0x240ca1cc, 0x2de92c6f, 0x4a7484aa, 0x5cb0a9dc, 0x76f988da]
  const K24: seq<word> := [
    0x983e5152, 0xa831c66d, 0xb00327c8, 0xbf597fc7, 0xc6e00bf3, 0xd5a79147, 0x06ca6351, 0x14292967]
  const K32: seq<word> := [
    0x27b70a85, 0x2e1b2138, 0x4d2c6dfc, 0x53380d13, 0x650a7354, 0x766a0abb, 0x81c2c92e, 0x92722c85]
  const K40: seq<word> := [
    0xa2bfe8a1, 0xa81a664b, 0xc24b8b70, 0xc76c51a3, 0xd192e819, 0xd6990624, 0xf40e3585, 0x106aa070]
  const K48: seq<word> := [
    0x19a4c116, 0x1e376c08, 0x2748774c, 0x34b0bcb5, 0x391c0cb3, 0x4ed8aa4a, 0x5b9cca4f, 0x682e6ff3]
  const K56: seq<word> := [
    0x748f82ee, 0x78a5636f, 0x84c87814, 0x8cc70208, 0x90befffa, 0xa4506ceb, 0xbef9a3f7, 0xc67178f2]

  /** The round constants. */
  const K: seq<word> := K0 + K8 + K16 + K24 + K32 + K40 + K48 + K56

  const INITIAL: seq<word> := [
    0x6a09e667, 0xbb67ae85, 0x3c6ef372, 0xa54ff53a, 0x510e527f, 0x9b05688c, 0x1f83d9ab, 0x5be0cd19
  ]

  const BLOCK: nat := 64
  const TWO_64: nat := 0x1_0000_0000_0000_0000
  const MAX_BYTES: nat := 0x2000_0000_0000_0000

  // ---- Compression of one block -----------------------------------------------------------

  /** The `and` of the low `n` bits. */
  function BitAnd(x: nat, y: nat, n: nat): (r: nat)
    ensures r < Power2(n)
  {
    if n == 0 then 0 else 2 * BitAnd(x / 2, y / 2, n - 1) + (if x % 2 == 1 && y % 2 == 1 then 1 else 0)
  }

  /** The `xor` of the low `n` bits. */
  function BitXor(x: nat, y: nat, n: nat): (r: nat)
    ensures r < Power2(n)
  {
    if n == 0 then 0 else 2 * BitXor(x / 2, y / 2, n - 1) + (x + y) % 2
  }

  lemma Width()
    ensures Power2(32) == TWO_32
  {
    assert Power2(8) == 0x100 && Power2(16) == 0x1_0000 && Power2(24) == 0x100_0000;
  }

  function And(x: word, y: word): word { Width(); BitAnd(x, y, 32) }

  function Xor(x: word, y: word): word { Width(); BitXor(x, y, 32) }

  function Not(x: word): word { TWO_32 - 1 - x }

  /** Addition modulo 2^32. */
  function Add(x: word, y: word): word { (x + y) % TWO_32 }

  function Power2(n: nat): (p: nat)
    ensures p > 0
  {
    if n == 0 then 1 else 2 * Power2(n - 1)
  }

  function Shr(x: word, n: nat): word { (x / Power2(n)) % TWO_32 }

  function Shl(x: word, n: nat): word { x * Power2(n) % TWO_32 }

  function Rotr(x: word, n: nat): word
    requires 0 < n < 32
  {
    Add(Shr(x, n), Shl(x, 32 - n))
  }

  function Ch(x: word, y: word, z: word): word { Xor(And(x, y), And(Not(x), z)) }

  function Maj(x: word, y: word, z: word): word { Xor(Xor(And(x, y), And(x, z)), And(y, z)) }

  function Sum0(x: word): word { Xor(Xor(Rotr(x, 2), Rotr(x, 13)), Rotr(x, 22)) }

  function Sum1(x: word): word { Xor(Xor(Rotr(x, 6), Rotr(x, 11)), Rotr(x, 25)) }

  function Sigma0(x: word): word { Xor(Xor(Rotr(x, 7), Rotr(x, 18)), Shr(x, 3)) }

  function Sigma1(x: word): word { Xor(Xor(Rotr(x, 17), Rotr(x, 19)), Shr(x, 10)) }

  /** Four bytes, most significant first. */
  function BigEndian(b0: byte, b1: byte, b2: byte, b3: byte): word {
    ((b0 * 0x100 + b1) * 0x100 + b2) * 0x100 + b3
  }

  /** Word `t` of the message schedule. */
  function W(block: seq<byte>, t: nat): word
    requires |block| == BLOCK && t < 64
  {
    if t < 16 then BigEndian(block[4 * t], block[4 * t + 1], block[4 * t + 2], block[4 * t + 3])
    else Add(Add(Add(W(block, t - 16), Sigma0(W(block, t - 15))), W(block, t - 7)), Sigma1(W(block, t - 2)))
  }

  datatype Vars = Vars(a: word, b: word, c: word, d: word, e: word, f: word, g: word, h: word)

  function Round(v: Vars, k: word, w: word): Vars {
    var t1 := Add(Add(Add(Add(v.h, Sum1(v.e)), Ch(v.e, v.f, v.g)), k), w);
    var t2 := Add(Sum0(v.a), Maj(v.a, v.b, v.c));
    Vars(Add(t1, t2), v.a, v.b, v.c, Add(v.d, t1), v.e, v.f, v.g)
  }

  function Rounds(v: Vars, block: seq<byte>, t: nat): Vars
    requires |block| == BLOCK && t <= 64
  {
    if t == 0 then v else Round(Rounds(v, block, t - 1), K[t - 1], W(block, t - 1))
  }

  function Compress(h: seq<word>, block: seq<byte>): (r: seq<word>)
    requires |h| == 8 && |block| == BLOCK
    ensures |r| == 8
  {
    var v := Rounds(Vars(h[0], h[1], h[2], h[3], h[4], h[5], h[6], h[7]), block, 64);
    [Add(h[0], v.a), Add(h[1], v.b), Add(h[2], v.c), Add(h[3], v.d),
     Add(h[4], v.e), Add(h[5], v.f), Add(h[6], v.g), Add(h[7], v.h)]
  }

  // ---- Whole messages ---------------------------------------------------------------------

  /** The chaining value after the whole blocks of `s`. */
  function Fold(s: seq<byte>): (h: seq<word>)
    requires |s| % BLOCK == 0
    ensures |h| == 8
  {
    if s == [] then INITIAL else Compress(Fold(s[..|s| - BLOCK]), s[|s| - BLOCK..])
  }

  /** How many zero bytes bring a message of `n` bytes and its one bit to 56 modulo 64. */
  function ZeroCount(n: nat): (z: nat)
    ensures z < BLOCK && (n + 1 + z) % BLOCK == 56
  {
    (119 - n % BLOCK) % BLOCK
  }

  function Zeros(n: nat): seq<byte> {
    seq(n, _ => 0)
  }

  function Power256(n: nat): (p: nat)
    ensures p > 0
  {
    if n == 0 then 1 else 256 * Power256(n - 1)
  }

  /** Byte `j` of the 64-bit length, most significant first. */
  function LengthByte(bits: nat, j: nat): byte
    requires j < 8
  {
    bits / Power256(7 - j) % 0x100
  }

  function LengthBytes(bits: nat): (t: seq<byte>)
    ensures |t| == 8
  {
    seq(8, j requires 0 <= j < 8 => LengthByte(bits, j))
  }

  function Pad(m: seq<byte>): (p: seq<byte>)
    ensures |p| % BLOCK == 0
  {
    m + [0x80] + Zeros(ZeroCount(|m|)) + LengthBytes(8 * |m|)
  }

  function Hash(m: seq<byte>): (h: seq<word>)
    ensures |h| == 8
  {
    Fold(Pad(m))
  }

  // ---- Hexadecimal form -------------------------------------------------------------------

  const DIGITS: string := "0123456789abcdef"

  function Digit(v: int): char
    requires 0 <= v < 16
  {
    DIGITS[v]
  }

  /** The weight of digit `j` of eight. */
  function Weight(j: nat): (p: nat)
    requires j < 8
    ensures p > 0
  {
    if j == 0 then 0x1000_0000 else if j == 1 then 0x100_0000 else if j == 2 then 0x10_0000 else if j == 3 then 0x1_0000
    else if j == 4 then 0x1000 else if j == 5 then 0x100 else if j == 6 then 0x10 else 1
  }

  /** Four bits of a word, most significant first. */
  function Nibble(w: word, j: nat): (n: int)
    requires j < 8
    ensures 0 <= n < 16
  {
    w / Weight(j) % 0x10
  }

  /** Digit `j` of a word written with eight lower-case digits. */
  function WordDigit(w: word, j: nat): char
    requires j < 8
  {
    Digit(Nibble(w, j))
  }

  /** The eight words one after another. */
  function Hex(h: seq<word>): (t: string)
    requires |h| == 8
    ensures |t| == 64
  {
    seq(64, j requires 0 <= j < 64 => WordDigit(h[j / 8], j % 8))
  }

  /** Byte `j` of a word, most significant first. */
  function WordByte(w: word, j: nat): byte
    requires j < 4
  {
    w / Weight(2 * j + 1) % 0x100
  }

  /** The digest of section 6.2.2 as bytes. */
  function DigestBytes(h: seq<word>): (t: seq<byte>)
    requires |h| == 8
    ensures |t| == 32
  {
    seq(32, j requires 0 <= j < 32 => WordByte(h[j / 4], j % 4))
  }

  /** The two digits of a byte are two digits of its word. */
  lemma ByteDigits(w: word, j: nat)
    requires j < 4
    ensures WordByte(w, j) / 0x10 == Nibble(w, 2 * j)
    ensures WordByte(w, j) % 0x10 == Nibble(w, 2 * j + 1)
  {
    var x := w / Weight(2 * j + 1);
    assert x / 0x10 == w / Weight(2 * j) by {
      if j == 0 { assert w / 0x100_0000 / 0x10 == w / 0x1000_0000; }
      else if j == 1 { assert w / 0x1_0000 / 0x10 == w / 0x10_0000; }
      else if j == 2 { assert w / 0x100 / 0x10 == w / 0x1000; }
      else { assert w / 1 / 0x10 == w / 0x10; }
    }
    ByteSplit(x);
  }

  lemma ByteSplit(x: nat)
    ensures x % 0x100 / 0x10 == x / 0x10 % 0x10 && x % 0x100 % 0x10 == x % 0x10
  {
    var high, low := x / 0x100, x % 0x100;
    assert x == 0x10 * (0x10 * high + low / 0x10) + low % 0x10;
  }

  // ---- The schedule, one word at a time ---------------------------------------------------

  lemma ScheduleWord(block: seq<byte>, t: nat)
    requires |block| == BLOCK && t < 64
    ensures t < 16 ==> W(block, t) == BigEndian(block[4 * t], block[4 * t + 1], block[4 * t + 2], block[4 * t + 3])
    ensures t >= 16 ==> W(block, t) == Add(Add(Add(W(block, t - 16), Sigma0(W(block, t - 15))), W(block, t - 7)),
                                           Sigma1(W(block, t - 2)))
  {
    hide BigEndian, Add, Sigma0, Sigma1;
  }

  /** The bit counter of either implementation after `n` more bytes. */
  lemma CountBits(a: nat, n: nat)
    ensures (8 * a % TWO_64 + n * 8) % TWO_64 == 8 * (a + n) % TWO_64
  {
    var q := 8 * a / TWO_64;
    assert 8 * (a + n) == q * TWO_64 + (8 * a % TWO_64 + n * 8);
  }

  /** The additions behind the rounds complete the compression. */
  lemma AfterRounds(h: seq<word>, b: seq<byte>, r: seq<word>)
    requires |h| == |r| == 8 && |b| == BLOCK
    requires var v := Rounds(Vars(h[0], h[1], h[2], h[3], h[4], h[5], h[6], h[7]), b, 64);
             && r[0] == Add(h[0], v.a) && r[1] == Add(h[1], v.b) && r[2] == Add(h[2], v.c) && r[3] == Add(h[3], v.d)
             && r[4] == Add(h[4], v.e) && r[5] == Add(h[5], v.f) && r[6] == Add(h[6], v.g) && r[7] == Add(h[7], v.h)
    ensures r == Compress(h, b)
  {
    hide Rounds, Add;
  }

  // ---- Padding, one byte at a time --------------------------------------------------------

  /** The padding loop can only stop behind the right number of zeros. */
  lemma ZerosSoFar(n: nat, z: nat, used: nat)
    requires z <= ZeroCount(n) && used <= BLOCK && (n + 1 + z - used) % BLOCK == 0 && used <= n + 1 + z
    ensures used == 56 <==> z == ZeroCount(n)
  {
    var q := (n + 1 + z - used) / BLOCK;
    assert n + 1 + z == q * BLOCK + used;
    var p := (n + 1 + ZeroCount(n)) / BLOCK;
    assert n + 1 + ZeroCount(n) == p * BLOCK + 56;
    assert ZeroCount(n) - z == (p - q) * BLOCK + 56 - used;
  }

  /** A message, its one bit, and the zeros so far. */
  function Padded(m: seq<byte>, z: nat): (t: seq<byte>)
    ensures |t| == |m| + 1 + z
  {
    m + [0x80] + Zeros(z)
  }

  lemma OneMoreZero(m: seq<byte>, z: nat)
    ensures Padded(m, z) + [0] == Padded(m, z + 1)
    ensures Padded(m, 0) == m + [0x80]
  {
  }

  lemma PadIs(m: seq<byte>)
    ensures Pad(m) == Padded(m, ZeroCount(|m|)) + LengthBytes(8 * |m|)
  {
  }
}
