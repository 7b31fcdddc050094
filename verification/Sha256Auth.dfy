/** The SHA-256 of `auth.c`: its own compression loop, buffering, padding and hexadecimal output. */
module Sha256Auth {
  import opened Bytes
  import opened Sha256

  class Context {
    const h: array<word>
    const block: array<byte>
    var bits: nat
    var used: nat
    /** Every byte that has been fed in. */
    ghost var fed: seq<byte>

    /** The context stands for stream `s`: whole blocks in the chaining value, the rest in the block. */
    ghost predicate Holds(s: seq<byte>)
      reads this`used, h, block
    {
      && h.Length == 8 && block.Length == BLOCK
      && used <= BLOCK && used <= |s| && (|s| - used) % BLOCK == 0
      && h[..] == Fold(s[..|s| - used]) && block[..used] == s[|s| - used..]
    }

    ghost predicate Valid()
      reads this, h, block
    {
      Holds(fed) && used < BLOCK && bits == 8 * |fed| % TWO_64
    }

    constructor ()
      ensures Valid() && fresh(h) && fresh(block) && fed == []
    {
      h := new word[8](i requires 0 <= i < 8 => INITIAL[i]);
      block := new byte[BLOCK](_ => 0);
      bits, used, fed := 0, 0, [];
      new;
      assert h[..] == INITIAL;
    }

    /** Nothing in the block: the chaining value is the fold of the whole stream. */
    lemma WholeStream(s: seq<byte>)
      requires Holds(s) && used == 0
      ensures |s| % BLOCK == 0 && h.Length == 8 && h[..] == Fold(s)
    {
      hide Fold;
      assert s[..|s|] == s;
    }

    /** `sha256_block`: a full block goes into the chaining value. */
    method CompressBlock(ghost s: seq<byte>)
      requires Holds(s) && used == BLOCK
      modifies this`used, h
      ensures Holds(s) && used == 0
    {
      hide Compress, Rounds, Add;
      ghost var was, b := h[..], block[..];
      var w := Schedule(block);
      var v := AllRounds(Vars(h[0], h[1], h[2], h[3], h[4], h[5], h[6], h[7]), w, b);
      h[0], h[1], h[2], h[3] := Add(h[0], v.a), Add(h[1], v.b), Add(h[2], v.c), Add(h[3], v.d);
      h[4], h[5], h[6], h[7] := Add(h[4], v.e), Add(h[5], v.f), Add(h[6], v.g), Add(h[7], v.h);
      AfterRounds(was, b, h[..]);
      assert b == block[..used] && s[..|s|] == s;
      used := 0;
    }

    /** `sha256_update` */
    method Update(data: seq<byte>)
      requires Valid()
      modifies this, h, block
      ensures Valid() && fed == old(fed) + data
    {
      hide Holds;
      var from := 0;
      while from < |data|
        invariant from <= |data| && Valid() && fed == old(fed) + data[..from]
      {
        var n := BLOCK - used;
        if n > |data| - from { n := |data| - from; }
        Take(data[from..from + n]);
        assert data[..from + n] == data[..from] + data[from..from + n];
        from := from + n;
      }
    }

    /** One turn of the loop: what fits the block, then a compression when it is full. */
    method Take(chunk: seq<byte>)
      requires Valid() && used + |chunk| <= BLOCK
      modifies this, h, block
      ensures Valid() && fed == old(fed) + chunk
    {
      hide Fold, Holds;
      Put(fed, chunk);
      CountBits(|fed|, |chunk|);
      bits := (bits + |chunk| * 8) % TWO_64;
      fed := fed + chunk;
      if used == BLOCK {
        CompressBlock(fed);
      }
    }

    /** Bytes that fit the block. */
    method Put(ghost s: seq<byte>, chunk: seq<byte>)
      requires Holds(s) && used + |chunk| <= BLOCK
      modifies this`used, block
      ensures Holds(s + chunk) && used == old(used) + |chunk|
    {
      hide Fold;
      ghost var was := block[..used];
      forall k | 0 <= k < |chunk| {
        block[used + k] := chunk[k];
      }
      assert block[..used] == was;
      used := used + |chunk|;
      assert block[..used] == was + chunk;
      Extend(s, chunk, used);
    }

    /** One turn of the padding loop. */
    method PutZero(ghost m: seq<byte>, ghost z: nat)
      requires Holds(Padded(m, z))
      modifies this`used, h, block
      ensures Holds(Padded(m, z + 1))
    {
      hide Fold, Padded;
      if used == BLOCK {
        CompressBlock(Padded(m, z));
      }
      Put(Padded(m, z), [0]);
      OneMoreZero(m, z);
    }

    /** The one bit and the zeros, straight into the block. */
    method PutPadding(ghost m: seq<byte>)
      requires Holds(m) && used < BLOCK
      modifies this`used, h, block
      ensures Holds(Padded(m, ZeroCount(|m|))) && used == 56
    {
      hide Fold, Padded, ZeroCount;
      ghost var z := 0;
      Put(m, [0x80]);
      OneMoreZero(m, 0);
      ZerosSoFar(|m|, 0, used);
      while used != 56
        invariant Holds(Padded(m, z)) && z <= ZeroCount(|m|)
        invariant used == 56 <==> z == ZeroCount(|m|)
        decreases ZeroCount(|m|) - z
      {
        PutZero(m, z);
        z := z + 1;
        ZerosSoFar(|m|, z, used);
      }
    }

    /** `sha256_final` */
    method Final() returns (digest: seq<byte>)
      requires Valid() && |fed| < MAX_BYTES
      modifies this, h, block
      ensures digest == DigestBytes(Hash(old(fed)))
    {
      hide Fold, Holds, LengthBytes, Padded, Pad, ZeroCount, Hash, DigestBytes;
      ghost var m := fed;
      HashIs(m);
      assert bits == 8 * |m|;
      var length := bits;
      PutPadding(m);
      Put(Padded(m, ZeroCount(|m|)), LengthBytes(length));
      PadIs(m);
      CompressBlock(Pad(m));
      WholeStream(Pad(m));
      return DigestBytes(h[..]);
    }
  }

  lemma HashIs(m: seq<byte>)
    ensures |Pad(m)| % BLOCK == 0 && Hash(m) == Fold(Pad(m))
  {
  }

  lemma Extend(s: seq<byte>, chunk: seq<byte>, used: nat)
    requires |chunk| <= used <= |s| + |chunk|
    ensures (s + chunk)[..|s + chunk| - used] == s[..|s| + |chunk| - used]
    ensures (s + chunk)[|s + chunk| - used..] == s[|s| + |chunk| - used..] + chunk
  {
  }

  /** The second loop of `sha256_block`. */
  method AllRounds(start: Vars, w: array<word>, ghost b: seq<byte>) returns (v: Vars)
    requires |b| == BLOCK && w.Length == 64 && forall t :: 0 <= t < 64 ==> w[t] == W(b, t)
    ensures v == Rounds(start, b, 64)
  {
    hide Round, W;
    v := start;
    var i := 0;
    while i < 64
      invariant i <= 64 && v == Rounds(start, b, i)
    {
      v := Round(v, K[i], w[i]);
      i := i + 1;
    }
  }

  /** The message schedule in an array. */
  method Schedule(block: array<byte>) returns (w: array<word>)
    requires block.Length == BLOCK
    ensures fresh(w) && w.Length == 64 && forall t :: 0 <= t < 64 ==> w[t] == W(block[..], t)
  {
    hide BigEndian, Sigma0, Sigma1, Add, W;
    w := new word[64];
    var i := 0;
    while i < 16
      invariant i <= 16 && forall t :: 0 <= t < i ==> w[t] == W(block[..], t)
    {
      ScheduleWord(block[..], i);
      w[i] := BigEndian(block[4 * i], block[4 * i + 1], block[4 * i + 2], block[4 * i + 3]);
      i := i + 1;
    }
    while i < 64
      invariant 16 <= i <= 64 && forall t :: 0 <= t < i ==> w[t] == W(block[..], t)
    {
      ScheduleWord(block[..], i);
      w[i] := Add(Add(Add(w[i - 16], Sigma0(w[i - 15])), w[i - 7]), Sigma1(w[i - 2]));
      i := i + 1;
    }
  }

  /** `digest_hex` */
  method DigestHex(digest: seq<byte>, ghost h: seq<word>) returns (out: string)
    requires |h| == 8 && digest == DigestBytes(h)
    ensures out == Hex(h)
  {
    hide Digit, WordByte, Nibble;
    out := [];
    var i := 0;
    while i < 32
      invariant i <= 32 && |out| == 2 * i && out == Hex(h)[..2 * i]
    {
      ByteDigits(h[i / 4], i % 4);
      assert 2 * i / 8 == i / 4 && 2 * i % 8 == 2 * (i % 4);
      assert (2 * i + 1) / 8 == i / 4 && (2 * i + 1) % 8 == 2 * (i % 4) + 1;
      out := out + [Digit(digest[i] / 0x10), Digit(digest[i] % 0x10)];
      i := i + 1;
    }
  }

  /** `hash_password`: the digest of salt, colon and password. */
  method HashPassword(salt: seq<byte>, password: seq<byte>) returns (out: string)
    requires |salt| + 1 + |password| < MAX_BYTES
    ensures out == Hex(Hash(salt + [0x3A] + password))
  {
    hide Hex, Hash, Context.Valid, Context.Holds;
    var ctx := new Context();
    ctx.Update(salt);
    ctx.Update([0x3A]);
    ctx.Update(password);
    assert [] + salt == salt;
    var digest := ctx.Final();
    out := DigestHex(digest, Hash(salt + [0x3A] + password));
  }
}
