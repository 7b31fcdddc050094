/** The SHA-256 of `le_sha256.h`, shared by the provenance modules: padding goes through the update loop. */
module Sha256Shared {
  import opened Bytes
  import opened Sha256

  class Context {
    const state: array<word>
    const block: array<byte>
    var bits: nat
    var used: nat
    /** Every byte that has been fed in. */
    ghost var fed: seq<byte>

    ghost predicate Holds(s: seq<byte>)
      reads this`used, state, block
    {
      && state.Length == 8 && block.Length == BLOCK
      && used <= BLOCK && used <= |s| && (|s| - used) % BLOCK == 0
      && state[..] == Fold(s[..|s| - used]) && block[..used] == s[|s| - used..]
    }

    ghost predicate Valid()
      reads this, state, block
    {
      Holds(fed) && used < BLOCK && bits == 8 * |fed| % TWO_64
    }

    /** `sha256_init` */
    constructor ()
      ensures Valid() && fresh(state) && fresh(block) && fed == []
    {
      state := new word[8](i requires 0 <= i < 8 => INITIAL[i]);
      block := new byte[BLOCK](_ => 0);
      bits, used, fed := 0, 0, [];
      new;
      assert state[..] == INITIAL;
    }

    /** `sha256_transform` on the full block, and the reset of `used` that follows it. */
    method Transform(ghost s: seq<byte>)
      requires Holds(s) && used == BLOCK
      modifies this`used, state
      ensures Holds(s) && used == 0
    {
      hide Compress, Rounds, Add;
      ghost var was, t := state[..], block[..];
      var w := Expand(block);
      var v := Mix(state, w, t);
      state[0], state[1] := Add(state[0], v.a), Add(state[1], v.b);
      state[2], state[3] := Add(state[2], v.c), Add(state[3], v.d);
      state[4], state[5] := Add(state[4], v.e), Add(state[5], v.f);
      state[6], state[7] := Add(state[6], v.g), Add(state[7], v.h);
      AfterRounds(was, t, state[..]);
      assert t == block[..used] && s[..|s|] == s;
      used := 0;
    }

    /** `sha256_update` */
    method Update(data: seq<byte>)
      requires Valid()
      modifies this, state, block
      ensures Valid() && fed == old(fed) + data
    {
      hide Holds;
      var from := 0;
      while from < |data|
        invariant from <= |data| && Valid() && fed == old(fed) + data[..from]
      {
        var take := BLOCK - used;
        if take > |data| - from { take := |data| - from; }
        Copy(fed, data[from..from + take]);
        CountBits(|fed|, take);
        bits := (bits + take * 8) % TWO_64;
        fed := fed + data[from..from + take];
        assert data[..from + take] == data[..from] + data[from..from + take];
        from := from + take;
        if used == BLOCK {
          Transform(fed);
        }
      }
    }

    /** The `memcpy` of the update loop. */
    method Copy(ghost s: seq<byte>, chunk: seq<byte>)
      requires Holds(s) && used + |chunk| <= BLOCK
      modifies this`used, block
      ensures Holds(s + chunk) && used == old(used) + |chunk|
    {
      hide Fold;
      ghost var was := block[..used];
      forall k | 0 <= k < |chunk| {
        block[used + k] := chunk[k];
      }
      assert block[..used] == was;
      used := used + |chunk|;
      assert block[..used] == was + chunk;
      ghost var t := s + chunk;
      assert t[..|t| - used] == s[..|s| + |chunk| - used] && t[|t| - used..] == s[|s| + |chunk| - used..] + chunk;
    }

    /** `sha256_final`: writes nothing into a buffer that is too small. */
    method Final(outSize: nat) returns (out: string)
      requires Valid() && |fed| < MAX_BYTES
      modifies this, state, block
      ensures out == if outSize < 65 then "" else Hex(Hash(old(fed)))
    {
      hide Holds, Fold, Hash, Hex, Pad, Padded, ZeroCount, LengthBytes;
      if outSize < 65 { return ""; }
      ghost var m := fed;
      assert bits == 8 * |m|;
      var length := LengthBytes(bits);
      UpdateZeros();
      Update(length);
      PadIs(m);
      HashEnds(m);
      return Hex(state[..]);
    }

    /** The one bit and the zeros, one update each. */
    method UpdateZeros()
      requires Valid()
      modifies this, state, block
      ensures Valid() && fed == Padded(old(fed), ZeroCount(|old(fed)|))
    {
      hide Fold, Padded, ZeroCount;
      ghost var m, z := fed, 0;
      Update([0x80]);
      OneMoreZero(m, 0);
      ZerosSoFar(|m|, 0, used);
      while used != 56
        invariant Valid() && fed == Padded(m, z) && z <= ZeroCount(|m|)
        invariant used == 56 <==> z == ZeroCount(|m|)
        decreases ZeroCount(|m|) - z
      {
        Update([0]);
        OneMoreZero(m, z);
        z := z + 1;
        ZerosSoFar(|m|, z, used);
      }
    }

    lemma HashEnds(m: seq<byte>)
      requires Valid() && fed == Pad(m)
      ensures state[..] == Hash(m)
    {
      hide Fold, Pad;
      assert |Pad(m)| % BLOCK == 0;
      assert used % BLOCK == 0;
      assert fed[..|fed|] == fed;
    }
  }

  /** The first two loops: words of the block, then the rest of the schedule. */
  method Expand(block: array<byte>) returns (w: array<word>)
    requires block.Length == BLOCK
    ensures fresh(w) && w.Length == 64 && forall t :: 0 <= t < 64 ==> w[t] == W(block[..], t)
  {
    hide BigEndian, Sigma0, Sigma1, Add, W;
    w := new word[64];
    for i := 0 to 16
      invariant forall t :: 0 <= t < i ==> w[t] == W(block[..], t)
    {
      ScheduleWord(block[..], i);
      w[i] := BigEndian(block[4 * i], block[4 * i + 1], block[4 * i + 2], block[4 * i + 3]);
    }
    for i := 16 to 64
      invariant forall t :: 0 <= t < i ==> w[t] == W(block[..], t)
    {
      ScheduleWord(block[..], i);
      var s0, s1 := Sigma0(w[i - 15]), Sigma1(w[i - 2]);
      w[i] := Add(Add(Add(w[i - 16], s0), w[i - 7]), s1);
    }
  }

  /** The third loop, over eight working variables. */
  method Mix(state: array<word>, w: array<word>, ghost block: seq<byte>) returns (v: Vars)
    requires state.Length == 8 && w.Length == 64 && |block| == BLOCK
    requires forall t :: 0 <= t < 64 ==> w[t] == W(block, t)
    ensures v == Rounds(Vars(state[0], state[1], state[2], state[3], state[4], state[5], state[6], state[7]), block, 64)
  {
    hide W, Add, Sum0, Sum1, Ch, Maj;
    var a, b, c, d := state[0], state[1], state[2], state[3];
    var e, f, g, h := state[4], state[5], state[6], state[7];
    ghost var start := Vars(a, b, c, d, e, f, g, h);
    for i := 0 to 64
      invariant Vars(a, b, c, d, e, f, g, h) == Rounds(start, block, i)
    {
      var t1 := Add(Add(Add(Add(h, Sum1(e)), Ch(e, f, g)), K[i]), w[i]);
      var t2 := Add(Sum0(a), Maj(a, b, c));
      h, g, f, e, d, c, b, a := g, f, e, Add(d, t1), c, b, a, Add(t1, t2);
    }
    return Vars(a, b, c, d, e, f, g, h);
  }

  // ---- Any split into updates -------------------------------------------------------------

  /** However a message is cut into updates, the digest is that of the message. */
  method HashChunks(chunks: seq<seq<byte>>) returns (out: string)
    requires |Concat(chunks)| < MAX_BYTES
    ensures out == Hex(Hash(Concat(chunks)))
  {
    hide Context.Valid, Hash, Hex;
    var ctx := new Context();
    var i := 0;
    assert chunks[0..] == chunks && [] + Concat(chunks) == Concat(chunks);
    while i < |chunks|
      invariant i <= |chunks| && fresh(ctx) && fresh(ctx.state) && fresh(ctx.block) && ctx.Valid()
      invariant ctx.fed + Concat(chunks[i..]) == Concat(chunks)
    {
      assert chunks[i..][1..] == chunks[i + 1..];
      assert (ctx.fed + chunks[i]) + Concat(chunks[i + 1..]) == ctx.fed + Concat(chunks[i..]);
      ctx.Update(chunks[i]);
      i := i + 1;
    }
    assert ctx.fed == Concat(chunks);
    out := ctx.Final(65);
  }
}
