/** The two SHA-256 implementations, fed the same message however each is cut up, give the same characters. */
module Sha256Agree {
  import opened Bytes
  import opened Sha256
  import Auth = Sha256Auth
  import Shared = Sha256Shared

  /** `auth.c` on any chunks. */
  method AuthChunks(chunks: seq<seq<byte>>) returns (out: string)
    requires |Concat(chunks)| < MAX_BYTES
    ensures out == Hex(Hash(Concat(chunks)))
  {
    hide Auth.Context.Valid, Auth.Context.Holds, Hash, Hex, DigestBytes;
    var ctx := new Auth.Context();
    ghost var m := Concat(chunks);
    assert chunks[0..] == chunks && [] + m == m;
    for i := 0 to |chunks|
      invariant fresh(ctx) && fresh(ctx.h) && fresh(ctx.block) && ctx.Valid()
      invariant ctx.fed + Concat(chunks[i..]) == m
    {
      assert chunks[i..][1..] == chunks[i + 1..];
      assert (ctx.fed + chunks[i]) + Concat(chunks[i + 1..]) == m;
      ctx.Update(chunks[i]);
    }
    assert ctx.fed == m;
    var digest := ctx.Final();
    out := Auth.DigestHex(digest, Hash(m));
  }

  method BothDigests(left: seq<seq<byte>>, right: seq<seq<byte>>) returns (auth: string, shared: string)
    requires Concat(left) == Concat(right) && |Concat(left)| < MAX_BYTES
    ensures auth == shared == Hex(Hash(Concat(left))) && |auth| == 64
  {
    hide Hash;
    auth := AuthChunks(left);
    shared := Shared.HashChunks(right);
  }
}
