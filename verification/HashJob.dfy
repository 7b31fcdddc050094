/** The incremental hash job of `feature_provenance.c`: one chunk a step, then one record in the cache. */
module HashJob {
  import opened Bytes
  import opened HashCache
  import Sha256
  import Sha256Shared

  const CHUNK: nat := 16384
  const HASH_MAX: nat := 512 * 1024 * 1024

  /** What one `read` of at most `CHUNK` bytes gives. */
  datatype Read = Data(chunk: seq<byte>) | EndOfFile | Interrupted | Failed

  predicate PossibleRead(r: Read) {
    r.Data? ==> 0 < |r.chunk| <= CHUNK
  }

  /** What `fstat` or `stat` gives. */
  datatype Stat = NoStat | Stat(identity: Identity)

  predicate IsHexDigit(c: char) {
    '0' <= c <= '9' || 'a' <= c <= 'f' || 'A' <= c <= 'F'
  }

  /** `valid_hash` */
  predicate ValidHash(hash: string) {
    |hash| == 64 && forall i :: 0 <= i < 64 ==> IsHexDigit(hash[i])
  }

  /** The digest of a finished job always passes `valid_hash`. */
  lemma HexIsValid(h: seq<Sha256.word>)
    requires |h| == 8
    ensures ValidHash(Sha256.Hex(h))
  {
  }

  class Job {
    const cache: Cache
    var active: bool
    var path: string
    var before: Identity
    var total: nat
    var sha: Sha256Shared.Context
    /** Every byte read from the descriptor since the job was started. */
    ghost var bytes: seq<byte>

    ghost function Repr(): set<object>
      reads this, sha, cache
    {
      {this, sha, sha.state, sha.block, cache, cache.slots}
    }

    ghost predicate Valid()
      reads this, Repr()
    {
      && cache.Valid()
      && (active ==> sha.Valid() && sha.fed == bytes && total == |bytes| <= HASH_MAX)
    }

    constructor (cache: Cache)
      requires cache.Valid()
      ensures Valid() && !active && this.cache == cache && fresh(Repr() - {cache, cache.slots})
    {
      hide Cache.Valid, Sha256Shared.Context.Valid;
      this.cache := cache;
      active, path, before, total := false, "", Identity(0, 0, 0, 0, 0, 0, 0), 0;
      sha := new Sha256Shared.Context();
      bytes := [];
    }

    /** `hash_job_start`: another path never displaces a running job; a changed file restarts it. */
    method Start(path: string, before: Identity)
      requires Valid()
      modifies this
      ensures Valid() && active && cache.log == old(cache.log)
      ensures old(active) && (old(this.path) != path || old(this.before) == before)
        ==> this.path == old(this.path) && this.before == old(this.before) && bytes == old(bytes)
      ensures !old(active) || (old(this.path) == path && old(this.before) != before)
        ==> this.path == path && this.before == before && bytes == []
      ensures fresh(Repr() - old(Repr()))
    {
      hide Cache.Valid, Sha256Shared.Context.Valid;
      if active {
        if this.path == path && this.before == before { return; }
        if this.path != path { return; }
        active := false;
      }
      active, this.path, this.before, total := true, path, before, 0;
      sha := new Sha256Shared.Context();
      bytes := [];
    }

    /** `hash_job_finish`, with what `stat` on the path gives now. */
    method Finish(result: HashResult, hash: string, current: Stat)
      requires cache.Valid() && active && (result.Good? || (result.Unavailable? && hash == ""))
      modifies this, cache, cache.slots
      ensures Valid() && !active && path == old(path) && before == old(before)
      ensures sha == old(sha)
      ensures var kept := result.Good? && current == Stat(before);
              cache.log == old(cache.log)
                           + [Entry(path, before, if kept then Good else Unavailable, if kept then hash else "")]
    {
      hide Cache.Valid, Sha256Shared.Context.Valid, After, SlotFor;
      var r := result;
      if r.Good? && current != Stat(before) { r := Unavailable; }
      cache.CacheHash(path, before, r, if r.Good? then hash else "");
      active, total := false, 0;
    }

    /** `hash_job_step`: `after` is what `fstat` gives at the end of the file, `current` what `stat` gives. */
    method Step(read: Read, after: Stat, current: Stat) returns (r: HashResult)
      requires Valid() && PossibleRead(read)
      modifies Repr()
      ensures Valid() && path == old(path) && before == old(before) && sha == old(sha)
      ensures !old(active) ==> r == Unavailable && !active && cache.log == old(cache.log)
      ensures old(active) ==> (active <==> r == Pending) && !r.Missing?
      ensures old(active) && r == Pending ==>
        cache.log == old(cache.log) && bytes == if read.Data? then old(bytes) + read.chunk else old(bytes)
      ensures old(active) ==>
                (r == Pending <==> read.Interrupted? || (read.Data? && |old(bytes)| + |read.chunk| <= HASH_MAX))
      ensures old(active) ==>
        (r == Good <==> read.EndOfFile? && |old(bytes)| == before.size && after == Stat(before))
      ensures old(active) && r != Pending ==>
        cache.log == old(cache.log) + [if r == Good && current == Stat(before)
                                       then Entry(path, before, Good, Sha256.Hex(Sha256.Hash(old(bytes))))
                                       else Entry(path, before, Unavailable, "")]
    {
      hide Cache.Valid, Sha256Shared.Context.Valid, Sha256.Hash, Sha256.Hex, ValidHash;
      if !active { return Unavailable; }
      if read.Data? {
        total := total + |read.chunk|;
        if total > HASH_MAX {
          Finish(Unavailable, "", current);
          return Unavailable;
        }
        bytes := bytes + read.chunk;
        sha.Update(read.chunk);
        return Pending;
      }
      if read.Interrupted? { return Pending; }
      if read.Failed? || total != before.size || after != Stat(before) {
        Finish(Unavailable, "", current);
        return Unavailable;
      }
      var hash := sha.Final(65);
      HexIsValid(Sha256.Hash(bytes));
      assert ValidHash(hash);
      Finish(Good, hash, current);
      return Good;
    }
  }

  /**
   * A whole job on an idle cache: whatever chunks the reads return, exactly one entry is recorded,
   * and it is the digest of all the bytes read when they are as many as the file had and the file
   * kept its identity; in every other case it is not a digest.
   */
  method HashFile(cache: Cache, path: string, before: Identity, chunks: seq<seq<byte>>, after: Stat, current: Stat)
    returns (r: HashResult)
    requires cache.Valid() && forall k :: 0 <= k < |chunks| ==> 0 < |chunks[k]| <= CHUNK
    modifies cache, cache.slots
    ensures cache.Valid()
    ensures var m := Concat(chunks);
            var read := |m| <= HASH_MAX && |m| == before.size && after == Stat(before);
            && r == (if read then Good else Unavailable)
            && cache.log == old(cache.log) + [if read && current == Stat(before)
                                              then Entry(path, before, Good, Sha256.Hex(Sha256.Hash(m)))
                                              else Entry(path, before, Unavailable, "")]
  {
    hide Cache.Valid, Sha256Shared.Context.Valid, Sha256.Hash, Sha256.Hex;
    var job := new Job(cache);
    job.Start(path, before);
    ghost var m, i := Concat(chunks), 0;
    r := Pending;
    var k := 0;
    assert chunks[0..] == chunks && [] + m == m;
    while k < |chunks| && r.Pending?
      invariant k <= |chunks| && job.Valid() && fresh(job.Repr() - {cache, cache.slots}) && job.cache == cache
      invariant job.path == path && job.before == before
      invariant r.Pending? ==> job.active && job.bytes + Concat(chunks[k..]) == m && cache.log == old(cache.log)
      invariant !r.Pending? ==> r.Unavailable? && |m| > HASH_MAX
      invariant !r.Pending? ==> cache.log == old(cache.log) + [Entry(path, before, Unavailable, "")]
      decreases |chunks| - k
    {
      assert chunks[k..][1..] == chunks[k + 1..];
      ghost var sofar, rest := job.bytes, Concat(chunks[k + 1..]);
      assert (sofar + chunks[k]) + rest == m;
      assert |m| == |sofar| + |chunks[k]| + |rest|;
      r := job.Step(Data(chunks[k]), after, current);
      k := k + 1;
    }
    if r.Pending? {
      assert job.bytes == m;
      r := job.Step(EndOfFile, after, current);
    }
  }
}
