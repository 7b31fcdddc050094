/**
 * The provenance hash cache of `feature_provenance.c`: slot choice as functions on the slots, the
 * in-place cache proved against them, and what runs of insertions keep.
 */
module HashCache {
  const COUNT: nat := 32
  const RESERVE: nat := 8
  const CAP: nat := COUNT - RESERVE

  /** The file identity that `same_stat` compares. */
  datatype Identity = Identity(device: int, inode: int, size: int, mtime: int, mtimeNs: int, ctime: int, ctimeNs: int)

  datatype HashResult = Missing | Good | Unavailable | Pending

  datatype Entry =
    | Free
    | Entry(path: string, identity: Identity, result: HashResult, hash: string)

  // ---- Which entries are persisted digests ------------------------------------------------

  predicate OccursAt(s: string, i: nat, t: string) {
    i + |t| <= |s| && s[i..i + |t|] == t
  }

  predicate Contains(s: string, from: nat, t: string) {
    exists i :: from <= i <= |s| && OccursAt(s, i, t)
  }

  /** A file under the generations root `root`. */
  predicate Persistable(root: string, path: string) {
    && |path| > |root| + 1 && path[..|root|] == root && path[|root|] == '/'
    && !Contains(path, |root|, "/../") && '\n' !in path && (|path| >= 3 ==> path[|path| - 3..] != "/..")
  }

  /** `cache_entry_persisted` */
  predicate IsDigest(root: string, e: Entry) {
    e.Entry? && e.result == Good && Persistable(root, e.path)
  }

  /** A component `..` stands between two slashes. */
  predicate ParentAt(s: string, k: nat) {
    k + 4 <= |s| && s[k] == '/' && s[k + 1] == '.' && s[k + 2] == '.' && s[k + 3] == '/'
  }

  /** No component of a path behind `i` is `..`. */
  predicate NoParent(s: string, i: nat) {
    forall k :: i <= k < |s| ==> !ParentAt(s, k)
  }

  /** A digest is persisted for a finished file under the root, in a path without `..` components and line feeds. */
  lemma DigestMeans(root: string, e: Entry)
    ensures IsDigest(root, e) <==>
              && e.Entry? && e.result == Good
              && (exists rest :: rest != "" && e.path == root + ("/" + rest))
              && NoParent(e.path + "/", |root|) && '\n' !in e.path
  {
    if e.Entry? {
      RootedMeans(root, e.path);
      if |e.path| > |root| + 1 && e.path[|root|] == '/' {
        ParentMeans(e.path, |root|);
      }
    }
  }

  lemma RootedMeans(root: string, path: string)
    ensures |path| > |root| + 1 && path[..|root|] == root && path[|root|] == '/'
       <==> exists rest :: rest != "" && path == root + ("/" + rest)
  {
    var n := |root|;
    if |path| > n + 1 && path[..n] == root && path[n] == '/' {
      assert path == root + ("/" + path[n + 1..]);
    }
  }

  lemma OccursMeans(s: string, k: nat)
    ensures OccursAt(s, k, "/../") <==> ParentAt(s, k)
  {
    if ParentAt(s, k) { assert s[k..k + 4] == "/../"; }
    if OccursAt(s, k, "/../") { assert s[k..k + 4][0] == s[k] && s[k..k + 4][3] == s[k + 3]; }
  }

  lemma ParentMeans(path: string, i: nat)
    requires i + 1 < |path| && path[i] == '/'
    ensures NoParent(path + "/", i) <==>
              !Contains(path, i, "/../") && (|path| >= 3 ==> path[|path| - 3..] != "/..")
  {
    hide OccursAt;
    var more, n := path + "/", |path|;
    forall k | i <= k <= n ensures OccursAt(path, k, "/../") <==> ParentAt(path, k) {
      OccursMeans(path, k);
    }
    assert forall k :: i <= k < n - 3 ==> (ParentAt(more, k) <==> ParentAt(path, k));
    assert forall k :: i <= k < |more| && k != n - 3 && ParentAt(more, k) ==> k < n - 3;
    if n >= 3 {
      assert ParentAt(more, n - 3) <==> path[n - 3..] == "/..";
    }
  }

  // ---- Which slot an entry goes to --------------------------------------------------------

  predicate HoldsPath(e: Entry, path: string) {
    e.Entry? && e.path == path
  }

  function FindPath(s: seq<Entry>, path: string, i: nat): (k: nat)
    requires i <= |s|
    ensures i <= k <= |s| && (k < |s| ==> HoldsPath(s[k], path))
    ensures forall j :: i <= j < k ==> !HoldsPath(s[j], path)
    decreases |s| - i
  {
    if i == |s| || HoldsPath(s[i], path) then i else FindPath(s, path, i + 1)
  }

  function FindFree(s: seq<Entry>, i: nat): (k: nat)
    requires i <= |s|
    ensures i <= k <= |s| && (k < |s| ==> s[k].Free?)
    ensures forall j :: i <= j < k ==> s[j].Entry?
    decreases |s| - i
  {
    if i == |s| || s[i].Free? then i else FindFree(s, i + 1)
  }

  function CountDigests(root: string, s: seq<Entry>): (n: nat)
    ensures n <= |s|
  {
    if s == [] then 0
    else CountDigests(root, s[..|s| - 1]) + (if IsDigest(root, s[|s| - 1]) then 1 else 0)
  }

  /** Whether the victim for this entry is a digest; otherwise it is a runtime entry. */
  predicate EvictsDigest(root: string, s: seq<Entry>, e: Entry) {
    if IsDigest(root, e) then CountDigests(root, s) >= CAP else CountDigests(root, s) > CAP
  }

  /** Position `i` steps behind `next`, round the table. */
  function Around(next: nat, i: nat): (c: nat)
    ensures c < COUNT
  {
    (next + i) % COUNT
  }

  function FindVictim(root: string, s: seq<Entry>, next: nat, digest: bool, i: nat): (k: nat)
    requires |s| == COUNT && i <= COUNT
    ensures i <= k <= COUNT && (k < COUNT ==> IsDigest(root, s[Around(next, k)]) == digest)
    ensures forall j :: i <= j < k ==> IsDigest(root, s[Around(next, j)]) != digest
    decreases COUNT - i
  {
    if i == COUNT || IsDigest(root, s[Around(next, i)]) == digest then i
    else FindVictim(root, s, next, digest, i + 1)
  }

  predicate Full(s: seq<Entry>) {
    forall i :: 0 <= i < |s| ==> s[i].Entry?
  }

  predicate Absent(s: seq<Entry>, path: string) {
    forall i :: 0 <= i < |s| ==> !HoldsPath(s[i], path)
  }

  /** The slot: the path's own, else the first free one, else the victim round from `next`. */
  function SlotFor(root: string, s: seq<Entry>, next: nat, e: Entry): (slot: nat)
    requires |s| == COUNT && e.Entry?
    ensures slot < COUNT
  {
    var own := FindPath(s, e.path, 0);
    if own < COUNT then own else
    var free := FindFree(s, 0);
    if free < COUNT then free else
    var k := FindVictim(root, s, next, EvictsDigest(root, s, e), 0);
    VictimExists(root, s, next, e);
    Around(next, k)
  }

  function After(root: string, s: seq<Entry>, next: nat, e: Entry): (t: seq<Entry>)
    requires |s| == COUNT && e.Entry?
    ensures |t| == COUNT
  {
    s[SlotFor(root, s, next, e) := e]
  }

  // ---- A victim of the chosen class always exists -----------------------------------------

  lemma {:induction false} CountOf(root: string, s: seq<Entry>, digest: bool)
    requires forall i :: 0 <= i < |s| ==> IsDigest(root, s[i]) == digest
    ensures CountDigests(root, s) == if digest then |s| else 0
    decreases |s|
  {
    if s != [] {
      CountOf(root, s[..|s| - 1], digest);
    }
  }

  /** The search of the eviction step always ends at a slot: the fallback behind it is dead code. */
  lemma VictimExists(root: string, s: seq<Entry>, next: nat, e: Entry)
    requires |s| == COUNT
    ensures FindVictim(root, s, next, EvictsDigest(root, s, e), 0) < COUNT
  {
    hide Persistable, IsDigest, Around, Behind, FindVictim;
    var digest := EvictsDigest(root, s, e);
    if FindVictim(root, s, next, digest, 0) == COUNT {
      forall i | 0 <= i < COUNT ensures IsDigest(root, s[i]) == !digest {
        AroundBehind(next, i);
      }
      CountOf(root, s, !digest);
    }
  }

  // ---- The cache --------------------------------------------------------------------------

  class Cache {
    const root: string
    const slots: array<Entry>
    var next: nat
    /** Every entry that has been recorded, oldest first. */
    ghost var log: seq<Entry>

    ghost predicate Valid()
      reads this, slots
    {
      slots.Length == COUNT && next <= COUNT && Truthful(slots[..], log)
    }

    constructor (root: string)
      ensures Valid() && fresh(slots) && log == [] && this.root == root && next == 0
      ensures forall i :: 0 <= i < COUNT ==> slots[i].Free?
    {
      this.root := root;
      slots := new Entry[COUNT](_ => Free);
      next, log := 0, [];
    }

    /** `cache_hash` */
    method CacheHash(path: string, identity: Identity, result: HashResult, hash: string)
      requires Valid()
      modifies this, slots
      ensures Valid() && log == old(log) + [Entry(path, identity, result, hash)]
      ensures var e := Entry(path, identity, result, hash);
              && slots[..] == After(root, old(slots[..]), old(next), e)
              && next == SlotFor(root, old(slots[..]), old(next), e) + 1
    {
      hide Persistable;
      ghost var s := slots[..];
      var e := Entry(path, identity, result, hash);
      var slot := COUNT;
      var i := 0;
      while i < COUNT && slot == COUNT
        invariant i <= COUNT && FindPath(s, path, 0) == if slot < COUNT then slot else FindPath(s, path, i)
        invariant slot <= COUNT
      {
        if slots[i].Entry? && slots[i].path == path { slot := i; }
        i := i + 1;
      }
      ghost var own := slot;
      i := 0;
      while i < COUNT && slot == COUNT
        invariant i <= COUNT && slot <= COUNT && (own < COUNT ==> slot == own)
        invariant own == COUNT ==> FindFree(s, 0) == if slot < COUNT then slot else FindFree(s, i)
      {
        if slots[i].Free? { slot := i; }
        i := i + 1;
      }
      if slot == COUNT {
        slot := ChooseVictim(e);
      }
      next := slot + 1;
      slots[slot] := e;
      log := log + [e];
      StaysTruthful(root, s, old(next), old(log), e);
    }

    /** The eviction step on a full table. */
    method ChooseVictim(e: Entry) returns (slot: nat)
      requires Valid() && e.Entry?
      ensures slot < COUNT
      ensures slot == Around(next, FindVictim(root, slots[..], next, EvictsDigest(root, slots[..], e), 0))
    {
      hide Persistable, IsDigest, Truthful, Around;
      ghost var s := slots[..];
      var persisted, i := 0, 0;
      while i < COUNT
        invariant i <= COUNT && persisted == CountDigests(root, s[..i])
      {
        assert s[..i + 1][..i] == s[..i];
        if IsDigest(root, slots[i]) { persisted := persisted + 1; }
        i := i + 1;
      }
      assert s[..COUNT] == s;
      var evict := if IsDigest(root, e) then persisted >= CAP else persisted > CAP;
      VictimExists(root, s, next, e);
      i := 0;
      while i < COUNT
        invariant i <= COUNT && FindVictim(root, s, next, evict, i) == FindVictim(root, s, next, evict, 0)
      {
        var candidate := Around(next, i);
        if IsDigest(root, slots[candidate]) == evict { return candidate; }
        i := i + 1;
      }
    }

    /** `cached_hash`: the entry for a path with this identity, if there is one. */
    method CachedHash(path: string, identity: Identity) returns (e: Entry)
      requires Valid()
      ensures e.Entry? ==> e.path == path && e.identity == identity && MostRecent(log, e)
      ensures e.Free? ==> forall i :: 0 <= i < COUNT && HoldsPath(slots[i], path) ==> slots[i].identity != identity
    {
      var i := 0;
      while i < COUNT
        invariant i <= COUNT && forall j :: 0 <= j < i && HoldsPath(slots[j], path) ==> slots[j].identity != identity
      {
        if slots[i].Entry? && slots[i].path == path && slots[i].identity == identity {
          assert slots[i] == slots[..][i];
          return slots[i];
        }
        i := i + 1;
      }
      return Free;
    }
  }

  // ---- The cache never lies ---------------------------------------------------------------

  /** `e` was recorded, and nothing was recorded for its path since. */
  ghost predicate MostRecent(log: seq<Entry>, e: Entry) {
    e.Entry? && exists k :: 0 <= k < |log| && log[k] == e && forall m :: k < m < |log| ==> !HoldsPath(log[m], e.path)
  }

  /** One slot a path at most, and every slot holds what was last recorded for its path. */
  ghost predicate Truthful(s: seq<Entry>, log: seq<Entry>) {
    && (forall i, j :: 0 <= i < j < |s| && s[i].Entry? && s[j].Entry? ==> s[i].path != s[j].path)
    && (forall i :: 0 <= i < |s| && s[i].Entry? ==> MostRecent(log, s[i]))
  }

  lemma StaysTruthful(root: string, s: seq<Entry>, next: nat, log: seq<Entry>, e: Entry)
    requires |s| == COUNT && e.Entry? && Truthful(s, log)
    ensures Truthful(After(root, s, next, e), log + [e])
  {
    hide FindVictim, FindFree;
    var slot := SlotFor(root, s, next, e);
    var own := FindPath(s, e.path, 0);
    assert forall i :: 0 <= i < COUNT && i != slot ==> !HoldsPath(s[i], e.path) by {
      if own < COUNT {
        assert slot == own;
      }
    }
    var t, more := After(root, s, next, e), log + [e];
    forall i | 0 <= i < COUNT && t[i].Entry? ensures MostRecent(more, t[i]) {
      if i == slot {
        assert more[|log|] == e;
      } else {
        var k :| 0 <= k < |log| && log[k] == s[i] && forall m :: k < m < |log| ==> !HoldsPath(log[m], s[i].path);
        assert more[k] == s[i];
        assert forall m :: k < m < |more| ==> !HoldsPath(more[m], s[i].path);
      }
    }
  }

  /** Only a new path on a full table evicts anything: otherwise every entry of another path stays where it is. */
  lemma OnlyFullEvicts(root: string, s: seq<Entry>, next: nat, e: Entry, i: nat)
    requires |s| == COUNT && e.Entry? && i < COUNT && s[i].Entry? && s[i].path != e.path
    ensures (exists k :: 0 <= k < COUNT && (HoldsPath(s[k], e.path) || s[k].Free?)) ==>
              After(root, s, next, e)[i] == s[i]
    ensures After(root, s, next, e)[i] != s[i] ==>
              Full(s) && Absent(s, e.path) && IsDigest(root, s[i]) == EvictsDigest(root, s, e)
  {
    hide IsDigest, EvictsDigest, Around;
    VictimExists(root, s, next, e);
  }

  // ---- The digest cap ---------------------------------------------------------------------

  lemma {:induction false} CountChanges(root: string, s: seq<Entry>, k: nat, e: Entry)
    requires k < |s|
    ensures CountDigests(root, s[k := e]) + (if IsDigest(root, s[k]) then 1 else 0)
         == CountDigests(root, s) + (if IsDigest(root, e) then 1 else 0)
    decreases |s|
  {
    hide IsDigest;
    var n := |s| - 1;
    if k < n {
      CountChanges(root, s[..n], k, e);
      assert s[k := e][..n] == s[..n][k := e];
    } else {
      assert s[k := e][..n] == s[..n];
    }
  }

  /** The number of slots that hold digests. */
  lemma {:induction false} CountMeans(root: string, s: seq<Entry>)
    ensures CountDigests(root, s) == |set i | 0 <= i < |s| && IsDigest(root, s[i])|
    decreases |s|
  {
    hide IsDigest;
    if s != [] {
      var n := |s| - 1;
      CountMeans(root, s[..n]);
      var front := set i | 0 <= i < n && IsDigest(root, s[..n][i]);
      var all := set i | 0 <= i < |s| && IsDigest(root, s[i]);
      assert all == if IsDigest(root, s[n]) then front + {n} else front;
    }
  }

  /** What the slot of a new path on a full table holds. */
  lemma Evicted(root: string, s: seq<Entry>, next: nat, e: Entry)
    requires |s| == COUNT && e.Entry? && Full(s) && Absent(s, e.path)
    ensures var k := FindVictim(root, s, next, EvictsDigest(root, s, e), 0);
            && k < COUNT && SlotFor(root, s, next, e) == Around(next, k)
            && IsDigest(root, s[Around(next, k)]) == EvictsDigest(root, s, e)
  {
    hide IsDigest, EvictsDigest, Around;
    VictimExists(root, s, next, e);
  }

  /** A new path on a full table never takes the digests above the cap, or further above it. */
  lemma DigestsCapped(root: string, s: seq<Entry>, next: nat, e: Entry)
    requires |s| == 32 && e.Entry? && Full(s) && Absent(s, e.path)
    ensures var was, now := CountDigests(root, s), CountDigests(root, After(root, s, next, e));
            && now <= (if was > 24 then was else 24)
            && (IsDigest(root, e) ==> was <= now)
            && (!IsDigest(root, e) && was <= 24 ==> now == was)
  {
    hide IsDigest, CountDigests, FindVictim, SlotFor, Absent, Full;
    Evicted(root, s, next, e);
    CountChanges(root, s, SlotFor(root, s, next, e), e);
  }

  // ---- Runs of new runtime entries --------------------------------------------------------

  /** The table and `next` after recording `es` in order. */
  function Run(root: string, s: seq<Entry>, next: nat, es: seq<Entry>): (r: (seq<Entry>, nat))
    requires |s| == COUNT && forall i :: 0 <= i < |es| ==> es[i].Entry?
    ensures |r.0| == COUNT
    decreases |es|
  {
    if es == [] then (s, next)
    else
      var (t, n) := Run(root, s, next, es[..|es| - 1]);
      (After(root, t, n, es[|es| - 1]), SlotFor(root, t, n, es[|es| - 1]) + 1)
  }

  /** Every entry of `es` is a runtime entry, for a path the table does not hold at that point. */
  predicate NewRuntimes(root: string, s: seq<Entry>, next: nat, es: seq<Entry>)
    requires |s| == COUNT
    decreases |es|
  {
    && (forall i :: 0 <= i < |es| ==> es[i].Entry? && !IsDigest(root, es[i]))
    && (es == [] || (var before := es[..|es| - 1];
                     NewRuntimes(root, s, next, before) && Absent(Run(root, s, next, before).0, es[|es| - 1].path)))
  }

  /** How many slots behind `next` a slot is, going back round the table. */
  function Behind(next: nat, x: nat): (d: nat)
    requires x < COUNT
    ensures d < COUNT
  {
    var p := next % COUNT;
    if x < p then p - 1 - x else p + COUNT - 1 - x
  }

  function Runtimes(root: string, s: seq<Entry>): set<nat> {
    set y | 0 <= y < |s| && !IsDigest(root, s[y])
  }

  /** The runtime slots closer behind `next` than `x`. */
  function Newer(root: string, s: seq<Entry>, next: nat, x: nat): set<nat>
    requires |s| == COUNT && x < COUNT
  {
    set y | 0 <= y < COUNT && !IsDigest(root, s[y]) && Behind(next, y) < Behind(next, x)
  }

  lemma {:induction false} RuntimesCount(root: string, s: seq<Entry>)
    ensures |Runtimes(root, s)| + CountDigests(root, s) == |s|
    decreases |s|
  {
    hide IsDigest;
    if s != [] {
      var n := |s| - 1;
      RuntimesCount(root, s[..n]);
      if IsDigest(root, s[n]) {
        assert Runtimes(root, s) == Runtimes(root, s[..n]);
      } else {
        assert Runtimes(root, s) == Runtimes(root, s[..n]) + {n};
      }
    }
  }

  lemma BehindAround(next: nat, k: nat)
    requires k < COUNT
    ensures Behind(next, Around(next, k)) == COUNT - 1 - k
  {
    assert next == next / COUNT * COUNT + next % COUNT;
  }

  /** From the far end: every slot is so many steps round from `next`. */
  lemma AroundBehind(next: nat, x: nat)
    requires x < COUNT
    ensures Around(next, COUNT - 1 - Behind(next, x)) == x
  {
    assert next == next / COUNT * COUNT + next % COUNT;
  }

  /** The victim is the runtime slot furthest behind. */
  lemma VictimIsOldest(root: string, s: seq<Entry>, next: nat, k: nat)
    requires |s| == COUNT && k < COUNT && k == FindVictim(root, s, next, false, 0)
    ensures var v := Around(next, k); Newer(root, s, next, v) == Runtimes(root, s) - {v}
    ensures Behind(next, Around(next, k)) == COUNT - 1 - k
  {
    hide IsDigest, Behind, Around;
    var v := Around(next, k);
    BehindAround(next, k);
    forall y | y in Runtimes(root, s) && y != v ensures Behind(next, y) < Behind(next, v) {
      AroundBehind(next, y);
      var j: nat := COUNT - 1 - Behind(next, y);
      assert Around(next, j) == y;
    }
  }

  /** Moving `next` just past slot `v` leaves `v` closest behind, and keeps the order of what was closer. */
  lemma BehindMoves(next: nat, v: nat, x: nat)
    requires v < COUNT && x < COUNT
    ensures Behind(v + 1, v) == 0
    ensures Behind(next, x) < Behind(next, v) ==> Behind(v + 1, x) == Behind(next, x) + COUNT - Behind(next, v)
  {
  }

  /** A new runtime entry goes to the front; what stays moves back by exactly one. */
  lemma MovesBackByOne(root: string, s: seq<Entry>, next: nat, e: Entry, x: nat)
    requires |s| == COUNT && e.Entry? && Full(s) && Absent(s, e.path) && !IsDigest(root, e)
    requires CountDigests(root, s) <= CAP && x < COUNT && !IsDigest(root, s[x])
    requires |Newer(root, s, next, x)| < RESERVE - 1
    ensures var v, t := SlotFor(root, s, next, e), After(root, s, next, e);
            && x != v && |Newer(root, t, v + 1, x)| == |Newer(root, s, next, x)| + 1
  {
    hide IsDigest, Around, Behind, SlotFor, CountDigests, FindVictim, Absent, Full;
    Evicted(root, s, next, e);
    var v, t := SlotFor(root, s, next, e), After(root, s, next, e);
    VictimIsOldest(root, s, next, FindVictim(root, s, next, false, 0));
    RuntimesCount(root, s);
    assert x != v by {
      assert v in Runtimes(root, s);
    }
    assert x in Runtimes(root, s);
    assert x in Newer(root, s, next, v);
    assert Newer(root, t, v + 1, x) == Newer(root, s, next, x) + {v} by {
      forall y | 0 <= y < COUNT ensures y in Newer(root, t, v + 1, x) <==> y in Newer(root, s, next, x) + {v} {
        BehindMoves(next, v, y);
        BehindMoves(next, v, x);
        if y != v && !IsDigest(root, s[y]) {
          assert y in Runtimes(root, s);
          assert y in Newer(root, s, next, v);
        }
      }
    }
    assert v !in Newer(root, s, next, x);
  }

  /** The entry recorded `j` insertions ago is in the table, with `j` newer runtime entries. */
  ghost predicate Kept(root: string, s: seq<Entry>, next: nat, e: Entry, j: nat)
    requires |s| == COUNT
  {
    exists x :: 0 <= x < COUNT && s[x] == e && |Newer(root, s, next, x)| == j
  }

  lemma KeptOneMore(root: string, s: seq<Entry>, next: nat, e: Entry, kept: Entry, j: nat)
    requires |s| == COUNT && e.Entry? && Full(s) && Absent(s, e.path) && !IsDigest(root, e)
    requires CountDigests(root, s) <= CAP && !IsDigest(root, kept) && j < RESERVE - 1 && Kept(root, s, next, kept, j)
    ensures Kept(root, After(root, s, next, e), SlotFor(root, s, next, e) + 1, kept, j + 1)
  {
    hide IsDigest, SlotFor, CountDigests, Absent, Full, Newer;
    var x :| 0 <= x < COUNT && s[x] == kept && |Newer(root, s, next, x)| == j;
    MovesBackByOne(root, s, next, e, x);
    assert After(root, s, next, e)[x] == kept;
  }

  lemma KeptFirst(root: string, s: seq<Entry>, next: nat, e: Entry)
    requires |s| == COUNT && e.Entry?
    ensures Kept(root, After(root, s, next, e), SlotFor(root, s, next, e) + 1, e, 0)
  {
    hide IsDigest, SlotFor, Behind;
    var v, t := SlotFor(root, s, next, e), After(root, s, next, e);
    BehindMoves(next, v, v);
    assert Newer(root, t, v + 1, v) == {};
    assert t[v] == e;
  }

  /**
   * From a full table with at most 24 digests, any run of new runtime paths leaves every digest in
   * its slot, and the eight most recent paths (or all, if fewer) are all in the table.
   */
  lemma {:induction false} ReserveHolds(root: string, s: seq<Entry>, next: nat, es: seq<Entry>)
    requires |s| == 32 && Full(s) && CountDigests(root, s) <= 24 && NewRuntimes(root, s, next, es)
    ensures var (t, n) := Run(root, s, next, es);
            && Full(t) && CountDigests(root, t) == CountDigests(root, s)
            && (forall i :: 0 <= i < COUNT && IsDigest(root, s[i]) ==> t[i] == s[i])
            && (forall i :: 0 <= i < |es| && |es| - 8 <= i ==> Kept(root, t, n, es[i], |es| - 1 - i))
    decreases |es|
  {
    hide IsDigest, SlotFor, Absent, Kept, CountDigests, After, Full;
    if es != [] {
      var before, e := es[..|es| - 1], es[|es| - 1];
      ReserveHolds(root, s, next, before);
      var (t, n) := Run(root, s, next, before);
      DigestsCapped(root, t, n, e);
      DigestSlotsStay(root, s, t, n, e);
      KeptFirst(root, t, n, e);
      forall i | 0 <= i < |before| && |es| - RESERVE <= i
        ensures Kept(root, After(root, t, n, e), SlotFor(root, t, n, e) + 1, es[i], |es| - 1 - i)
      {
        assert es[i] == before[i];
        KeptOneMore(root, t, n, e, es[i], |es| - 2 - i);
      }
    }
  }

  lemma DigestSlotsStay(root: string, s: seq<Entry>, t: seq<Entry>, next: nat, e: Entry)
    requires |s| == |t| == COUNT && e.Entry? && Full(t) && Absent(t, e.path) && !IsDigest(root, e)
    requires CountDigests(root, t) <= CAP
    requires forall i :: 0 <= i < COUNT && IsDigest(root, s[i]) ==> t[i] == s[i]
    ensures forall i :: 0 <= i < COUNT && IsDigest(root, s[i]) ==> After(root, t, next, e)[i] == s[i]
    ensures Full(After(root, t, next, e))
  {
    hide IsDigest, SlotFor, Absent, CountDigests, FindVictim, Around;
    Evicted(root, t, next, e);
  }
}
