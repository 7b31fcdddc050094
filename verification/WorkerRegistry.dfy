/** The registry of forked workers in `http_server.c`: slots, kinds, counts, and the SIGCHLD sweep. */
module WorkerRegistry {
  /**
   * The kinds, in the order of `enum child_worker_kind`: assistant, TLS relay, kernel log, PCM stream,
   * update, config.
   */
  const KINDS: nat := 6
  const LIMITS: seq<nat> := [4, 16, 4, 4, 4, 1]
  const SLOTS: nat := 33

  /** Live slots of a kind. */
  function CountKind(pids: seq<int>, kinds: seq<int>, kind: int): (n: nat)
    requires |pids| == |kinds|
    ensures n <= |pids|
  {
    if pids == [] then 0
    else
      var i := |pids| - 1;
      CountKind(pids[..i], kinds[..i], kind) + (if pids[i] > 0 && kinds[i] == kind then 1 else 0)
  }

  /** Live slots of any of the kinds below `k`. */
  function CountBelow(pids: seq<int>, kinds: seq<int>, k: nat): nat
    requires |pids| == |kinds|
  {
    if k == 0 then 0 else CountBelow(pids, kinds, k - 1) + CountKind(pids, kinds, k - 1)
  }

  function CountLive(pids: seq<int>): (n: nat)
    ensures n <= |pids|
  {
    if pids == [] then 0 else CountLive(pids[..|pids| - 1]) + (if pids[|pids| - 1] > 0 then 1 else 0)
  }

  function LimitsBelow(k: nat): nat
    requires k <= KINDS
  {
    if k == 0 then 0 else LimitsBelow(k - 1) + LIMITS[k - 1]
  }

  lemma LimitsFillSlots()
    ensures LimitsBelow(KINDS) == SLOTS
  {
    assert LimitsBelow(0) == 0 && LimitsBelow(1) == 4 && LimitsBelow(2) == 20 && LimitsBelow(3) == 24;
    assert LimitsBelow(4) == 28 && LimitsBelow(5) == 32;
  }

  lemma {:induction false} CountSet(pids: seq<int>, kinds: seq<int>, i: nat, pid: int, k: int, kind: int)
    requires |pids| == |kinds| && i < |pids|
    ensures CountKind(pids[i := pid], kinds[i := k], kind) + (if pids[i] > 0 && kinds[i] == kind then 1 else 0)
         == CountKind(pids, kinds, kind) + (if pid > 0 && k == kind then 1 else 0)
    decreases |pids|
  {
    var n := |pids| - 1;
    if i < n {
      CountSet(pids[..n], kinds[..n], i, pid, k, kind);
      assert pids[i := pid][..n] == pids[..n][i := pid] && kinds[i := k][..n] == kinds[..n][i := k];
    } else {
      assert pids[i := pid][..n] == pids[..n] && kinds[i := k][..n] == kinds[..n];
    }
  }

  /** With all kinds in range, every live slot is of one of them. */
  lemma {:induction false} LiveIsSum(pids: seq<int>, kinds: seq<int>)
    requires |pids| == |kinds| && forall i :: 0 <= i < |pids| && pids[i] > 0 ==> 0 <= kinds[i] < KINDS
    ensures CountLive(pids) == CountBelow(pids, kinds, KINDS)
    decreases |pids|
  {
    if pids == [] {
      SumOfNone(pids, kinds, KINDS);
    } else {
      var n := |pids| - 1;
      LiveIsSum(pids[..n], kinds[..n]);
      SumSplits(pids, kinds, KINDS);
    }
  }

  lemma {:induction false} SumOfNone(pids: seq<int>, kinds: seq<int>, k: nat)
    requires |pids| == |kinds| == 0
    ensures CountBelow(pids, kinds, k) == 0
    decreases k
  {
    if k > 0 { SumOfNone(pids, kinds, k - 1); }
  }

  lemma {:induction false} SumSplits(pids: seq<int>, kinds: seq<int>, k: nat)
    requires |pids| == |kinds| > 0
    ensures var n := |pids| - 1;
            CountBelow(pids, kinds, k)
            == CountBelow(pids[..n], kinds[..n], k) + (if pids[n] > 0 && 0 <= kinds[n] < k then 1 else 0)
    decreases k
  {
    if k > 0 { SumSplits(pids, kinds, k - 1); }
  }

  lemma {:induction false} AllLive(pids: seq<int>)
    requires forall i :: 0 <= i < |pids| ==> pids[i] > 0
    ensures CountLive(pids) == |pids|
    decreases |pids|
  {
    if pids != [] { AllLive(pids[..|pids| - 1]); }
  }

  /** No count above its limit, and one below: then not every slot is taken. */
  lemma FreeSlotExists(pids: seq<int>, kinds: seq<int>, kind: nat)
    requires |pids| == |kinds| == SLOTS && kind < KINDS
    requires forall i :: 0 <= i < SLOTS && pids[i] > 0 ==> 0 <= kinds[i] < KINDS
    requires forall k: nat :: k < KINDS ==> CountKind(pids, kinds, k) <= LIMITS[k]
    requires CountKind(pids, kinds, kind) < LIMITS[kind]
    ensures exists i :: 0 <= i < SLOTS && pids[i] <= 0
  {
    if forall i :: 0 <= i < SLOTS ==> pids[i] > 0 {
      AllLive(pids);
      LiveIsSum(pids, kinds);
      SumBelowLimits(pids, kinds, kind, KINDS);
      LimitsFillSlots();
    }
  }

  lemma {:induction false} SumBelowLimits(pids: seq<int>, kinds: seq<int>, kind: nat, k: nat)
    requires |pids| == |kinds| && kind < KINDS && k <= KINDS
    requires forall j: nat :: j < KINDS ==> CountKind(pids, kinds, j) <= LIMITS[j]
    requires CountKind(pids, kinds, kind) < LIMITS[kind]
    ensures CountBelow(pids, kinds, k) + (if kind < k then 1 else 0) <= LimitsBelow(k)
    decreases k
  {
    hide LIMITS;
    if k > 0 { SumBelowLimits(pids, kinds, kind, k - 1); }
  }

  class Registry {
    const pids: array<int>
    const kinds: array<int>
    const counts: array<int>

    ghost predicate Shaped()
      reads this
    {
      && pids.Length == kinds.Length == SLOTS && counts.Length == KINDS
      && pids != kinds && pids != counts && kinds != counts
    }

    /** The counts are those of the live slots, none above its limit. */
    ghost predicate Valid()
      reads this, pids, kinds, counts
    {
      && Shaped()
      && (forall i :: 0 <= i < SLOTS && pids[i] > 0 ==> 0 <= kinds[i] < KINDS)
      && (forall k: nat :: k < KINDS ==> counts[k] == CountKind(pids[..], kinds[..], k) <= LIMITS[k])
    }

    constructor ()
      ensures Valid() && fresh(pids) && fresh(kinds) && fresh(counts) && forall i :: 0 <= i < SLOTS ==> pids[i] == 0
    {
      pids, kinds, counts := new int[SLOTS](_ => 0), new int[SLOTS](_ => 0), new int[KINDS](_ => 0);
      new;
      forall k: nat | k < KINDS ensures CountKind(pids[..], kinds[..], k) == 0 { NoneLive(pids[..], kinds[..], k); }
    }

    /** `child_worker_find_slot`: refuses exactly an unknown kind and a kind at its limit; else the first free slot. */
    method FindSlot(kind: int) returns (slot: int)
      requires Valid()
      ensures slot == -1 <==> kind < 0 || kind >= KINDS || CountKind(pids[..], kinds[..], kind) >= LIMITS[kind]
      ensures var limit := if kind == 1 then 16 else if kind == 5 then 1 else 4;
              slot == -1 <==> !(0 <= kind < 6) || CountKind(pids[..], kinds[..], kind) >= limit
      ensures slot != -1 ==> 0 <= slot < SLOTS && pids[slot] <= 0 && forall i :: 0 <= i < slot ==> pids[i] > 0
    {
      hide CountKind;
      if kind < 0 || kind >= KINDS || counts[kind] >= LIMITS[kind] { return -1; }
      for i := 0 to SLOTS
        invariant forall k :: 0 <= k < i ==> pids[k] > 0
      {
        if pids[i] <= 0 { return i; }
      }
      FreeSlotExists(pids[..], kinds[..], kind);
      assert false;
    }

    /** `child_worker_register`, with the slot that `FindSlot` gave for this kind. */
    method Register(slot: nat, pid: int, kind: nat)
      requires Valid() && slot < SLOTS && pids[slot] <= 0 && pid > 0 && kind < KINDS
      requires CountKind(pids[..], kinds[..], kind) < LIMITS[kind]
      modifies pids, kinds, counts
      ensures Valid()
      ensures pids[..] == old(pids[..])[slot := pid] && kinds[..] == old(kinds[..])[slot := kind]
    {
      hide CountKind;
      ghost var p, q := pids[..], kinds[..];
      forall k: nat | k < KINDS
        ensures CountKind(p[slot := pid], q[slot := kind], k) == CountKind(p, q, k) + if k == kind then 1 else 0
      {
        CountSet(p, q, slot, pid, kind, k);
      }
      pids[slot] := pid;
      kinds[slot] := kind;
      counts[kind] := counts[kind] + 1;
      assert pids[..] == p[slot := pid] && kinds[..] == q[slot := kind];
    }

    /** `reap_child_workers`: frees exactly the slots whose process has ended. */
    method Reap(ended: set<int>)
      requires Valid()
      modifies pids, counts
      ensures Valid()
      ensures forall i :: 0 <= i < SLOTS ==>
                pids[i] == if old(pids[i]) > 0 && old(pids[i]) in ended then 0 else old(pids[i])
    {
      hide CountKind;
      for i := 0 to SLOTS
        invariant Valid()
        invariant forall k :: 0 <= k < i ==>
                    pids[k] == if old(pids[k]) > 0 && old(pids[k]) in ended then 0 else old(pids[k])
        invariant forall k :: i <= k < SLOTS ==> pids[k] == old(pids[k])
      {
        if pids[i] > 0 && pids[i] in ended { Free(i); }
      }
    }

    /** One freed slot and its count. */
    method Free(slot: nat)
      requires Valid() && slot < SLOTS && pids[slot] > 0
      modifies pids, counts
      ensures Valid() && pids[..] == old(pids[..])[slot := 0]
    {
      hide CountKind;
      ghost var p, q := pids[..], kinds[..];
      var kind := kinds[slot];
      assert q[slot := kind] == q;
      forall k: nat | k < KINDS
        ensures CountKind(p[slot := 0], q, k) == CountKind(p, q, k) - if k == kind then 1 else 0
      {
        CountSet(p, q, slot, 0, kind, k);
      }
      pids[slot] := 0;
      assert pids[..] == p[slot := 0] && kinds[..] == q;
      assert CountKind(p[slot := 0], q, kind) >= 0;
      if 0 <= kind < KINDS && counts[kind] > 0 { counts[kind] := counts[kind] - 1; }
    }
  }

  lemma {:induction false} NoneLive(pids: seq<int>, kinds: seq<int>, kind: int)
    requires |pids| == |kinds| && forall i :: 0 <= i < |pids| ==> pids[i] <= 0
    ensures CountKind(pids, kinds, kind) == 0
    decreases |pids|
  {
    if pids != [] { NoneLive(pids[..|pids| - 1], kinds[..|pids| - 1], kind); }
  }
}
