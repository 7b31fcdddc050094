/** The windowed login limiter of `api.c`, with authentication enabled and a clock that never goes back. */
module LoginLimiter {
  const FAILURE_LIMIT: nat := 5
  const FAILURE_WINDOW: nat := 60
  const BLOCK_SECONDS: nat := 60

  /** A failed password check: when the limiter let it through, when it was recorded, and whether it blocked. */
  datatype Failure = Failure(checked: int, recorded: int, blocking: bool)

  datatype Outcome = Refused | Failed | LoggedIn

  /** The log is in order, and a failure is recorded no earlier than it was let through. */
  ghost predicate Ordered(log: seq<Failure>) {
    && (forall i :: 0 <= i < |log| ==> log[i].checked <= log[i].recorded)
    && (forall i, j :: 0 <= i < j < |log| ==> log[i].recorded <= log[j].checked && log[i].recorded <= log[j].recorded)
  }

  /** Ten failures in a row always take at least a window. */
  ghost predicate Spread(log: seq<Failure>) {
    forall i, j :: 0 <= i && i + 9 <= j < |log| ==> log[i].recorded + FAILURE_WINDOW <= log[j].recorded
  }

  /** A failure blocks when it is the fifth within a window, and then nothing is checked for a minute. */
  ghost predicate Blocking(log: seq<Failure>) {
    && (forall i :: 0 <= i < |log| && log[i].blocking ==>
          i >= 4 && log[i].recorded < log[i - 4].recorded + FAILURE_WINDOW)
    && (forall i, j :: 0 <= i < j < |log| && log[i].blocking ==> log[j].checked >= log[i].recorded + BLOCK_SECONDS)
  }

  ghost predicate Lasting(log: seq<Failure>, now: int) {
    log != [] && log[|log| - 1].blocking && now < log[|log| - 1].recorded + BLOCK_SECONDS
  }

  /** The current window's failures are the last ones of the log; the fifth of them blocks. */
  ghost predicate Counted(log: seq<Failure>, failures: nat, window: int) {
    var m := |log| - failures;
    && 0 <= m && failures <= FAILURE_LIMIT
    && (forall i :: 0 <= i < m ==> log[i].recorded <= window)
    && (forall i :: m <= i < |log| ==> window <= log[i].recorded < window + FAILURE_WINDOW)
    && (forall i :: m <= i < |log| ==> log[i].blocking == (i == m + 4))
    && (forall i :: 0 <= i <= m - 5 ==> log[i].recorded + FAILURE_WINDOW <= window)
    && (forall i :: 0 <= i < m && log[i].blocking ==> log[i].recorded + BLOCK_SECONDS <= window)
  }

  /** What holds of the whole log at every time. */
  ghost predicate Kept(log: seq<Failure>, last: int) {
    && Ordered(log) && Spread(log) && Blocking(log)
    && forall i :: 0 <= i < |log| ==> log[i].recorded <= last
  }

  class Limiter {
    var failures: nat
    var windowStarted: int
    var blockedUntil: int
    /** Failures since the last successful login, oldest first. */
    ghost var log: seq<Failure>
    /** The clock when the limiter was last used. */
    ghost var last: int

    ghost predicate Valid()
      reads this
    {
      && 0 < last && 0 <= windowStarted <= last && Kept(log, last)
      && (if windowStarted == 0 then log == [] && failures == 0 else Counted(log, failures, windowStarted))
      && (if blockedUntil > 0 then
            && failures == FAILURE_LIMIT && log != []
            && blockedUntil == log[|log| - 1].recorded + BLOCK_SECONDS
          else blockedUntil == 0 && failures < FAILURE_LIMIT)
    }

    constructor (now: int)
      requires now > 0
      ensures Valid() && log == [] && last == now
    {
      failures, windowStarted, blockedUntil, log, last := 0, 0, 0, [], now;
    }

    /** The test both functions open a window with. */
    method OpenWindow(now: int)
      requires 0 < last <= now && 0 <= windowStarted <= last && Kept(log, last)
      requires if windowStarted == 0 then log == [] && failures == 0 else Counted(log, failures, windowStarted)
      requires failures < FAILURE_LIMIT
            || (windowStarted + FAILURE_WINDOW <= now && log[|log| - 1].recorded + BLOCK_SECONDS <= now)
      modifies this`windowStarted, this`failures, this`last
      ensures last == now && 0 < windowStarted <= now < windowStarted + FAILURE_WINDOW && failures < FAILURE_LIMIT
      ensures Kept(log, last) && Counted(log, failures, windowStarted)
    {
      hide Kept, Counted;
      Later(log, last, now);
      if windowStarted == 0 || now - windowStarted >= FAILURE_WINDOW {
        NewWindow(log, last, failures, windowStarted, now);
        windowStarted := now;
        failures := 0;
      }
      last := now;
    }

    /** `auth_rate_limited`: refuses exactly while the block of a fifth failure lasts. */
    method RateLimited(now: int) returns (limited: bool)
      requires Valid() && now >= last
      modifies this`windowStarted, this`failures, this`last, this`blockedUntil
      ensures Valid() && last == now
      ensures limited <==> Lasting(log, now)
      ensures !limited ==> windowStarted > 0 && failures < FAILURE_LIMIT && blockedUntil == 0
    {
      hide Kept, Counted;
      if blockedUntil > 0 {
        BlocksLast(log, failures, windowStarted);
      } else {
        NotBlocking(log, failures, windowStarted, last);
      }
      if blockedUntil > now {
        Later(log, last, now);
        last := now;
        return true;
      }
      blockedUntil := 0;
      OpenWindow(now);
      limited := failures >= FAILURE_LIMIT;
    }

    /** `auth_record_failure`, for a check that was let through at `checked`. */
    method RecordFailure(ghost checked: int, now: int)
      requires Valid() && checked == last <= now && blockedUntil == 0 && windowStarted > 0
      modifies this
      ensures Valid() && last == now
      ensures exists b :: log == old(log) + [Failure(checked, now, b)]
    {
      hide Kept, Counted;
      NotBlocking(log, failures, windowStarted, last);
      OpenWindow(now);
      failures := failures + 1;
      ghost var f := Failure(checked, now, failures == FAILURE_LIMIT);
      AppendKeeps(log, f, failures - 1, windowStarted, old(last));
      log := log + [f];
      if failures >= FAILURE_LIMIT { blockedUntil := now + BLOCK_SECONDS; }
    }

    /**
     * `auth_login_json`: the request arrives at `t1`, the password check ends at `t2`, the answer is
     * chosen at `t3`.
     */
    method LogIn(t1: int, t2: int, t3: int, accepted: bool) returns (r: Outcome)
      requires Valid() && last <= t1 <= t2 <= t3
      modifies this
      ensures Valid()
      ensures r == Refused <==> Lasting(old(log), t1)
      ensures r == Refused ==> log == old(log)
      ensures r == LoggedIn ==> accepted && log == []
      ensures r == Failed ==> !accepted && exists b :: log == old(log) + [Failure(t1, t2, b)]
    {
      hide Counted;
      var limited := RateLimited(t1);
      if limited { return Refused; }
      if !accepted {
        RecordFailure(t1, t2);
        var tooMany := RateLimited(t3);
        return Failed;
      }
      failures, windowStarted, blockedUntil := 0, 0, 0;
      log, last := [], t2;
      return LoggedIn;
    }
  }

  lemma Later(log: seq<Failure>, last: int, now: int)
    requires Kept(log, last) && last <= now
    ensures Kept(log, now)
  {
    hide Ordered, Spread, Blocking;
  }

  /** When the fifth failure's block is over, so is its window: it is the block that ends last. */
  lemma BlocksLast(log: seq<Failure>, failures: nat, window: int)
    requires failures == FAILURE_LIMIT && log != [] && Counted(log, failures, window)
    ensures log[|log| - 1].blocking && window + FAILURE_WINDOW <= log[|log| - 1].recorded + BLOCK_SECONDS
  {
  }

  /** A new window after the old one ended, and after the block if there was one. */
  lemma NewWindow(log: seq<Failure>, last: int, failures: nat, window: int, now: int)
    requires Kept(log, last) && last <= now && (window == 0 || window + FAILURE_WINDOW <= now)
    requires if window == 0 then log == [] && failures == 0 else Counted(log, failures, window)
    requires failures < FAILURE_LIMIT || log[|log| - 1].recorded + BLOCK_SECONDS <= now
    ensures Counted(log, 0, now)
  {
    hide Spread, Blocking;
    if window != 0 {
      forall i | 0 <= i <= |log| - 5 ensures log[i].recorded + FAILURE_WINDOW <= now {
        if failures == FAILURE_LIMIT {
          assert log[i].recorded <= log[|log| - 1].recorded;
        }
      }
    }
  }

  /** With fewer than five failures in the window, no failure blocks any more. */
  lemma NotBlocking(log: seq<Failure>, failures: nat, window: int, last: int)
    requires failures < FAILURE_LIMIT && (window == 0 || Counted(log, failures, window)) && window <= last
    requires window == 0 ==> log == []
    ensures forall i :: 0 <= i < |log| && log[i].blocking ==> log[i].recorded + BLOCK_SECONDS <= last
  {
  }

  /** One more failure in a window that has fewer than five of them. */
  lemma AppendKeeps(log: seq<Failure>, f: Failure, failures: nat, window: int, was: int)
    requires failures < FAILURE_LIMIT && Kept(log, f.recorded) && Kept(log, was) && Counted(log, failures, window)
    requires was == f.checked <= f.recorded && window <= f.recorded < window + FAILURE_WINDOW
    requires f.blocking == (failures + 1 == FAILURE_LIMIT)
    requires forall i :: 0 <= i < |log| && log[i].blocking ==> log[i].recorded + BLOCK_SECONDS <= f.checked
    ensures Kept(log + [f], f.recorded) && Counted(log + [f], failures + 1, window)
  {
    hide Ordered, Spread, Blocking, Counted;
    AppendOrdered(log, f, was);
    AppendSpread(log, f, failures, window);
    AppendBlocking(log, f, failures, window);
    AppendCounted(log, f, failures, window);
  }

  lemma AppendOrdered(log: seq<Failure>, f: Failure, was: int)
    requires Ordered(log) && was == f.checked <= f.recorded && forall i :: 0 <= i < |log| ==> log[i].recorded <= was
    ensures Ordered(log + [f])
  {
  }

  lemma AppendSpread(log: seq<Failure>, f: Failure, failures: nat, window: int)
    requires Spread(log) && Counted(log, failures, window) && failures < FAILURE_LIMIT && window <= f.recorded
    ensures Spread(log + [f])
  {
    assert forall i :: 0 <= i && i + 9 <= |log| ==> log[i].recorded + FAILURE_WINDOW <= f.recorded;
  }

  lemma AppendBlocking(log: seq<Failure>, f: Failure, failures: nat, window: int)
    requires Blocking(log) && Counted(log, failures, window) && failures < FAILURE_LIMIT
    requires f.recorded < window + FAILURE_WINDOW && f.blocking == (failures + 1 == FAILURE_LIMIT)
    requires forall i :: 0 <= i < |log| && log[i].blocking ==> log[i].recorded + BLOCK_SECONDS <= f.checked
    ensures Blocking(log + [f])
  {
    if f.blocking {
      assert log[|log| - 4].recorded >= window;
    }
  }

  lemma AppendCounted(log: seq<Failure>, f: Failure, failures: nat, window: int)
    requires Counted(log, failures, window) && failures < FAILURE_LIMIT
    requires window <= f.recorded < window + FAILURE_WINDOW && f.blocking == (failures + 1 == FAILURE_LIMIT)
    ensures Counted(log + [f], failures + 1, window)
  {
  }

  // ---- What the log means -----------------------------------------------------------------

  /** How many failures were recorded in the half-open minute from `from`. */
  function CountInMinute(log: seq<Failure>, from: int): nat {
    if log == [] then 0
    else
      var f := log[|log| - 1];
      CountInMinute(log[..|log| - 1], from) + (if from <= f.recorded < from + 60 then 1 else 0)
  }

  lemma {:induction false} CountBound(log: seq<Failure>, from: int, k: nat)
    requires k <= |log| && forall i :: 0 <= i < k ==> log[i].recorded < from
    ensures CountInMinute(log, from) <= |log| - k
    decreases |log|
  {
    if log != [] {
      CountBound(log[..|log| - 1], from, if k == |log| then k - 1 else k);
    }
  }

  /** Any half-open minute holds at most nine failed checks. */
  lemma {:induction false} AtMostNine(log: seq<Failure>, from: int)
    requires Ordered(log) && Spread(log)
    ensures CountInMinute(log, from) <= 9
    decreases |log|
  {
    if log != [] {
      var n := |log| - 1;
      if from <= log[n].recorded < from + FAILURE_WINDOW {
        assert forall i :: 0 <= i < n - 8 ==> log[i].recorded + FAILURE_WINDOW <= log[n].recorded;
        CountBound(log, from, if n >= 9 then n - 8 else 0);
      } else {
        AtMostNine(log[..n], from);
      }
    }
  }
}
