/** Factory reset of `backend_linux.c`: quiesce, clear, reboot, and the way back when it refuses. */
module FactoryReset {
  const SERVICES: seq<string> := [
    "/etc/init.d/libreecho-watchdogd.init", "/etc/init.d/libreecho-btd.init", "/etc/init.d/libreecho-ledd.init",
    "/etc/init.d/libreecho-networkd.init", "/etc/init.d/libreecho-timerd.init", "/etc/init.d/libreecho-agentd.init",
    "/etc/init.d/libreecho-waked.init", "/etc/init.d/libreecho-micd.init"]
  const COUNT: nat := 8
  const SUPERVISOR: nat := 0
  const WAKED: nat := 6
  const MICD: nat := 7
  const CAPTURE: seq<string> := ["/etc/init.d/libreecho-micd.init", "/etc/init.d/libreecho-waked.init"]

  datatype Action =
    | Status(service: nat) | Stop(service: nat) | Start(service: nat)
    | ClearLegacy | ClearRoot | Sync | Reboot

  /**
   * How one service answers: is its script there, does it report running, does the stop fail, does it
   * still report running.
   */
  datatype Answers = Answers(installed: bool, running: bool, stopFails: bool, stillRunning: bool)

  datatype Code = Ok | Io | NotSupported

  predicate Active(a: Answers) {
    a.installed && a.running
  }

  /** A service that was running and did not go down. */
  predicate Stuck(a: Answers) {
    Active(a) && (a.stopFails || a.stillRunning)
  }

  // ---- The commands of each phase ---------------------------------------------------------

  function FirstStuck(env: seq<Answers>, i: nat): (k: nat)
    requires i <= |env|
    ensures i <= k <= |env| && (k < |env| ==> Stuck(env[k])) && forall j :: i <= j < k ==> !Stuck(env[j])
    decreases |env| - i
  {
    if i == |env| || Stuck(env[i]) then i else FirstStuck(env, i + 1)
  }

  function Quiescing(env: seq<Answers>, i: nat): seq<Action>
    requires i < |env|
  {
    var a := env[i];
    if !a.installed then [] else if !a.running then [Status(i)]
    else if a.stopFails then [Status(i), Stop(i)] else [Status(i), Stop(i), Status(i)]
  }

  function QuiescingAll(env: seq<Answers>, n: nat): seq<Action>
    requires n <= |env|
  {
    if n == 0 then [] else QuiescingAll(env, n - 1) + Quiescing(env, n - 1)
  }

  /** The marks once the services before `n` are quiesced. */
  function Marks(env: seq<Answers>, n: nat): (stopped: seq<bool>)
    requires |env| == COUNT
    ensures |stopped| == COUNT && forall i :: 0 <= i < COUNT ==> stopped[i] == (i < n && Active(env[i]))
  {
    seq(COUNT, i requires 0 <= i < COUNT => i < n && Active(env[i]))
  }

  function Starting(stopped: seq<bool>, n: nat): seq<Action>
    requires n <= |stopped| == COUNT
  {
    if n == 0 then []
    else Starting(stopped, n - 1) + if stopped[n - 1] && n - 1 != WAKED && n - 1 != MICD then [Start(n - 1)] else []
  }

  function RestoringCapture(stopped: seq<bool>): seq<Action>
    requires |stopped| == COUNT
  {
    if !stopped[MICD] && !stopped[WAKED] then []
    else (if stopped[MICD] then [] else [Stop(MICD)]) + [Start(MICD), Start(WAKED)]
  }

  function Resuming(stopped: seq<bool>): seq<Action>
    requires |stopped| == COUNT
  {
    Starting(stopped, COUNT) + RestoringCapture(stopped)
  }

  // ---- The device -------------------------------------------------------------------------

  function IndexFrom(script: string, i: nat): (k: nat)
    requires i <= COUNT
    ensures i <= k <= COUNT && (k < COUNT ==> SERVICES[k] == script) && forall j :: i <= j < k ==> SERVICES[j] != script
    decreases COUNT - i
  {
    if i == COUNT || SERVICES[i] == script then i else IndexFrom(script, i + 1)
  }

  /** The capture unit is in the table: the guard on its indexes never fires. */
  lemma CaptureIndexes()
    ensures IndexFrom(CAPTURE[0], 0) == MICD && IndexFrom(CAPTURE[1], 0) == WAKED
  {
    assert |SERVICES[0]| == 36 && |SERVICES[1]| == 30 && |SERVICES[2]| == 31 && |SERVICES[3]| == 35;
    assert |SERVICES[4]| == 33 && |SERVICES[5]| == 33 && |SERVICES[6]| == 32 && |SERVICES[7]| == 31;
    assert SERVICES[2][22] == 'l' && SERVICES[7][22] == 'm';
  }

  class Device {
    ghost var trace: seq<Action>

    constructor ()
      ensures trace == []
    {
      trace := [];
    }

    ghost method Log(a: Action)
      modifies this
      ensures trace == old(trace) + [a]
    {
      trace := trace + [a];
    }

    /** `factory_reset_index` */
    method ServiceIndex(script: string) returns (k: nat)
      ensures k == IndexFrom(script, 0)
    {
      for i := 0 to COUNT
        invariant IndexFrom(script, 0) == IndexFrom(script, i)
      {
        if SERVICES[i] == script { return i; }
      }
      return COUNT;
    }

    /** `restore_factory_reset_capture` */
    method RestoreCapture(stopped: array<bool>)
      requires stopped.Length == COUNT
      modifies this
      ensures trace == old(trace) + RestoringCapture(stopped[..])
    {
      CaptureIndexes();
      var producer := ServiceIndex(CAPTURE[0]);
      var consumer := ServiceIndex(CAPTURE[1]);
      if !stopped[producer] && !stopped[consumer] { return; }
      if !stopped[producer] { Log(Stop(producer)); }
      Log(Start(producer));
      Log(Start(consumer));
    }

    /** `resume_factory_reset_services` */
    method Resume(stopped: array<bool>)
      requires stopped.Length == COUNT
      modifies this
      ensures trace == old(trace) + Resuming(stopped[..])
    {
      CaptureIndexes();
      var producer := ServiceIndex(CAPTURE[0]);
      var consumer := ServiceIndex(CAPTURE[1]);
      for i := 0 to COUNT
        invariant trace == old(trace) + Starting(stopped[..], i)
      {
        if !stopped[i] || i == producer || i == consumer { continue; }
        Log(Start(i));
      }
      RestoreCapture(stopped);
    }

    /** `quiesce_factory_reset_services` */
    method Quiesce(env: seq<Answers>, stopped: array<bool>) returns (ok: bool)
      requires |env| == stopped.Length == COUNT
      modifies this, stopped
      ensures ok <==> FirstStuck(env, 0) == COUNT
      ensures ok ==> stopped[..] == Marks(env, COUNT) && trace == old(trace) + QuiescingAll(env, COUNT)
      ensures !ok ==> var k := FirstStuck(env, 0);
                      trace == old(trace) + QuiescingAll(env, k + 1) + Resuming(Marks(env, k))
    {
      hide Quiescing, Resuming;
      forall i | 0 <= i < COUNT { stopped[i] := false; }
      for i := 0 to COUNT
        invariant stopped[..] == Marks(env, i) && FirstStuck(env, 0) == FirstStuck(env, i)
        invariant trace == old(trace) + QuiescingAll(env, i)
      {
        var stuck := QuiesceOne(env, i);
        if stuck {
          Resume(stopped);
          return false;
        }
        if Active(env[i]) { stopped[i] := true; }
      }
      return true;
    }

    /** One round of the quiesce loop: probe, stop, probe again. */
    method QuiesceOne(env: seq<Answers>, i: nat) returns (stuck: bool)
      requires i < |env|
      modifies this
      ensures stuck == Stuck(env[i]) && trace == old(trace) + Quiescing(env, i)
    {
      if !env[i].installed { return false; }
      Log(Status(i));
      if !env[i].running { return false; }
      Log(Stop(i));
      if env[i].stopFails { return true; }
      Log(Status(i));
      return env[i].stillRunning;
    }

    /** `factory_reset`; the flags are the results of the two clears and of the reboot. */
    method Reset(root: bool, env: seq<Answers>, legacy: bool, cleared: bool, reboot: Code) returns (r: Code)
      requires |env| == COUNT
      modifies this
      ensures trace == old(trace) + Resetting(root, env, legacy, cleared, reboot)
      ensures r == Ok <==> root && AllStop(env) && legacy && cleared && reboot == Ok
      ensures var t := trace[|old(trace)|..];
              && (r == Ok ==> t == QuiescingAll(env, COUNT) + [ClearLegacy, ClearRoot, Sync, Reboot])
              && (ClearLegacy in t <==> root && AllStop(env))
              && (ClearRoot in t <==> root && AllStop(env) && legacy)
              && (Sync in t <==> root && AllStop(env) && legacy && cleared)
              && (Reboot in t <==> root && AllStop(env) && legacy && cleared)
      ensures r == if !root then NotSupported else if !AllStop(env) || !legacy || !cleared then Io else reboot
    {
      hide QuiescingAll, AllStop, Resetting, FirstStuck;
      ResettingMeans(root, env, legacy, cleared, reboot);
      r := Perform(root, env, legacy, cleared, reboot);
      assert trace[|old(trace)|..] == Resetting(root, env, legacy, cleared, reboot);
    }

    /** The commands of the reset, in order. */
    method Perform(root: bool, env: seq<Answers>, legacy: bool, cleared: bool, reboot: Code) returns (r: Code)
      requires |env| == COUNT
      modifies this
      ensures trace == old(trace) + Resetting(root, env, legacy, cleared, reboot)
      ensures r == if !root then NotSupported
                   else if FirstStuck(env, 0) < COUNT || !legacy || !cleared then Io else reboot
    {
      hide QuiescingAll, Resuming, FirstStuck, Marks, Stuck;
      if !root { return NotSupported; }
      var stopped := new bool[COUNT];
      var ok := Quiesce(env, stopped);
      if !ok { return Io; }
      Log(ClearLegacy);
      if legacy { Log(ClearRoot); }
      if !legacy || !cleared {
        Resume(stopped);
        return Io;
      }
      Log(Sync);
      Log(Reboot);
      if reboot != Ok { Resume(stopped); }
      return reboot;
    }
  }

  /** Every service that is there and runs stops when told to, and then reports so. */
  predicate AllStop(env: seq<Answers>) {
    forall i :: 0 <= i < |env| && env[i].installed && env[i].running ==> !env[i].stopFails && !env[i].stillRunning
  }

  /** What a reset does about the state: each clear, the sync and the reboot exactly where all before went well. */
  lemma ResettingMeans(root: bool, env: seq<Answers>, legacy: bool, cleared: bool, reboot: Code)
    requires |env| == COUNT
    ensures FirstStuck(env, 0) == COUNT <==> AllStop(env)
    ensures var t := Resetting(root, env, legacy, cleared, reboot);
            && (root && AllStop(env) && legacy && cleared && reboot == Ok ==>
                  t == QuiescingAll(env, COUNT) + [ClearLegacy, ClearRoot, Sync, Reboot])
            && (ClearLegacy in t <==> root && AllStop(env))
            && (ClearRoot in t <==> root && AllStop(env) && legacy)
            && (Sync in t <==> root && AllStop(env) && legacy && cleared)
            && (Reboot in t <==> root && AllStop(env) && legacy && cleared)
  {
    hide QuiescingAll, Resuming;
    var k := FirstStuck(env, 0);
    var n := if k < COUNT then k + 1 else COUNT;
    forall a: Action | a in {ClearLegacy, ClearRoot, Sync, Reboot}
      ensures a !in QuiescingAll(env, n) && a !in Resuming(Marks(env, k))
    {
      QuiescingHas(env, n, a);
      ResumingHas(Marks(env, k), a);
    }
    var q := QuiescingAll(env, COUNT);
    assert q + [ClearLegacy] + [ClearRoot] + [Sync, Reboot] + [] == q + [ClearLegacy, ClearRoot, Sync, Reboot];
  }

  function Resetting(root: bool, env: seq<Answers>, legacy: bool, cleared: bool, reboot: Code): seq<Action>
    requires |env| == COUNT
  {
    if !root then []
    else
      var k := FirstStuck(env, 0);
      if k < COUNT then QuiescingAll(env, k + 1) + Resuming(Marks(env, k))
      else
        QuiescingAll(env, COUNT) + [ClearLegacy] + (if legacy then [ClearRoot] else [])
        + (if legacy && cleared then [Sync, Reboot] else [])
        + (if legacy && cleared && reboot == Ok then [] else Resuming(Marks(env, COUNT)))
  }

  // ---- What the commands amount to --------------------------------------------------------

  /** What a refused reset has marked: everything stopped before the service that would not stop. */
  function Stopped(env: seq<Answers>): seq<bool>
    requires |env| == COUNT
  {
    Marks(env, FirstStuck(env, 0))
  }

  lemma {:induction false} StartingHas(stopped: seq<bool>, n: nat, a: Action)
    requires n <= |stopped| == COUNT
    ensures a in Starting(stopped, n) <==>
      a.Start? && a.service < n && stopped[a.service] && a.service != WAKED && a.service != MICD
  {
    if n > 0 {
      StartingHas(stopped, n - 1, a);
    }
  }

  /** A service is started again exactly if it was stopped; the capture unit as one. */
  lemma ResumingHas(stopped: seq<bool>, a: Action)
    requires |stopped| == COUNT
    ensures a in Resuming(stopped) <==>
      || (a.Start? && a.service < COUNT
          && (if a.service == WAKED || a.service == MICD then stopped[WAKED] || stopped[MICD] else stopped[a.service]))
      || (a == Stop(MICD) && stopped[WAKED] && !stopped[MICD])
  {
    StartingHas(stopped, COUNT, a);
  }

  /** The supervisor is back first, and the capture unit last: micd, then waked, after a stop of a surviving micd. */
  lemma ResumingOrder(stopped: seq<bool>)
    requires |stopped| == COUNT
    ensures stopped[SUPERVISOR] ==> Resuming(stopped) != [] && Resuming(stopped)[0] == Start(SUPERVISOR)
    ensures stopped[WAKED] || stopped[MICD] ==>
      exists front ::
        && Resuming(stopped) == front + (if stopped[MICD] then [] else [Stop(MICD)]) + [Start(MICD), Start(WAKED)]
        && Start(MICD) !in front && Start(WAKED) !in front && Stop(MICD) !in front
  {
    if stopped[SUPERVISOR] { StartingFirst(stopped, COUNT); }
    var front := Starting(stopped, COUNT);
    StartingHas(stopped, COUNT, Start(MICD));
    StartingHas(stopped, COUNT, Start(WAKED));
    StartingHas(stopped, COUNT, Stop(MICD));
    if stopped[WAKED] || stopped[MICD] {
      assert Resuming(stopped) == front + (if stopped[MICD] then [] else [Stop(MICD)]) + [Start(MICD), Start(WAKED)];
    }
  }

  lemma {:induction false} StartingFirst(stopped: seq<bool>, n: nat)
    requires 0 < n <= |stopped| == COUNT && stopped[SUPERVISOR]
    ensures Starting(stopped, n) != [] && Starting(stopped, n)[0] == Start(SUPERVISOR)
    decreases n
  {
    if n > 1 {
      StartingFirst(stopped, n - 1);
    } else {
      assert Starting(stopped, 0) == [];
    }
  }

  /** Probed, stopped, probed again, in this order and without anything in between. */
  ghost predicate StoppedAndProbed(t: seq<Action>, i: nat) {
    exists k :: 0 <= k && k + 3 <= |t| && t[k] == Status(i) && t[k + 1] == Stop(i) && t[k + 2] == Status(i)
  }

  lemma {:induction false} QuiescingStops(env: seq<Answers>, n: nat, i: nat)
    requires i < n <= |env| && Active(env[i]) && !env[i].stopFails
    ensures StoppedAndProbed(QuiescingAll(env, n), i)
    decreases n
  {
    var front, one := QuiescingAll(env, n - 1), Quiescing(env, n - 1);
    var t := QuiescingAll(env, n);
    if i < n - 1 {
      QuiescingStops(env, n - 1, i);
      var k :|
        0 <= k && k + 3 <= |front| && front[k] == Status(i) && front[k + 1] == Stop(i) && front[k + 2] == Status(i);
      assert t[k] == front[k] && t[k + 1] == front[k + 1] && t[k + 2] == front[k + 2];
    } else {
      var k := |front|;
      assert t[k] == one[0] && t[k + 1] == one[1] && t[k + 2] == one[2];
    }
  }

  lemma OneHas(env: seq<Answers>, i: nat, a: Action)
    requires i < |env|
    ensures a in Quiescing(env, i) <==>
      (a == Status(i) && env[i].installed) || (a == Stop(i) && Active(env[i]))
  {
  }

  lemma {:induction false} QuiescingHas(env: seq<Answers>, n: nat, a: Action)
    requires n <= |env|
    ensures a in QuiescingAll(env, n) <==>
      (a.Status? && a.service < n && env[a.service].installed) || (a.Stop? && a.service < n && Active(env[a.service]))
  {
    hide Quiescing, Active;
    if n > 0 {
      QuiescingHas(env, n - 1, a);
      OneHas(env, n - 1, a);
    }
  }

  /** Before anything is stopped the supervisor is, if it runs. */
  lemma {:induction false} SupervisorStopsFirst(env: seq<Answers>, n: nat)
    requires 0 < n <= |env| && Active(env[SUPERVISOR])
    ensures |QuiescingAll(env, n)| >= 2 && QuiescingAll(env, n)[..2] == [Status(SUPERVISOR), Stop(SUPERVISOR)]
    decreases n
  {
    if n > 1 {
      SupervisorStopsFirst(env, n - 1);
    } else {
      assert QuiescingAll(env, 0) == [];
    }
  }

  /**
   * State is cleared only after every installed service that reported running was stopped and then
   * reported not running, whatever the pattern of running services and failed stops.
   */
  lemma ClearedOnlyWhenQuiet(root: bool, env: seq<Answers>, legacy: bool, cleared: bool, reboot: Code)
    requires |env| == COUNT
    ensures var t := Resetting(root, env, legacy, cleared, reboot);
            ClearLegacy in t || ClearRoot in t ==>
              forall i :: 0 <= i < COUNT && Active(env[i]) ==>
                && !env[i].stillRunning && StoppedAndProbed(QuiescingAll(env, COUNT), i)
                && QuiescingAll(env, COUNT) + [ClearLegacy] <= t
  {
    hide QuiescingAll, Resuming, StoppedAndProbed;
    var t, k := Resetting(root, env, legacy, cleared, reboot), FirstStuck(env, 0);
    if root && k < COUNT {
      ResumingHas(Marks(env, k), ClearLegacy);
      ResumingHas(Marks(env, k), ClearRoot);
      QuiescingHas(env, k + 1, ClearLegacy);
      QuiescingHas(env, k + 1, ClearRoot);
    } else if root {
      forall i | 0 <= i < COUNT && Active(env[i]) ensures StoppedAndProbed(QuiescingAll(env, COUNT), i) {
        QuiescingStops(env, COUNT, i);
      }
    }
  }

  /**
   * A reset that is refused once it has begun starts exactly what it had stopped, micd and waked both or
   * neither; a reset that goes through starts nothing.
   */
  lemma RefusedResetResumes(env: seq<Answers>, legacy: bool, cleared: bool, reboot: Code, i: nat)
    requires |env| == COUNT && i < COUNT
    ensures var t, stopped := Resetting(true, env, legacy, cleared, reboot), Stopped(env);
            var through := FirstStuck(env, 0) == COUNT && legacy && cleared && reboot == Ok;
            && (through ==> Start(i) !in t)
            && (!through ==> |Resuming(stopped)| <= |t| && t[|t| - |Resuming(stopped)|..] == Resuming(stopped))
            && (!through ==> (Start(i) in t <==>
                  if i == WAKED || i == MICD then stopped[WAKED] || stopped[MICD] else stopped[i]))
  {
    hide QuiescingAll, Resuming, FirstStuck, Marks, Active;
    var k := FirstStuck(env, 0);
    QuiescingHas(env, if k < COUNT then k + 1 else COUNT, Start(i));
    ResumingHas(Stopped(env), Start(i));
  }
}
