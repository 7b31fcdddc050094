/**
 * `voice_pipeline_restart` of `api.c`, forward and rollback alike: which init commands it runs, and that
 * the ESPHome satellite and the local daemons never own the audio path together.
 */
module AudioOwner {
  import opened VoicePipeline

  datatype Service = Agentd | Sttd | Ttsd | Esphomed

  datatype Command = Stop(service: Service) | Start(service: Service)

  const LOCALS: set<Service> := {Agentd, Sttd, Ttsd}

  /**
   * How the init scripts behave in one restart. A stop that reports success has stopped its service; one that
   * fails leaves it up or down, whatever it was. A start leaves its service up or down, whatever it reports.
   */
  datatype Outcomes = Outcomes(
    failedStops: set<Service>, leftUp: set<Service>, failedStarts: set<Service>, comeUp: set<Service>, ready: seq<bool>)

  const READY_TICKS: nat := 50

  function AfterStop(running: set<Service>, s: Service, o: Outcomes): set<Service> {
    if s in o.failedStops && s in o.leftUp then running + {s} else running - {s}
  }

  function AfterStart(running: set<Service>, s: Service, o: Outcomes): set<Service> {
    if s in o.comeUp then running + {s} else running - {s}
  }

  /** The four stops, each only if its script is there. */
  function Stops(installed: set<Service>): seq<Command> {
    StopOf(installed, Agentd) + StopOf(installed, Sttd) + StopOf(installed, Ttsd) + StopOf(installed, Esphomed)
  }

  function StopOf(installed: set<Service>, s: Service): seq<Command> {
    if s in installed then [Stop(s)] else []
  }

  /** What may be started: the satellite after four good stops, the local daemons after a good satellite stop. */
  function Starts(installed: set<Service>, mode: string, o: Outcomes): seq<Command> {
    if mode == HOME_ASSISTANT then
      if Esphomed in installed && installed !! o.failedStops then [Start(Esphomed)] else []
    else
      if Esphomed in installed && Esphomed in o.failedStops then [] else [Start(Sttd), Start(Ttsd), Start(Agentd)]
  }

  function Effect(running: set<Service>, cs: seq<Command>, o: Outcomes): (after: set<Service>)
    decreases |cs|
  {
    if cs == [] then running
    else
      var c := cs[|cs| - 1];
      var before := Effect(running, cs[..|cs| - 1], o);
      match c
      case Stop(s) => AfterStop(before, s, o)
      case Start(s) => AfterStart(before, s, o)
  }

  predicate EverReady(ready: seq<bool>) {
    exists i :: 0 <= i < 50 && i < |ready| && ready[i]
  }

  class Host {
    const installed: set<Service>
    var running: set<Service>
    ghost var trace: seq<Command>

    constructor (installed: set<Service>, running: set<Service>)
      ensures this.installed == installed && this.running == running && trace == []
    {
      this.installed, this.running, trace := installed, running, [];
    }

    /** `run_init_command` */
    method RunInit(c: Command, o: Outcomes) returns (failed: bool)
      modifies this`running, this`trace
      ensures trace == old(trace) + [c] && running == Effect(old(running), [c], o)
      ensures failed <==> c.service in (if c.Stop? then o.failedStops else o.failedStarts)
    {
      trace := trace + [c];
      assert Effect(running, [c][..0], o) == running;
      match c
      case Stop(s) =>
        running := AfterStop(running, s, o);
        return s in o.failedStops;
      case Start(s) =>
        running := AfterStart(running, s, o);
        return s in o.failedStarts;
    }

    /** A stop that is attempted only when the script is there. */
    method StopIfInstalled(s: Service, o: Outcomes, ghost from: set<Service>, ghost done: seq<Command>)
      returns (failed: bool)
      requires running == Effect(from, done, o)
      modifies this`running, this`trace
      ensures trace == old(trace) + StopOf(installed, s) && running == Effect(from, done + StopOf(installed, s), o)
      ensures failed <==> s in installed && s in o.failedStops
    {
      hide Effect;
      EffectConcat(from, done, StopOf(installed, s), o);
      if s !in installed {
        assert done + [] == done;
        return false;
      }
      failed := RunInit(Stop(s), o);
    }

    method StopAll(o: Outcomes) returns (failed: bool, satelliteStopFailed: bool)
      modifies this`running, this`trace
      ensures trace == old(trace) + Stops(installed) && running == Effect(old(running), Stops(installed), o)
      ensures satelliteStopFailed <==> Esphomed in installed && Esphomed in o.failedStops
      ensures failed <==> !(installed !! o.failedStops)
    {
      hide Effect, StopOf;
      ghost var from, done := running, [];
      failed := false;
      EffectOfNothing(from, o);
      var f := StopIfInstalled(Agentd, o, from, done);
      if f { failed := true; }
      done := done + StopOf(installed, Agentd);
      f := StopIfInstalled(Sttd, o, from, done);
      if f { failed := true; }
      done := done + StopOf(installed, Sttd);
      f := StopIfInstalled(Ttsd, o, from, done);
      if f { failed := true; }
      done := done + StopOf(installed, Ttsd);
      satelliteStopFailed := StopIfInstalled(Esphomed, o, from, done);
      if satelliteStopFailed { failed := true; }
      done := done + StopOf(installed, Esphomed);
      assert done == Stops(installed);
      FourServices(installed, o);
    }

    method RestartPipeline(mode: string, o: Outcomes) returns (r: Code)
      modifies this`running, this`trace
      ensures trace == old(trace) + Stops(installed) + Starts(installed, mode, o)
      ensures running == Effect(old(running), Stops(installed) + Starts(installed, mode, o), o)
      ensures mode == HOME_ASSISTANT ==>
        r == if Esphomed !in installed then NotSupported
             else if installed !! o.failedStops && Esphomed !in o.failedStarts && EverReady(o.ready) then Ok else Io
      ensures mode != HOME_ASSISTANT ==>
        (r == Ok <==> installed !! o.failedStops && LOCALS !! o.failedStarts) && (r == Ok || r == Io)
    {
      hide Effect, Stops;
      var failed, satelliteStopFailed := StopAll(o);
      ghost var from, stops := old(running), Stops(installed);
      assert stops + [] == stops;
      if mode == HOME_ASSISTANT {
        if Esphomed !in installed { return NotSupported; }
        if failed { return Io; }
        var f := RunInit(Start(Esphomed), o);
        EffectConcat(from, stops, [Start(Esphomed)], o);
        if f { return Io; }
        for tick := 0 to READY_TICKS
          invariant forall i :: 0 <= i < tick && i < |o.ready| ==> !o.ready[i]
        {
          if tick < |o.ready| && o.ready[tick] { return Ok; }
        }
        return Io;
      }
      if satelliteStopFailed { return Io; }
      var f := StartLocals(o);
      EffectConcat(from, stops, [Start(Sttd), Start(Ttsd), Start(Agentd)], o);
      if f { failed := true; }
      return if failed then Io else Ok;
    }

    /** All three, whatever the others report. */
    method StartLocals(o: Outcomes) returns (failed: bool)
      modifies this`running, this`trace
      ensures var starts := [Start(Sttd), Start(Ttsd), Start(Agentd)];
              trace == old(trace) + starts && running == Effect(old(running), starts, o)
      ensures failed <==> !(LOCALS !! o.failedStarts)
    {
      hide Effect;
      ghost var from := running;
      failed := false;
      var f := RunInit(Start(Sttd), o);
      if f { failed := true; }
      f := RunInit(Start(Ttsd), o);
      if f { failed := true; }
      EffectConcat(from, [Start(Sttd)], [Start(Ttsd)], o);
      f := RunInit(Start(Agentd), o);
      if f { failed := true; }
      EffectConcat(from, [Start(Sttd)] + [Start(Ttsd)], [Start(Agentd)], o);
      assert [Start(Sttd)] + [Start(Ttsd)] + [Start(Agentd)] == [Start(Sttd), Start(Ttsd), Start(Agentd)];
    }
  }

  lemma EffectOfNothing(running: set<Service>, o: Outcomes)
    ensures Effect(running, [], o) == running
  {
  }

  lemma FourServices(installed: set<Service>, o: Outcomes)
    ensures installed !! o.failedStops <==>
      !((Agentd in installed && Agentd in o.failedStops) || (Sttd in installed && Sttd in o.failedStops)
        || (Ttsd in installed && Ttsd in o.failedStops) || (Esphomed in installed && Esphomed in o.failedStops))
  {
    if s: Service :| s in installed && s in o.failedStops {
      assert s == Agentd || s == Sttd || s == Ttsd || s == Esphomed;
    }
  }

  lemma {:induction false} EffectConcat(running: set<Service>, a: seq<Command>, b: seq<Command>, o: Outcomes)
    ensures Effect(running, a + b, o) == Effect(Effect(running, a, o), b, o)
    decreases |b|
  {
    if b == [] {
      assert a + b == a;
    } else {
      EffectConcat(running, a, b[..|b| - 1], o);
      assert (a + b)[..|a + b| - 1] == a + b[..|b| - 1];
    }
  }

  // ---- One owner at a time ----------------------------------------------------------------

  predicate OneOwner(running: set<Service>) {
    Esphomed in running ==> running !! LOCALS
  }

  function Restarted(installed: set<Service>, running: set<Service>, mode: string, o: Outcomes): set<Service> {
    Effect(running, Stops(installed) + Starts(installed, mode, o), o)
  }

  /** What the stops leave running: exactly the installed services whose stop failed and left them up. */
  function LeftRunning(installed: set<Service>, o: Outcomes): set<Service> {
    installed * o.failedStops * o.leftUp
  }

  lemma StopsLeave(installed: set<Service>, running: set<Service>, o: Outcomes)
    requires running <= installed
    ensures Effect(running, Stops(installed), o) == LeftRunning(installed, o)
  {
    hide Effect, StopOf;
    EffectOfNothing(running, o);
    var one := StopOf(installed, Agentd);
    assert [] + one == one;
    var two := one + StopOf(installed, Sttd);
    var three := two + StopOf(installed, Ttsd);
    StopEach(running, [], Agentd, installed, o);
    StopEach(running, one, Sttd, installed, o);
    StopEach(running, two, Ttsd, installed, o);
    StopEach(running, three, Esphomed, installed, o);
    assert Stops(installed) == three + StopOf(installed, Esphomed);
    var after := Effect(running, Stops(installed), o);
    forall s: Service ensures s in after <==> s in LeftRunning(installed, o) {
      assert s == Agentd || s == Sttd || s == Ttsd || s == Esphomed;
    }
  }

  lemma StopEach(running: set<Service>, done: seq<Command>, s: Service, installed: set<Service>, o: Outcomes)
    ensures var before := Effect(running, done, o);
            var after := Effect(running, done + StopOf(installed, s), o);
            after == if s !in installed then before else AfterStop(before, s, o)
  {
    if s in installed {
      assert (done + [Stop(s)])[..|done|] == done;
    } else {
      assert done + [] == done;
    }
  }

  /** The satellite's stop and a local daemon's both failed and left them up. */
  predicate BothLeftUp(installed: set<Service>, o: Outcomes) {
    Esphomed in LeftRunning(installed, o) && exists s :: s in LOCALS && s in LeftRunning(installed, o)
  }

  /** What the starts add to `stopped`. */
  lemma StartsAdd(installed: set<Service>, mode: string, stopped: set<Service>, o: Outcomes)
    ensures var after := Effect(stopped, Starts(installed, mode, o), o);
            after == match Starts(installed, mode, o) == []
                     case true => stopped
                     case false =>
                       if mode == HOME_ASSISTANT then AfterStart(stopped, Esphomed, o)
                       else AfterStart(AfterStart(AfterStart(stopped, Sttd, o), Ttsd, o), Agentd, o)
  {
    hide Effect;
    EffectOfNothing(stopped, o);
    var starts := Starts(installed, mode, o);
    if starts != [] && mode == HOME_ASSISTANT {
      StartLast(stopped, [], Esphomed, o);
      assert [] + starts == starts;
    } else if starts != [] {
      assert [] + [Start(Sttd)] == [Start(Sttd)];
      assert [Start(Sttd)] + [Start(Ttsd)] == [Start(Sttd), Start(Ttsd)];
      assert [Start(Sttd), Start(Ttsd)] + [Start(Agentd)] == starts;
      StartLast(stopped, [], Sttd, o);
      StartLast(stopped, [Start(Sttd)], Ttsd, o);
      StartLast(stopped, [Start(Sttd), Start(Ttsd)], Agentd, o);
    }
  }

  lemma StartLast(running: set<Service>, cs: seq<Command>, s: Service, o: Outcomes)
    ensures Effect(running, cs + [Start(s)], o) == AfterStart(Effect(running, cs, o), s, o)
  {
    assert (cs + [Start(s)])[..|cs|] == cs;
  }

  /**
   * Whatever failed stops and all starts do to their services: a restart leaves one owner exactly unless
   * the satellite's stop and a local daemon's both failed and left them up. Only installed services run.
   */
  lemma RestartKeepsOneOwner(installed: set<Service>, running: set<Service>, mode: string, o: Outcomes)
    requires running <= installed && o.comeUp <= installed
    ensures var after := Restarted(installed, running, mode, o);
            after <= installed && (OneOwner(after) <==> !BothLeftUp(installed, o))
  {
    hide Effect, Stops;
    var stops, starts := Stops(installed), Starts(installed, mode, o);
    StopsLeave(installed, running, o);
    EffectConcat(running, stops, starts, o);
    StartsAdd(installed, mode, LeftRunning(installed, o), o);
  }

  /** What a caller can see of it: no restart in which the satellite's stop and a local stop both fail can break it. */
  lemma OneFailedSideIsSafe(installed: set<Service>, o: Outcomes)
    requires Esphomed !in installed * o.failedStops || LOCALS !! installed * o.failedStops
    ensures !BothLeftUp(installed, o)
  {
  }

  datatype Attempt = Attempt(mode: string, o: Outcomes)

  function AllRestarted(installed: set<Service>, running: set<Service>, run: seq<Attempt>): set<Service>
    decreases |run|
  {
    if run == [] then running
    else AllRestarted(installed, Restarted(installed, running, run[0].mode, run[0].o), run[1..])
  }

  /**
   * After every restart of any sequence, forward or rollback, there is one owner exactly if none of them had
   * the satellite's stop and a local daemon's both fail and leave them up.
   */
  lemma {:induction false} AlwaysOneOwner(installed: set<Service>, running: set<Service>, run: seq<Attempt>)
    requires OneOwner(running) && running <= installed && forall a :: a in run ==> a.o.comeUp <= installed
    ensures (forall n :: 0 <= n <= |run| ==> OneOwner(AllRestarted(installed, running, run[..n])))
       <==> (forall a :: a in run ==> !BothLeftUp(installed, a.o))
    decreases |run|
  {
    hide Restarted, OneOwner, BothLeftUp;
    if run == [] {
      assert forall n :: 0 <= n <= |run| ==> run[..n] == [];
    } else {
      var next, rest := Restarted(installed, running, run[0].mode, run[0].o), run[1..];
      RestartKeepsOneOwner(installed, running, run[0].mode, run[0].o);
      forall n | 1 <= n <= |run|
        ensures AllRestarted(installed, running, run[..n]) == AllRestarted(installed, next, rest[..n - 1])
      {
        assert run[..n][1..] == rest[..n - 1] && run[..n][0] == run[0];
      }
      assert run[..0] == [] && rest[..0] == [];
      assert AllRestarted(installed, running, run[..0]) == running && AllRestarted(installed, next, rest[..0]) == next;
      if OneOwner(next) {
        AlwaysOneOwner(installed, next, rest);
        assert forall a :: a in run <==> a == run[0] || a in rest;
        forall n | 0 <= n <= |rest|
          ensures AllRestarted(installed, running, run[..n + 1]) == AllRestarted(installed, next, rest[..n])
        {
          assert AllRestarted(installed, running, run[..n + 1]) == AllRestarted(installed, next, rest[..n + 1 - 1]);
        }
      } else {
        assert run[0] in run;
        assert !OneOwner(AllRestarted(installed, running, run[..1]));
      }
    }
  }

  /** It does happen: both stops fail on a local pipeline, and the satellite is left up beside the recogniser. */
  lemma TwoOwners(mode: string)
    ensures var all := {Agentd, Sttd, Ttsd, Esphomed};
            var o := Outcomes({Sttd, Esphomed}, {Sttd, Esphomed}, {}, {}, []);
            OneOwner(LOCALS) && !OneOwner(AllRestarted(all, LOCALS, [Attempt(mode, o)]))
  {
    var all := {Agentd, Sttd, Ttsd, Esphomed};
    var o := Outcomes({Sttd, Esphomed}, {Sttd, Esphomed}, {}, {}, []);
    RestartKeepsOneOwner(all, LOCALS, mode, o);
    assert Sttd in LOCALS && Sttd in LeftRunning(all, o);
    assert [Attempt(mode, o)][1..] == [];
  }

  lemma AllStops()
    ensures Stops({Agentd, Sttd, Ttsd, Esphomed}) == [Stop(Agentd), Stop(Sttd), Stop(Ttsd), Stop(Esphomed)]
  {
  }

  lemma StopsHas(installed: set<Service>, c: Command)
    ensures c in Stops(installed) <==> c.Stop? && c.service in installed
  {
    assert c.service == Agentd || c.service == Sttd || c.service == Ttsd || c.service == Esphomed;
  }

  /**
   * In the commands a restart appends to its trace: the local daemons are started, all three, exactly outside
   * Home Assistant mode and unless the satellite was told to stop and failed to; the satellite exactly in that
   * mode, once told to stop, and after no stop failed.
   */
  lemma StartsInTrace(installed: set<Service>, mode: string, o: Outcomes, commands: seq<Command>)
    requires commands == Stops(installed) + Starts(installed, mode, o)
    ensures forall s :: s in LOCALS ==> (Start(s) in commands <==>
              mode != HOME_ASSISTANT && !(Stop(Esphomed) in commands && Esphomed in o.failedStops))
    ensures Start(Esphomed) in commands <==>
              mode == HOME_ASSISTANT && Stop(Esphomed) in commands
              && forall s :: Stop(s) in commands ==> s !in o.failedStops
    ensures mode != HOME_ASSISTANT && Start(Agentd) in commands ==>
              Stops(installed) + [Start(Sttd), Start(Ttsd), Start(Agentd)] == commands
    ensures installed == {Agentd, Sttd, Ttsd, Esphomed} ==>
              Stops(installed) == [Stop(Agentd), Stop(Sttd), Stop(Ttsd), Stop(Esphomed)]
  {
    AllStops();
    hide Stops;
    forall c ensures c in commands <==> c in Starts(installed, mode, o) || (c.Stop? && c.service in installed) {
      StopsHas(installed, c);
    }
  }
}
