/** Home Assistant mode and its integration bit, over every run of the voice machine. */
module VoiceCoupling {
  import opened VoicePipeline
  import opened Wrappers

  /** Home Assistant mode and integration bit go together, and exclude local-only processing. */
  predicate Coupled(v: Voice) {
    (v.mode == HOME_ASSISTANT <==> v.haBit) && (v.mode == HOME_ASSISTANT ==> !v.localOnly)
  }

  /** The previous mode, once remembered, is one to go back to. */
  predicate Returnable(v: Voice) {
    ModeKnown(v.mode) && (v.previousValid ==> v.previous == LOCAL || v.previous == CUSTOM)
  }

  predicate Consistent(s: State) {
    && Coupled(s.voice) && Returnable(s.voice)
    && (!s.worker.Idle? ==> Coupled(s.worker.before) && Returnable(s.worker.before))
  }

  /** A toggle whose own poll is the one that undoes a transition into or out of Home Assistant mode. */
  predicate Races(s: State, t: Step) {
    && t.HomeAssistant? && s.worker.Forward? && !t.poll.wait.StillRunning? && ResultOf(t.poll.wait) != Ok
    && (s.worker.before.mode == HOME_ASSISTANT) != (s.voice.mode == HOME_ASSISTANT)
  }

  lemma StartIsConsistent(disk: Option<Saved>, s: State)
    ensures Consistent(Restart(s.(disk := disk)))
  {
  }

  lemma ReapConsistent(s: State, p: Poll)
    requires Consistent(s)
    ensures Consistent(Reap(s, p))
  {
  }

  lemma PipelineConsistent(s: State, body: Option<Update>, mode: string, e: Surroundings, after: Poll)
    requires Consistent(s)
    ensures Consistent(PutPipeline(s, body, mode, e, after).0)
  {
    hide TokenValid, UriValid;
  }

  lemma PrivacyConsistent(s: State, local: Field<bool>, valid: bool, saves: bool)
    requires Consistent(s)
    ensures Consistent(PutPrivacy(s, local, valid, saves).0)
  {
  }

  lemma PersistConsistent(s: State, saves: bool)
    requires Consistent(s)
    ensures Consistent(Persist(s, saves))
  {
  }

  lemma ToggleConsistent(s: State, enabled: bool, p: Poll, e: Surroundings)
    requires Consistent(s) && !Races(s, HomeAssistant(p, enabled, e))
    ensures Consistent(Toggle(s, enabled, p, e).0)
  {
    hide PutHomeAssistant;
    var polled := Reap(s.(voice := s.voice.(haBit := enabled)), p);
    assert (polled.voice.mode == HOME_ASSISTANT) == (s.voice.mode == HOME_ASSISTANT);
    PutHomeAssistantConsistent(polled, enabled, s.voice.mode == HOME_ASSISTANT, e);
  }

  /** The toggle behind its poll, with the bit that goes with the mode. */
  lemma PutHomeAssistantConsistent(s: State, enabled: bool, bit: bool, e: Surroundings)
    requires Coupled(s.voice.(haBit := bit)) && Returnable(s.voice)
    requires !s.worker.Idle? ==> Coupled(s.worker.before) && Returnable(s.worker.before)
    ensures Consistent(PutHomeAssistant(s, enabled, bit, e).0)
  {
  }

  lemma CouplingStep(s: State, t: Step)
    requires Consistent(s) && !Races(s, t)
    ensures Consistent(Next(s, t))
  {
    hide Reap, PutPipeline, PutPrivacy, Toggle, Restart, Consistent;
    match t
    case Polling(p) => ReapConsistent(s, p);
    case Pipeline(p, body, e, after) =>
      ReapConsistent(s, p);
      PipelineConsistent(Reap(s, p), body, s.voice.mode, e, after);
    case HomeAssistant(p, enabled, e) => ToggleConsistent(s, enabled, p, e);
    case Privacy(local, valid, saves) => PrivacyConsistent(s, local, valid, saves);
    case Saving(p, saves) =>
      ReapConsistent(s, p);
      PersistConsistent(Reap(s, p), saves);
    case Reload => StartIsConsistent(s.disk, s);
  }

  /** The undoing ends with the poll, and the request, saved, asks for the mode that was gone back to. */
  predicate Heals(s: State, t: Step)
    requires Races(s, t)
  {
    && (!t.poll.saves || t.poll.child < 0) && t.e.saves
    && (t.e.mock || t.enabled == (s.worker.before.mode == HOME_ASSISTANT))
  }

  /** In a state where mode and bit go together, the race breaks that exactly unless it heals. */
  lemma CouplingRaced(s: State, t: Step)
    requires Consistent(s) && Races(s, t)
    ensures Consistent(Next(s, t)) <==> Heals(s, t)
  {
  }

  /** Every step of a run happens without a race. */
  predicate NoRaces(s: State, run: seq<Step>)
    decreases |run|
  {
    run == [] || (!Races(s, run[0]) && NoRaces(Next(s, run[0]), run[1..]))
  }

  lemma {:induction false} CouplingRun(s: State, run: seq<Step>)
    requires Consistent(s) && NoRaces(s, run)
    ensures Consistent(Run(s, run))
    decreases |run|
  {
    hide Consistent, Races, Next;
    if run != [] {
      CouplingStep(s, run[0]);
      CouplingRun(Next(s, run[0]), run[1..]);
    }
  }

  /** Every race of a run heals. */
  predicate RacesHeal(s: State, run: seq<Step>)
    decreases |run|
  {
    run == [] || ((Races(s, run[0]) ==> Heals(s, run[0])) && RacesHeal(Next(s, run[0]), run[1..]))
  }

  /** Mode and bit go together throughout a run exactly if every race in it heals. */
  lemma {:induction false} CouplingThroughout(s: State, run: seq<Step>)
    requires Consistent(s)
    ensures (forall n :: 0 <= n <= |run| ==> Consistent(Run(s, run[..n]))) <==> RacesHeal(s, run)
    decreases |run|
  {
    hide Consistent, Races, Heals, Next;
    if run == [] {
      assert forall n :: 0 <= n <= |run| ==> run[..n] == [];
    } else {
      var next, rest := Next(s, run[0]), run[1..];
      assert run[..0] == [] && rest[..0] == [];
      forall n | 1 <= n <= |run| ensures Run(s, run[..n]) == Run(next, rest[..n - 1]) {
        assert run[..n][1..] == rest[..n - 1] && run[..n][0] == run[0];
      }
      if Races(s, run[0]) {
        CouplingRaced(s, run[0]);
      } else {
        CouplingStep(s, run[0]);
      }
      if Consistent(next) {
        CouplingThroughout(next, rest);
        forall n | 0 <= n <= |rest| ensures Run(s, run[..n + 1]) == Run(next, rest[..n]) {
          assert run[..n + 1][1..] == rest[..n] && run[..n + 1][0] == run[0];
        }
      } else {
        assert !Consistent(Run(s, run[..1]));
      }
    }
  }

  // ---- The race ---------------------------------------------------------------------------

  const QUIET := Poll(StillRunning, false, -1)

  /**
   * The race is reached from a load: Home Assistant is turned on, the next toggle finds the worker still running
   * at the door, and then the worker fails before the handler's own poll. Whatever that toggle asks for, mode and
   * bit are apart while the rollback runs.
   */
  lemma RaceReached(disk: Option<Saved>, s: State, e: Surroundings, enabled: bool, child: int)
    requires !e.mock && e.saves && e.satellite && e.child > 0 && child > 0
    requires Restart(s.(disk := disk)).voice.mode != HOME_ASSISTANT
    ensures var start := Restart(s.(disk := disk));
            var on, door := HomeAssistant(QUIET, true, e), Polling(QUIET);
            var late := HomeAssistant(Poll(Exited(1), true, child), enabled, e);
            var between := Run(start, [door, on, door]);
            NoRaces(start, [door, on, door]) && Races(between, late) && !Coupled(Next(between, late).voice)
  {
    hide Load;
    StartIsConsistent(disk, s);
    var start := Restart(s.(disk := disk));
    var on, door := HomeAssistant(QUIET, true, e), Polling(QUIET);
    var launched := Next(start, on);
    assert Next(start, door) == start && Next(launched, door) == launched && launched.worker.Forward?;
    RunOfThree(start, door, on, door);
  }

  lemma RunFirst(s: State, a: Step, rest: seq<Step>)
    ensures Run(s, [a] + rest) == Run(Next(s, a), rest)
    ensures NoRaces(s, [a] + rest) <==> !Races(s, a) && NoRaces(Next(s, a), rest)
  {
    hide Next, Races;
    assert ([a] + rest)[1..] == rest;
  }

  lemma RunOfThree(s: State, a: Step, b: Step, c: Step)
    ensures Run(s, [a, b, c]) == Next(Next(Next(s, a), b), c)
    ensures NoRaces(s, [a, b, c]) <==> !Races(s, a) && !Races(Next(s, a), b) && !Races(Next(Next(s, a), b), c)
  {
    hide Next, Races;
    var x, y := Next(s, a), Next(Next(s, a), b);
    assert [a, b, c] == [a] + [b, c] && [b, c] == [b] + [c] && [c] == [c] + [];
    RunFirst(s, a, [b, c]);
    RunFirst(x, b, [c]);
    RunFirst(y, c, []);
  }
}
