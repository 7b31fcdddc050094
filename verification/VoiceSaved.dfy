/** What a restart of the process brings back: over whole runs, what saving the fields would. */
module VoiceSaved {
  import opened VoicePipeline
  import opened VoiceCoupling
  import opened VoiceToggle
  import opened Wrappers

  /** A restart now would read what it would read if the fields had just been saved. */
  predicate Mirrored(s: State) {
    Load(s.disk) == Load(Some(Saved(s.voice, s.otherBits)))
  }

  /** What has been read once reads the same once it is saved. */
  lemma LoadTwice(disk: Option<Saved>)
    ensures var (voice, bits) := Load(disk);
            Load(Some(Saved(voice, bits))) == (voice, bits)
  {
    hide UriValid, TokenValid;
    DefaultsAreTokens();
  }

  /** The saves that a step makes on its own behalf go through; the first one of a request need not. */
  predicate SavesThrough(t: Step) {
    match t
    case Polling(p) => p.saves
    case Pipeline(p, _, e, after) => p.saves && e.savesAgain && after.saves
    case HomeAssistant(p, _, e) => p.saves && e.savesAgain
    case Privacy(_, _, saves) => saves
    case Saving(p, _) => p.saves
    case Reload => true
  }

  lemma ReapMirrored(s: State, p: Poll)
    requires Mirrored(s) && p.saves
    ensures Mirrored(Reap(s, p))
  {
    hide Load;
  }

  lemma LaunchMirrored(s: State, next: Voice, e: Surroundings)
    requires s.worker.Idle? && e.savesAgain
    ensures Mirrored(Launch(s, next, e).0)
  {
    hide Load;
  }

  lemma PipelineMirrored(s: State, body: Option<Update>, mode: string, e: Surroundings, after: Poll)
    requires Mirrored(s) && e.savesAgain && after.saves
    ensures Mirrored(PutPipeline(s, body, mode, e, after).0)
  {
    hide Mirrored, Updated, Launch, Reap, Remembering;
    if s.worker.Idle? && body.Some? {
      var captured := s.(rollbackFailed := false);
      SameMirror(s, captured);
      if Updated(s.voice, body.value).Some? {
        var next := Remembering(mode, Updated(s.voice, body.value).value);
        LaunchMirrored(captured, next, e);
        var launched := Launch(captured, next, e).0;
        ReapMirrored(launched, after);
        PersistMirrored(Reap(launched, after), e.savesAgain);
      }
    }
  }

  lemma SameMirror(s: State, t: State)
    requires s.voice == t.voice && s.disk == t.disk && s.otherBits == t.otherBits
    ensures Mirrored(s) <==> Mirrored(t)
  {
    hide Load;
  }

  lemma PersistMirrored(s: State, saves: bool)
    requires Mirrored(s)
    ensures Mirrored(Persist(s, saves))
  {
    hide Load;
  }

  lemma ToggleMirrored(s: State, enabled: bool, p: Poll, e: Surroundings)
    requires Mirrored(s) && Consistent(s) && !Races(s, HomeAssistant(p, enabled, e)) && p.saves && e.savesAgain
    ensures Mirrored(Toggle(s, enabled, p, e).0)
  {
    hide Load, Launch, Toggled, Reap, Consistent, Races;
    var dirty := Reap(s.(voice := s.voice.(haBit := enabled)), p);
    var restored := dirty.(voice := dirty.voice.(haBit := s.voice.mode == HOME_ASSISTANT));
    ReapMirrored(s, p);
    CleanToggle(s, enabled, p, e);
    if dirty.worker.Idle? {
      LaunchMirrored(restored.(rollbackFailed := false), Toggled(dirty.voice, enabled), e);
    }
  }

  /** Without a race, putting the bit back leaves what the poll alone would have left. */
  lemma CleanToggle(s: State, enabled: bool, p: Poll, e: Surroundings)
    requires Consistent(s) && !Races(s, HomeAssistant(p, enabled, e))
    ensures var dirty := Reap(s.(voice := s.voice.(haBit := enabled)), p);
            dirty.(voice := dirty.voice.(haBit := s.voice.mode == HOME_ASSISTANT)) == Reap(s, p)
  {
  }

  /** One step, whatever it is asked and however its worker ends, as long as no toggle races. */
  lemma MirroredStep(s: State, t: Step)
    requires Mirrored(s) && Consistent(s) && !Races(s, t) && SavesThrough(t)
    ensures Mirrored(Next(s, t))
  {
    hide Load, Reap, PutPipeline, Toggle;
    match t
    case Polling(p) => ReapMirrored(s, p);
    case Pipeline(p, body, e, after) =>
      ReapMirrored(s, p);
      PipelineMirrored(Reap(s, p), body, s.voice.mode, e, after);
    case HomeAssistant(p, enabled, e) => ToggleMirrored(s, enabled, p, e);
    case Privacy(local, valid, saves) =>
    case Saving(p, saves) =>
      ReapMirrored(s, p);
      PersistMirrored(Reap(s, p), saves);
    case Reload => LoadTwice(s.disk);
  }

  /** Over whole runs: however transitions end, a restart brings back what saving the fields would. */
  lemma {:induction false} MirroredRun(s: State, run: seq<Step>)
    requires Mirrored(s) && Consistent(s) && NoRaces(s, run) && forall t :: t in run ==> SavesThrough(t)
    ensures Mirrored(Run(s, run))
    decreases |run|
  {
    hide Mirrored, Consistent, Races, Next, SavesThrough;
    if run != [] {
      assert run[0] in run && forall t :: t in run[1..] ==> t in run;
      MirroredStep(s, run[0]);
      CouplingStep(s, run[0]);
      MirroredRun(Next(s, run[0]), run[1..]);
    }
  }

  // ---- Numbers in range -------------------------------------------------------------------

  predicate Ranged(s: State) {
    InRange(s.voice) && (!s.worker.Idle? ==> InRange(s.worker.before))
  }

  lemma UpdatedInRange(v: Voice, u: Update)
    requires InRange(v) && Updated(v, u).Some?
    ensures InRange(Updated(v, u).value)
  {
    hide UriValid, TokenValid;
  }

  lemma RangedReap(s: State, p: Poll)
    requires Ranged(s)
    ensures Ranged(Reap(s, p))
  {
    hide InRange;
  }

  lemma RangedLaunch(s: State, next: Voice, e: Surroundings)
    requires Ranged(s) && s.worker.Idle? && InRange(next)
    ensures Ranged(Launch(s, next, e).0)
  {
    hide InRange;
  }

  lemma RangedPipeline(s: State, body: Option<Update>, mode: string, e: Surroundings, after: Poll)
    requires Ranged(s)
    ensures Ranged(PutPipeline(s, body, mode, e, after).0)
  {
    hide Updated, Launch, Reap, InRange, Remembering;
    if s.worker.Idle? && body.Some? && Updated(s.voice, body.value).Some? {
      var captured := s.(rollbackFailed := false);
      var next := Remembering(mode, Updated(s.voice, body.value).value);
      UpdatedInRange(s.voice, body.value);
      SameNumbers(mode, Updated(s.voice, body.value).value, false, false);
      RangedLaunch(captured, next, e);
      RangedReap(Launch(captured, next, e).0, after);
    }
  }

  lemma RangedToggle(s: State, enabled: bool, bit: bool, e: Surroundings)
    requires Ranged(s)
    ensures Ranged(PutHomeAssistant(s, enabled, bit, e).0)
  {
    hide Launch, InRange, Toggled;
    SameNumbers("", s.voice, enabled, bit);
    if s.worker.Idle? {
      RangedLaunch(s.(voice := s.voice.(haBit := bit), rollbackFailed := false), Toggled(s.voice, enabled), e);
    }
  }

  lemma SameNumbers(mode: string, v: Voice, enabled: bool, bit: bool)
    requires InRange(v)
    ensures InRange(Remembering(mode, v)) && InRange(Toggled(v, enabled)) && InRange(v.(haBit := bit))
    ensures InRange(v.(localOnly := bit))
  {
  }

  lemma RangedStep(s: State, t: Step)
    requires Ranged(s)
    ensures Ranged(Next(s, t))
  {
    hide InRange, Reap, PutPipeline, PutHomeAssistant, Load;
    match t
    case Polling(p) => RangedReap(s, p);
    case Saving(p, _) => RangedReap(s, p);
    case Pipeline(p, body, e, after) =>
      RangedReap(s, p);
      RangedPipeline(Reap(s, p), body, s.voice.mode, e, after);
    case HomeAssistant(p, enabled, e) =>
      var dirty := s.(voice := s.voice.(haBit := enabled));
      SameNumbers("", s.voice, false, enabled);
      RangedReap(dirty, p);
      RangedToggle(Reap(dirty, p), enabled, s.voice.mode == HOME_ASSISTANT, e);
    case Privacy(local, _, _) => SameNumbers("", s.voice, false, Or(local, s.voice.localOnly));
    case Reload => LoadInRange(s.disk);
  }

  lemma LoadInRange(disk: Option<Saved>)
    ensures InRange(Load(disk).0)
  {
    hide UriValid, TokenValid;
  }

  lemma {:induction false} RangedRun(s: State, run: seq<Step>)
    requires Ranged(s)
    ensures Ranged(Run(s, run))
    decreases |run|
  {
    hide Ranged, Next;
    if run != [] {
      RangedStep(s, run[0]);
      RangedRun(Next(s, run[0]), run[1..]);
    }
  }

  /**
   * From any load on, restarts included: a restart brings back the fields and the other bits, save endpoints that
   * cannot be read back and the name of a mode that is not remembered.
   */
  lemma RestartBringsBack(disk: Option<Saved>, s: State, run: seq<Step>)
    requires var start := Restart(s.(disk := disk)); NoRaces(start, run) && forall t :: t in run ==> SavesThrough(t)
    ensures var now := Run(Restart(s.(disk := disk)), run);
            Restart(now).voice == Reread(now.voice) && Restart(now).otherBits == now.otherBits
  {
    hide Load, Next, NoRaces, InRange, Reread, UriValid, TokenValid;
    var start := Restart(s.(disk := disk));
    LoadTwice(disk);
    LoadInRange(disk);
    StartIsConsistent(disk, s);
    MirroredRun(start, run);
    CouplingRun(start, run);
    RangedRun(start, run);
    var now := Run(start, run);
    ReloadKeeps(now.voice, now.otherBits);
  }
}
