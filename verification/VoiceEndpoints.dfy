/**
 * When custom mode runs on endpoints that are URIs. The code looks at endpoints only where a request selects
 * custom mode, so the property fails in one way, which is stated exactly.
 */
module VoiceEndpoints {
  import opened VoicePipeline
  import opened VoiceCoupling
  import opened VoiceToggle
  import opened Wrappers

  predicate UrisValid(v: Voice) {
    UriValid(v.sttUri) && UriValid(v.ttsUri)
  }

  /** The endpoints are in use, or will be once Home Assistant is turned off. */
  predicate InUse(v: Voice) {
    v.mode == CUSTOM || (v.mode == HOME_ASSISTANT && v.previousValid && v.previous == CUSTOM)
  }

  predicate Usable(v: Voice) {
    InUse(v) ==> UrisValid(v)
  }

  predicate AllUsable(s: State) {
    Usable(s.voice) && (!s.worker.Idle? ==> Usable(s.worker.before))
  }

  /** The fields an acceptable body asks for, given the mode shown before its poll. */
  function Asked(s: State, mode: string, body: Option<Update>): Option<Voice> {
    if body.None? || Updated(s.voice, body.value).None? then None
    else Some(Remembering(mode, Updated(s.voice, body.value).value))
  }

  /**
   * A request on the pipeline that asks for Home Assistant mode remembering custom with an endpoint that is no
   * URI, and meets everything that it takes: no transition outstanding, a save that succeeds, and either the mock
   * backend, or no leftover failure, the scripts there, a fork that succeeds and no worker that fails at once.
   */
  predicate LeavesUnusable(s: State, t: Step) {
    && t.Pipeline?
    && var polled := Reap(s, t.poll);
       var asked := Asked(polled, s.voice.mode, t.body);
       && polled.worker.Idle? && asked.Some? && !Usable(asked.value) && t.e.saves
       && (t.e.mock || (polled.result == Ok && Installed(asked.value.mode, t.e) && t.e.child >= 0
                        && (t.after.wait.StillRunning? || ResultOf(t.after.wait) == Ok)))
  }

  lemma ReapUsable(s: State, p: Poll)
    requires AllUsable(s)
    ensures AllUsable(Reap(s, p))
  {
    hide UriValid;
  }

  lemma PipelineUsable(s: State, body: Option<Update>, mode: string, e: Surroundings, after: Poll)
    requires AllUsable(s)
    ensures var (t, status) := PutPipeline(s, body, mode, e, after);
            var asked := Asked(s, mode, body);
            AllUsable(t) <==>
              !(&& s.worker.Idle? && asked.Some? && !Usable(asked.value) && e.saves
                && (e.mock || (s.result == Ok && Installed(asked.value.mode, e) && e.child >= 0
                               && (after.wait.StillRunning? || ResultOf(after.wait) == Ok))))
  {
    hide Updated, Remembering, Usable;
  }

  lemma ToggledUsable(v: Voice, enabled: bool)
    requires Usable(v)
    ensures Usable(Toggled(v, enabled)) && forall bit :: Usable(v.(haBit := bit))
  {
    hide UriValid;
  }

  lemma ToggleUsable(s: State, enabled: bool, p: Poll, e: Surroundings)
    requires AllUsable(s)
    ensures AllUsable(Toggle(s, enabled, p, e).0)
  {
    hide Usable, Toggled;
    ToggledUsable(s.voice, enabled);
    var polled := Reap(s.(voice := s.voice.(haBit := enabled)), p);
    assert AllUsable(polled);
    ToggledUsable(polled.voice, enabled);
  }

  /** Only such a request breaks the property, and every such request does. */
  lemma UsableStep(s: State, t: Step)
    requires AllUsable(s) && !t.Reload?
    ensures AllUsable(Next(s, t)) <==> !LeavesUnusable(s, t)
  {
    hide AllUsable, Reap, PutPipeline, Toggle, Usable, Asked;
    match t
    case Polling(p) => ReapUsable(s, p);
    case Pipeline(p, body, e, after) =>
      ReapUsable(s, p);
      PipelineUsable(Reap(s, p), body, s.voice.mode, e, after);
    case HomeAssistant(p, enabled, e) => ToggleUsable(s, enabled, p, e);
    case Privacy(local, valid, saves) => PrivacyUsable(s, local, valid, saves);
    case Saving(p, saves) =>
      ReapUsable(s, p);
      PersistUsable(Reap(s, p), saves);
  }

  lemma PersistUsable(s: State, saves: bool)
    requires AllUsable(s)
    ensures AllUsable(Persist(s, saves))
  {
    hide Usable;
  }

  lemma PrivacyUsable(s: State, local: Field<bool>, valid: bool, saves: bool)
    requires AllUsable(s)
    ensures AllUsable(PutPrivacy(s, local, valid, saves).0)
  {
    hide UriValid;
  }

  /** Such a request asks for Home Assistant mode: one that asks for custom mode has its endpoints checked. */
  lemma OnlyHomeAssistantUnchecked(s: State, t: Step)
    requires LeavesUnusable(s, t)
    ensures var asked := Asked(Reap(s, t.poll), s.voice.mode, t.body).value;
            asked.mode == HOME_ASSISTANT && asked.previous == CUSTOM && asked.previousValid && !UrisValid(asked)
  {
    hide UriValid, TokenValid, Reap, PutPipeline;
  }

  /** A caller is safe who asks for another mode than Home Assistant, or leaves two URIs behind. */
  lemma SafeBody(s: State, t: Step)
    requires AllUsable(s) && t.Pipeline? && t.body.Some?
    requires var u, v := t.body.value, Reap(s, t.poll).voice;
             || Or(u.mode, v.mode) != HOME_ASSISTANT
             || (UriValid(Or(u.sttUri, v.sttUri)) && UriValid(Or(u.ttsUri, v.ttsUri)))
    ensures AllUsable(Next(s, t))
  {
    hide UriValid, TokenValid, Reap, PutPipeline, AllUsable;
    UsableStep(s, t);
  }

  /** The first such request of a run, if there is one. */
  function FirstBreak(s: State, run: seq<Step>): (k: nat)
    ensures k <= |run|
    decreases |run|
  {
    if run == [] || LeavesUnusable(s, run[0]) then 0 else 1 + FirstBreak(Next(s, run[0]), run[1..])
  }

  /** Within one process the property holds throughout a run exactly up to the first such request. */
  lemma {:induction false} UsableRun(s: State, run: seq<Step>, n: nat)
    requires AllUsable(s) && n <= |run| && n <= FirstBreak(s, run) + 1 && forall t :: t in run ==> !t.Reload?
    ensures AllUsable(Run(s, run[..n])) <==> n <= FirstBreak(s, run)
    decreases |run|
  {
    hide AllUsable, LeavesUnusable, Next;
    if n > 0 {
      UsableStep(s, run[0]);
      assert run[..n][0] == run[0] && run[..n][1..] == run[1..][..n - 1];
      if !LeavesUnusable(s, run[0]) {
        UsableRun(Next(s, run[0]), run[1..], n - 1);
      } else {
        assert run[..1][1..] == [];
      }
    }
  }

  /** What a load makes of it: a configuration that needs endpoints has them exactly if both were saved as URIs. */
  lemma UsableLoad(disk: Option<Saved>, s: State)
    ensures var v := Load(disk).0;
            AllUsable(Restart(s.(disk := disk))) <==> (InUse(v) ==> disk.Some? && UrisValid(disk.value.voice))
  {
    hide TokenValid;
    NoneIsNoUri();
  }

  lemma NoneIsNoUri()
    ensures !UriValid("")
  {
  }

  /** What was left unusable is in use as soon as Home Assistant is turned off. */
  lemma UnusableReturns(s: State, e: Surroundings)
    requires s.worker.Idle? && s.result == Ok && Coupled(s.voice) && Favourable(e)
    requires s.voice.mode == HOME_ASSISTANT && InUse(s.voice)
    ensures var off := Toggling(s, false, e, false);
            && off.worker.Idle? && off.result == Ok && off.voice.mode == CUSTOM
            && (UrisValid(off.voice) <==> UrisValid(s.voice))
  {
    hide UriValid;
  }

  const NOTHING := Update(Absent, Absent, Absent, Absent, Absent, Absent, Absent, Absent)

  /** Such requests exist wherever Home Assistant mode remembers custom: an endpoint "x" is accepted. */
  lemma UncheckedEndpoint(s: State, e: Surroundings)
    requires s.worker.Idle? && s.result == Ok && s.voice.mode == HOME_ASSISTANT && InUse(s.voice) && Favourable(e)
    requires TokenValid(s.voice.sttModel) && TokenValid(s.voice.ttsVoice)
    ensures LeavesUnusable(s, Pipeline(QUIET, Some(NOTHING.(sttUri := Present("x"))), e, QUIET))
  {
    hide TokenValid;
  }
}
