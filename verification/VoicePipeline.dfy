/**
 * The voice-pipeline transition machine of `api.c`: what each step does, as functions on the state.
 * A step is a poll of the worker, a request, a save, or a restart of the process. Every request starts with a
 * poll of its own at the door, which is a step before it; the polls of the handlers are part of their steps.
 */
module VoicePipeline {
  import opened Wrappers

  const LOCAL := "local"
  const CUSTOM := "custom"
  const HOME_ASSISTANT := "home-assistant"
  const STT_MODEL := "whisper-small"
  const TTS_VOICE := "en_GB-alan-medium"
  const WYOMING_URI_MAX: nat := 320

  /** A member of a request body: missing, of the wrong kind or too long, or there. */
  datatype Field<T> = Absent | Malformed | Present(value: T)

  datatype Code = Ok | Busy | Io | NotSupported

  /** The voice-owned fields of `struct api_context`; `haBit` is bit 0 of `integrations`. */
  datatype Voice = Voice(
    mode: string, previous: string, previousValid: bool, haBit: bool, localOnly: bool,
    sttUri: string, sttModel: string, ttsUri: string, ttsVoice: string,
    maxUtterance: int, endSilence: int, vadFloor: int)

  /** The one restart worker: none, one for a transition, or one that undoes it. */
  datatype Worker = Idle | Forward(before: Voice) | Rollback(before: Voice)

  /** The saved configuration, as far as it is modelled. */
  datatype Saved = Saved(voice: Voice, otherBits: nat)

  datatype State = State(
    voice: Voice, otherBits: nat, disk: Option<Saved>, worker: Worker, result: Code, rollbackFailed: bool)

  // ---- What the surroundings decide -------------------------------------------------------

  /** What `waitpid` reports of the worker. */
  datatype Wait = StillRunning | Exited(status: nat) | Gone

  /** A poll: the wait, whether the rolled-back configuration could be saved, and the new child (or -1). */
  datatype Poll = Poll(wait: Wait, saves: bool, child: int)

  /** A request: whether its saves succeed, what is installed, and the child of the fork (or -1). */
  datatype Surroundings = Surroundings(mock: bool, saves: bool, savesAgain: bool, satellite: bool, speech: bool,
                                       child: int)

  /** The body of a PUT on the pipeline. */
  datatype Update = Update(
    mode: Field<string>, sttUri: Field<string>, sttModel: Field<string>, ttsUri: Field<string>, ttsVoice: Field<string>,
    maxUtterance: Field<int>, endSilence: Field<int>, vadFloor: Field<int>)

  // ---- Values -----------------------------------------------------------------------------

  predicate TokenByte(c: char) {
    'a' <= c <= 'z' || 'A' <= c <= 'Z' || '0' <= c <= '9' || c == '-' || c == '_' || c == '.'
  }

  /** `valid_pipeline_token` */
  predicate TokenValid(s: string) {
    s != "" && forall i :: 0 <= i < |s| ==> TokenByte(s[i])
  }

  /** The value of a decimal port, or -1 when it is not one or exceeds 65535. */
  function PortValue(s: string): int {
    if s == "" then 0
    else
      var high, c := PortValue(s[..|s| - 1]), s[|s| - 1];
      if high < 0 || c < '0' || c > '9' || high * 10 + (c as int - '0' as int) > 65535 then -1
      else high * 10 + (c as int - '0' as int)
  }

  function FirstOf(s: string, c: char, i: nat): (k: nat)
    requires i <= |s|
    ensures i <= k <= |s| && (k < |s| ==> s[k] == c)
    decreases |s| - i
  {
    if i == |s| || s[i] == c then i else FirstOf(s, c, i + 1)
  }

  function LastOf(s: string, c: char): (k: int)
    ensures -1 <= k < |s| && (k >= 0 ==> s[k] == c)
  {
    if s == "" then -1 else if s[|s| - 1] == c then |s| - 1 else LastOf(s[..|s| - 1], c)
  }

  predicate HostAndPortValid(host: string, port: string) {
    && 0 < |host| < 256 && 0 < |port| < 8 && PortValue(port) > 0
  }

  /** `le_wyoming_uri_valid` */
  predicate UriValid(uri: string) {
    && |uri| >= 6 && uri[..6] == "tcp://" && |uri| < WYOMING_URI_MAX
    && var address := uri[6..];
       if address != "" && address[0] == '[' then
         var end := FirstOf(address, ']', 1);
         end + 1 < |address| && address[end + 1] == ':' && HostAndPortValid(address[1..end], address[end + 2..])
       else
         var colon := LastOf(address, ':');
         colon >= 0 && HostAndPortValid(address[..colon], address[colon + 1..])
  }

  predicate ModeKnown(m: string) {
    m == LOCAL || m == CUSTOM || m == HOME_ASSISTANT
  }

  predicate MaxUtteranceValid(v: int) { 2000 <= v <= 20000 }
  predicate EndSilenceValid(v: int) { 200 <= v <= 3000 }
  predicate VadFloorValid(v: int) { 1 <= v <= 16384 }

  function Or<T>(f: Field<T>, fallback: T): T {
    if f.Present? then f.value else fallback
  }

  // ---- The worker -------------------------------------------------------------------------

  function ResultOf(w: Wait): Code
    requires !w.StillRunning?
  {
    if w == Exited(0) then Ok else if w == Exited(2) then NotSupported else Io
  }

  /** `voice_pipeline_restart_reap` */
  function Reap(s: State, p: Poll): State {
    if s.worker.Idle? || p.wait.StillRunning? then s
    else if s.worker.Rollback? then
      s.(worker := Idle, rollbackFailed := s.rollbackFailed || p.wait != Exited(0))
    else if ResultOf(p.wait).Ok? then
      s.(worker := Idle, result := Ok)
    else
      var undone := s.(voice := s.worker.before, result := ResultOf(p.wait));
      if !p.saves then undone.(worker := Idle, rollbackFailed := true)
      else
        var saved := undone.(disk := Some(Saved(undone.voice, undone.otherBits)));
        if p.child < 0 then saved.(worker := Idle, rollbackFailed := true)
        else saved.(worker := Rollback(s.worker.before))
  }

  // ---- The pipeline request ---------------------------------------------------------------

  /** `voice_pipeline_update`: the new fields, if the body is acceptable. */
  function Updated(v: Voice, u: Update): Option<Voice> {
    var mode := Or(u.mode, v.mode);
    var next := v.(mode := mode, haBit := mode == HOME_ASSISTANT,
                   localOnly := v.localOnly && mode != CUSTOM && mode != HOME_ASSISTANT,
                   sttUri := Or(u.sttUri, v.sttUri), sttModel := Or(u.sttModel, v.sttModel),
                   ttsUri := Or(u.ttsUri, v.ttsUri), ttsVoice := Or(u.ttsVoice, v.ttsVoice),
                   maxUtterance := Or(u.maxUtterance, v.maxUtterance),
                   endSilence := Or(u.endSilence, v.endSilence), vadFloor := Or(u.vadFloor, v.vadFloor));
    if u.mode.Malformed? || u.sttUri.Malformed? || u.sttModel.Malformed? || u.ttsUri.Malformed? || u.ttsVoice.Malformed?
       || u.maxUtterance.Malformed? || u.endSilence.Malformed? || u.vadFloor.Malformed?
       || (u.maxUtterance.Present? && !MaxUtteranceValid(u.maxUtterance.value))
       || (u.endSilence.Present? && !EndSilenceValid(u.endSilence.value))
       || (u.vadFloor.Present? && !VadFloorValid(u.vadFloor.value))
       || !ModeKnown(mode) || !TokenValid(next.sttModel) || !TokenValid(next.ttsVoice)
       || (mode == CUSTOM && (!UriValid(next.sttUri) || !UriValid(next.ttsUri)))
    then None
    else Some(next)
  }

  /** A direct selection of Home Assistant remembers the mode it replaces. */
  function Remembering(mode: string, next: Voice): Voice {
    if next.mode == HOME_ASSISTANT && mode != HOME_ASSISTANT
    then next.(previous := mode, previousValid := mode == LOCAL || mode == CUSTOM)
    else next
  }

  predicate Installed(mode: string, e: Surroundings) {
    if mode == HOME_ASSISTANT then e.satellite else e.speech
  }

  function Persist(s: State, saves: bool): State {
    if saves then s.(disk := Some(Saved(s.voice, s.otherBits))) else s
  }

  /**
   * The rest of an accepted change once `next` is saved: `apply_voice_pipeline_mode`, and what its caller
   * does with the answer. A leftover failure is reported instead of forking, and is then used up.
   */
  function Launch(s: State, next: Voice, e: Surroundings): (r: (State, nat))
    requires s.worker.Idle?
  {
    var saved := s.(voice := next, disk := Some(Saved(next, s.otherBits)));
    var refused := Persist(s.(disk := saved.disk), e.savesAgain);
    if e.mock then (saved, 200)
    else if s.result != Ok then (refused.(result := Ok), if s.result == NotSupported then 501 else 503)
    else if !Installed(next.mode, e) then (refused, 501)
    else if e.child < 0 then (refused, 503)
    else (saved.(worker := Forward(s.voice), result := Ok), 202)
  }

  /**
   * `handle_voice_pipeline`, PUT, behind the poll that starts it. `mode` is the mode from before that poll,
   * which the code takes first; `None` is a missing body.
   */
  function PutPipeline(s: State, body: Option<Update>, mode: string, e: Surroundings, after: Poll): (r: (State, nat)) {
    if !s.worker.Idle? then (s, 409)
    else if body.None? then (s, 400)
    else
      var captured := s.(rollbackFailed := false);
      var next := Updated(s.voice, body.value);
      if next.None? then (captured, 400)
      else if !e.saves then (captured, 503)
      else
        var (launched, status) := Launch(captured, Remembering(mode, next.value), e);
        if launched.worker.Idle? then (launched, status)
        else
          // A very short restart may be over by now.
          var polled := Reap(launched, after);
          if !polled.worker.Idle? then (polled, 202)
          else if polled.result == Ok then (polled, 200)
          else (Persist(polled, e.savesAgain), if polled.result == NotSupported then 501 else 503)
  }

  // ---- The integration toggle -------------------------------------------------------------

  /** What turning Home Assistant on or off makes of the fields. */
  function Toggled(v: Voice, enabled: bool): Voice {
    if enabled && v.mode != HOME_ASSISTANT then
      v.(previous := v.mode, previousValid := v.mode == LOCAL || v.mode == CUSTOM,
         mode := HOME_ASSISTANT, localOnly := false, haBit := true)
    else if !enabled && v.mode == HOME_ASSISTANT then
      v.(mode := if v.previousValid then v.previous else LOCAL, previousValid := false, haBit := false)
    else
      v.(haBit := enabled)
  }

  /**
   * `after_integration_change` on the polled state `s`. `bit` is the integration bit as the mode had it
   * before that poll: the code takes it first, and it is what a refusal puts back.
   */
  function PutHomeAssistant(s: State, enabled: bool, bit: bool, e: Surroundings): (r: (State, nat)) {
    var restored := s.(voice := s.voice.(haBit := bit));
    if !s.worker.Idle? then (restored, 409)
    else
      var captured := restored.(rollbackFailed := false);
      var next := Toggled(s.voice, enabled);
      var change := enabled == (s.voice.mode != HOME_ASSISTANT);
      if change && !e.mock && enabled && !e.satellite then (captured, 501)
      else if !e.saves then (captured, 503)
      else if change then Launch(captured, next, e)
      else (captured.(voice := next, disk := Some(Saved(next, s.otherBits))), 200)
  }

  /** The whole request: the inner handler's bit, the poll, and what follows it. */
  function Toggle(s: State, enabled: bool, p: Poll, e: Surroundings): (r: (State, nat)) {
    PutHomeAssistant(Reap(s.(voice := s.voice.(haBit := enabled)), p), enabled, s.voice.mode == HOME_ASSISTANT, e)
  }

  // ---- Privacy and restarts ---------------------------------------------------------------

  /** The `local_only` part of `handle_privacy`; `valid` is whether the other members are. */
  function PutPrivacy(s: State, local: Field<bool>, valid: bool, saves: bool): (r: (State, nat)) {
    if local.Malformed? then (s, 400)
    else if local == Present(true) && (s.voice.mode == CUSTOM || s.voice.mode == HOME_ASSISTANT) then (s, 409)
    else if !valid then (s, 400)
    else
      var next := s.(voice := s.voice.(localOnly := Or(local, s.voice.localOnly)));
      (Persist(next, saves), if saves then 200 else 503)
  }

  const DEFAULTS := Voice(LOCAL, "", false, false, true, "", STT_MODEL, "", TTS_VOICE, 6000, 1000, 16)

  /** `api_init` and `ensure_voice_pipeline_config` on a saved configuration. */
  function Load(disk: Option<Saved>): (Voice, nat) {
    if disk.None? then (DEFAULTS, 4)
    else
      var d := disk.value.voice;
      var known := d.previous == LOCAL || d.previous == CUSTOM;
      var v := Voice(
        if ModeKnown(d.mode) then d.mode else LOCAL,
        if known then d.previous else "", known, d.haBit, d.localOnly,
        if UriValid(d.sttUri) then d.sttUri else "", if TokenValid(d.sttModel) then d.sttModel else STT_MODEL,
        if UriValid(d.ttsUri) then d.ttsUri else "", if TokenValid(d.ttsVoice) then d.ttsVoice else TTS_VOICE,
        if MaxUtteranceValid(d.maxUtterance) then d.maxUtterance else DEFAULTS.maxUtterance,
        if EndSilenceValid(d.endSilence) then d.endSilence else DEFAULTS.endSilence,
        if VadFloorValid(d.vadFloor) then d.vadFloor else DEFAULTS.vadFloor);
      var adopted := if v.mode != HOME_ASSISTANT && !v.previousValid then v.(previous := v.mode, previousValid := true)
                     else v;
      (if v.haBit || v.mode == HOME_ASSISTANT then adopted.(mode := HOME_ASSISTANT, haBit := true, localOnly := false)
       else v,
       disk.value.otherBits)
  }

  function Restart(s: State): State {
    var (voice, otherBits) := Load(s.disk);
    State(voice, otherBits, s.disk, Idle, Ok, false)
  }

  // ---- Steps and runs ---------------------------------------------------------------------

  datatype Step =
    | Polling(poll: Poll)
    | Pipeline(poll: Poll, body: Option<Update>, e: Surroundings, after: Poll)
    | HomeAssistant(poll: Poll, enabled: bool, e: Surroundings)
    | Privacy(local: Field<bool>, valid: bool, saves: bool)
    | Saving(poll: Poll, saves: bool)
    | Reload

  function Next(s: State, t: Step): State {
    match t
    case Polling(p) => Reap(s, p)
    case Pipeline(p, body, e, after) => PutPipeline(Reap(s, p), body, s.voice.mode, e, after).0
    case HomeAssistant(p, enabled, e) => Toggle(s, enabled, p, e).0
    case Privacy(local, valid, saves) => PutPrivacy(s, local, valid, saves).0
    case Saving(p, saves) => Persist(Reap(s, p), saves)
    case Reload => Restart(s)
  }

  function Run(s: State, run: seq<Step>): State
    decreases |run|
  {
    if run == [] then s else Run(Next(s, run[0]), run[1..])
  }
}
