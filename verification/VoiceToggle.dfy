/** Home Assistant turned on and off again, and what a restart of the process keeps. */
module VoiceToggle {
  import opened VoicePipeline
  import opened VoiceCoupling
  import opened Wrappers

  // ---- What a restart keeps ---------------------------------------------------------------

  /** The endpoints and models that a custom pipeline consists of. */
  predicate SameEndpoints(v: Voice, w: Voice) {
    v.sttUri == w.sttUri && v.sttModel == w.sttModel && v.ttsUri == w.ttsUri && v.ttsVoice == w.ttsVoice
  }

  /** What a restart reads back unchanged. */
  predicate Readable(v: Voice) {
    && (v.sttUri == "" || UriValid(v.sttUri)) && (v.ttsUri == "" || UriValid(v.ttsUri))
    && TokenValid(v.sttModel) && TokenValid(v.ttsVoice)
  }

  /** The fields with the endpoints and models as a restart reads them back. */
  function AsRead(v: Voice): Voice {
    v.(sttUri := if UriValid(v.sttUri) then v.sttUri else "",
       sttModel := if TokenValid(v.sttModel) then v.sttModel else STT_MODEL,
       ttsUri := if UriValid(v.ttsUri) then v.ttsUri else "",
       ttsVoice := if TokenValid(v.ttsVoice) then v.ttsVoice else TTS_VOICE)
  }

  lemma AsReadReadable(v: Voice)
    ensures SameEndpoints(AsRead(v), v) <==> Readable(v)
    ensures SameEndpoints(AsRead(AsRead(v)), AsRead(v))
  {
    hide UriValid;
    DefaultsAreTokens();
  }

  lemma DefaultsAreTokens()
    ensures TokenValid(STT_MODEL) && TokenValid(TTS_VOICE)
  {
  }

  predicate InRange(v: Voice) {
    MaxUtteranceValid(v.maxUtterance) && EndSilenceValid(v.endSilence) && VadFloorValid(v.vadFloor)
  }

  predicate Remembers(v: Voice) {
    v.previous == LOCAL || v.previous == CUSTOM
  }

  /**
   * Saving and loading again changes nothing but the endpoints and models that cannot be read back, and whether
   * a mode counts as remembered: that becomes what the text says.
   */
  lemma ReloadKeeps(v: Voice, otherBits: nat)
    requires ModeKnown(v.mode) && Coupled(v) && InRange(v)
    ensures Load(Some(Saved(v, otherBits))) == (Reread(v), otherBits)
    ensures Readable(v) ==> SameEndpoints(Reread(v), v)
  {
    hide UriValid, TokenValid;
  }

  function Reread(v: Voice): Voice {
    AsRead(v).(previousValid := Remembers(v), previous := if Remembers(v) then v.previous else "")
  }

  // ---- The round trip ---------------------------------------------------------------------

  /** Everything a toggle needs to succeed. */
  predicate Favourable(e: Surroundings) {
    !e.mock && e.saves && e.satellite && e.speech && e.child > 0
  }

  /** A toggle on a quiet machine, its worker succeeding, and a restart of the process if asked for. */
  function Toggling(s: State, enabled: bool, e: Surroundings, reload: bool): State {
    var toggled := Next(s, HomeAssistant(QUIET, enabled, e));
    var done := Next(toggled, Polling(Poll(Exited(0), false, -1)));
    if reload then Next(done, Reload) else done
  }

  /** Enabling any number of times, with restarts in between wherever asked for. */
  function Enabling(s: State, e: Surroundings, reloads: seq<bool>): State
    decreases |reloads|
  {
    if reloads == [] then s else Enabling(Toggling(s, true, e, reloads[0]), e, reloads[1..])
  }

  /** The original fields, endpoints as read back once a restart happened. */
  function Home(v: Voice, reloaded: bool): Voice {
    if reloaded then AsRead(v) else v
  }

  /** Home Assistant mode that remembers `home`, in memory and on disk. */
  predicate Away(s: State, home: Voice) {
    && s.worker.Idle? && s.result == Ok && Coupled(s.voice) && s.voice.mode == HOME_ASSISTANT
    && s.voice.previousValid && s.voice.previous == home.mode && SameEndpoints(s.voice, home)
    && s.disk.Some? && s.disk.value.otherBits == s.otherBits
    && var d := s.disk.value.voice;
       d.mode == HOME_ASSISTANT && d.previous == home.mode && SameEndpoints(AsRead(d), AsRead(home))
  }

  predicate AtHome(s: State, home: Voice) {
    && s.worker.Idle? && s.result == Ok && Coupled(s.voice) && s.voice == home
    && (home.mode == LOCAL || home.mode == CUSTOM)
  }

  lemma EnablingOnce(s: State, home: Voice, e: Surroundings, reload: bool)
    requires Favourable(e) && (home.mode == LOCAL || home.mode == CUSTOM) && (Away(s, home) || AtHome(s, home))
    ensures Away(Toggling(s, true, e, reload), Home(home, reload))
    ensures Toggling(s, true, e, reload).otherBits == s.otherBits
  {
    hide TokenValid, UriValid, AsRead;
    var toggled := Next(s, HomeAssistant(QUIET, true, e));
    var done := Next(toggled, Polling(Poll(Exited(0), false, -1)));
    SameReads(done.voice, home);
    assert Away(done, home);
    if reload { AwayReloads(done, home); }
  }

  lemma SameReads(v: Voice, w: Voice)
    ensures SameEndpoints(v, w) ==> SameEndpoints(AsRead(v), AsRead(w))
  {
    hide TokenValid, UriValid;
  }

  lemma AwayReloads(s: State, home: Voice)
    requires Away(s, home) && (home.mode == LOCAL || home.mode == CUSTOM)
    ensures Away(Next(s, Reload), AsRead(home)) && Next(s, Reload).otherBits == s.otherBits
  {
    hide TokenValid, UriValid;
    AsReadReadable(home);
    AsReadReadable(s.disk.value.voice);
  }

  predicate Any(reloads: seq<bool>) {
    exists i :: 0 <= i < |reloads| && reloads[i]
  }

  lemma {:induction false} EnablingStays(s: State, home: Voice, e: Surroundings, reloads: seq<bool>, before: bool)
    requires Favourable(e) && (home.mode == LOCAL || home.mode == CUSTOM) && Away(s, Home(home, before))
    ensures Away(Enabling(s, e, reloads), Home(home, before || Any(reloads)))
    ensures Enabling(s, e, reloads).otherBits == s.otherBits
    decreases |reloads|
  {
    hide Away, Toggling, AsRead;
    if reloads != [] {
      HomeMode(home, before);
      EnablingOnce(s, Home(home, before), e, reloads[0]);
      HomeTwice(Toggling(s, true, e, reloads[0]), home, before, reloads[0]);
      EnablingStays(Toggling(s, true, e, reloads[0]), home, e, reloads[1..], before || reloads[0]);
      AnySplits(reloads);
    }
  }

  lemma AnySplits(reloads: seq<bool>)
    requires reloads != []
    ensures Any(reloads) <==> reloads[0] || Any(reloads[1..])
  {
    assert forall i :: 0 < i < |reloads| ==> reloads[1..][i - 1] == reloads[i];
  }

  lemma HomeTwice(s: State, home: Voice, before: bool, reload: bool)
    requires Away(s, Home(Home(home, before), reload))
    ensures Away(s, Home(home, before || reload))
  {
    hide TokenValid, UriValid;
    AsReadReadable(home);
    AsReadReadable(AsRead(home));
  }

  /** Home Assistant turned off on a machine that remembers `home`. */
  lemma Disabling(s: State, home: Voice, e: Surroundings, reload: bool)
    requires Favourable(e) && (home.mode == LOCAL || home.mode == CUSTOM) && Away(s, home)
    ensures var back := Toggling(s, false, e, reload);
            && back.worker.Idle? && back.voice.mode == home.mode && !back.voice.haBit
            && SameEndpoints(back.voice, Home(home, reload)) && back.otherBits == s.otherBits
  {
    hide TokenValid, UriValid;
    var toggled := Next(s, HomeAssistant(QUIET, false, e));
    var done := Next(toggled, Polling(Poll(Exited(0), false, -1)));
    assert done.voice.mode == home.mode && SameEndpoints(done.voice, home);
    SameReads(done.voice, home);
  }

  lemma EnablingUnfolds(s: State, e: Surroundings, reloads: seq<bool>)
    requires reloads != []
    ensures Enabling(s, e, reloads) == Enabling(Toggling(s, true, e, reloads[0]), e, reloads[1..])
  {
    hide Toggling;
  }

  /**
   * Home Assistant turned on any number of times and then off, workers succeeding, restarts of the process
   * wherever asked for: the original mode is back and no other bit has changed. The endpoints are back exactly
   * if a restart can read them, or there was none.
   */
  lemma ToggleRoundTrip(s: State, e: Surroundings, reloads: seq<bool>, reload: bool)
    requires AtHome(s, s.voice) && reloads != [] && Favourable(e)
    ensures var back := Toggling(Enabling(s, e, reloads), false, e, reload);
            && back.worker.Idle? && back.voice.mode == s.voice.mode && !back.voice.haBit
            && back.otherBits == s.otherBits
            && (SameEndpoints(back.voice, s.voice) <==> Readable(s.voice) || (!Any(reloads) && !reload))
  {
    hide TokenValid, UriValid, Enabling, Toggling, Away, AsRead;
    var first := Toggling(s, true, e, reloads[0]);
    EnablingOnce(s, s.voice, e, reloads[0]);
    EnablingStays(first, s.voice, e, reloads[1..], reloads[0]);
    AnySplits(reloads);
    EnablingUnfolds(s, e, reloads);
    var home := Home(s.voice, Any(reloads));
    HomeMode(s.voice, Any(reloads));
    Disabling(Enabling(s, e, reloads), home, e, reload);
    AsReadReadable(s.voice);
  }

  lemma HomeMode(v: Voice, reloaded: bool)
    ensures Home(v, reloaded).mode == v.mode
  {
  }
}
