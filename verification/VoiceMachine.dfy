/** The handlers of `api.c` in place, proved against the steps of `VoicePipeline`; at most one worker at any time. */
module VoiceMachine {
  import opened VoicePipeline
  import VoiceLedger
  import opened Wrappers

  class Machine {
    var voice: Voice
    var otherBits: nat
    var disk: Option<Saved>
    // The statics of the transition.
    var pid: int
    var captured: bool
    var snapshot: Voice
    var rollingBack: bool
    var result: Code
    var rollbackFailed: bool
    /** The children that were forked and not yet collected. */
    ghost var children: set<int>

    ghost predicate Valid()
      reads this
    {
      && captured == (pid > 0) && (rollingBack ==> pid > 0) && result != Busy
      && children == if pid > 0 then {pid} else {}
    }

    /** Between a capture and the end of its request nothing is outstanding. */
    ghost predicate Quiet()
      reads this
    {
      pid <= 0 && !rollingBack && children == {} && result != Busy
    }

    ghost function Abstract(): State
      reads this
    {
      State(voice, otherBits, disk,
            if pid <= 0 then Idle else if rollingBack then Rollback(snapshot) else Forward(snapshot),
            result, rollbackFailed)
    }

    /** A new process on a saved configuration. */
    constructor (disk: Option<Saved>)
      ensures Valid() && forall s: State :: s.disk == disk ==> Abstract() == Restart(s)
    {
      hide UriValid, TokenValid;
      var (v, bits) := Load(disk);
      voice, otherBits, this.disk := v, bits, disk;
      pid, captured, snapshot, rollingBack := -1, false, v, false;
      result, rollbackFailed, children := Ok, false, {};
    }

    /** `persist_configuration` */
    method PersistConfiguration(saves: bool) returns (r: Code)
      modifies this`disk
      ensures Abstract() == Persist(old(Abstract()), saves) && (r == Ok <==> saves)
    {
      if !saves { return Io; }
      disk := Some(Saved(voice, otherBits));
      return Ok;
    }

    /** `voice_transition_restore`: only the voice-owned fields, and only while there is a snapshot. */
    method RestoreSnapshot()
      modifies this`voice
      ensures voice == if captured then snapshot else old(voice)
    {
      if !captured { return; }
      voice := snapshot;
    }

    /** `api_persist_configuration` */
    method SaveConfiguration(p: Poll, saves: bool) returns (r: Code)
      requires Valid() && p.child != 0
      modifies this
      ensures Valid() && Abstract() == Next(old(Abstract()), Saving(p, saves)) && (r == Ok <==> saves)
    {
      hide Reap;
      var _ := ReapWorker(p);
      r := PersistConfiguration(saves);
    }

    /** `voice_pipeline_restart_reap` */
    method ReapWorker(p: Poll) returns (r: Code)
      requires (Valid() || Quiet()) && p.child != 0
      modifies this
      ensures Abstract() == Reap(old(Abstract()), p)
      ensures old(Valid()) ==> Valid()
      ensures old(Quiet()) ==> Quiet() && captured == old(captured) && snapshot == old(snapshot)
      ensures r == if old(pid) > 0 && p.wait.StillRunning? then Busy else result
    {
      if pid <= 0 { return result; }
      if p.wait.StillRunning? { return Busy; }
      children := children - {pid};
      pid := -1;
      if rollingBack {
        if p.wait != Exited(0) { rollbackFailed := true; }
        rollingBack, captured := false, false;
        return result;
      }
      result := ResultOf(p.wait);
      if captured && result != Ok {
        RestoreSnapshot();
        var saved := PersistConfiguration(p.saves);
        if saved != Ok {
          rollbackFailed, captured := true, false;
          return result;
        }
        if p.child < 0 {
          rollbackFailed, captured := true, false;
        } else {
          pid, rollingBack, children := p.child, true, children + {p.child};
        }
      } else {
        captured := false;
      }
      return result;
    }

    /** `apply_voice_pipeline_mode`, with a snapshot captured and nothing outstanding. */
    method ApplyMode(mode: string, e: Surroundings, p: Poll) returns (r: Code)
      requires Quiet() && captured && e.child != 0 && p.child != 0
      modifies this
      ensures voice == old(voice) && otherBits == old(otherBits) && disk == old(disk) && snapshot == old(snapshot)
      ensures captured && !rollingBack && rollbackFailed == old(rollbackFailed)
      ensures r == if old(result) != Ok then old(result) else if !Installed(mode, e) then NotSupported
                   else if e.child < 0 then Io else Busy
      ensures result == Ok
      ensures if r == Busy && old(result) == Ok then pid == e.child && children == {pid} else pid <= 0 && children == {}
    {
      var reaped := ReapWorker(p);
      if pid > 0 { return Busy; }
      if reaped != Ok {
        result := Ok;
        return reaped;
      }
      if mode == HOME_ASSISTANT && !e.satellite { return NotSupported; }
      if mode != HOME_ASSISTANT && !e.speech { return NotSupported; }
      if e.child < 0 { return Io; }
      pid, result, children := e.child, Ok, {e.child};
      return Busy;
    }

    /** `voice_pipeline_update` */
    method UpdateVoice(u: Update) returns (ok: bool)
      modifies this`voice
      ensures ok <==> Updated(old(voice), u).Some?
      ensures voice == if ok then Updated(old(voice), u).value else old(voice)
    {
      hide UriValid, TokenValid;
      if u.mode.Malformed? || u.sttUri.Malformed? || u.sttModel.Malformed?
         || u.ttsUri.Malformed? || u.ttsVoice.Malformed? {
        return false;
      }
      var mode := Or(u.mode, voice.mode);
      var sttUri, sttModel := Or(u.sttUri, voice.sttUri), Or(u.sttModel, voice.sttModel);
      var ttsUri, ttsVoice := Or(u.ttsUri, voice.ttsUri), Or(u.ttsVoice, voice.ttsVoice);
      var maxUtterance, endSilence, vadFloor := voice.maxUtterance, voice.endSilence, voice.vadFloor;
      if u.maxUtterance.Malformed? { return false; }
      if u.maxUtterance.Present? {
        if !MaxUtteranceValid(u.maxUtterance.value) { return false; }
        maxUtterance := u.maxUtterance.value;
      }
      if u.endSilence.Malformed? { return false; }
      if u.endSilence.Present? {
        if !EndSilenceValid(u.endSilence.value) { return false; }
        endSilence := u.endSilence.value;
      }
      if u.vadFloor.Malformed? { return false; }
      if u.vadFloor.Present? {
        if !VadFloorValid(u.vadFloor.value) { return false; }
        vadFloor := u.vadFloor.value;
      }
      if !ModeKnown(mode) { return false; }
      if !TokenValid(sttModel) || !TokenValid(ttsVoice) { return false; }
      if mode == CUSTOM && (!UriValid(sttUri) || !UriValid(ttsUri)) { return false; }
      voice := voice.(maxUtterance := maxUtterance, endSilence := endSilence, vadFloor := vadFloor);
      SelectMode(mode);
      voice := voice.(sttUri := sttUri, sttModel := sttModel, ttsUri := ttsUri, ttsVoice := ttsVoice);
      return true;
    }

    /** A mode and what follows from it: the integration bit, and no local-only promise off the device. */
    method SelectMode(mode: string)
      modifies this`voice
      ensures voice == old(voice).(mode := mode, haBit := mode == HOME_ASSISTANT,
                                   localOnly := old(voice).localOnly && mode != CUSTOM && mode != HOME_ASSISTANT)
    {
      voice := voice.(mode := mode);
      voice := voice.(haBit := mode == HOME_ASSISTANT);
      if mode == CUSTOM {
        voice := voice.(localOnly := false);
      } else if mode == HOME_ASSISTANT {
        voice := voice.(localOnly := false);
      }
    }

    /** The undoing of a refused request: the mode fields one by one, then the whole snapshot. */
    method PutBack(haBit: bool, mode: string, previous: string, previousValid: bool, localOnly: bool)
      modifies this`voice, this`captured
      ensures !captured
      ensures old(captured) ==> voice == snapshot
      ensures !old(captured) ==> voice == old(voice).(haBit := haBit, mode := mode, previous := previous,
                                                      previousValid := previousValid, localOnly := localOnly)
    {
      voice := voice.(haBit := haBit, mode := mode, previous := previous, previousValid := previousValid,
                      localOnly := localOnly);
      RestoreSnapshot();
      captured := false;
    }

    /** The tail both handlers share: apply the saved change, and put everything back if that is refused. */
    method LaunchMode(bit: bool, was: Voice, e: Surroundings, p: Poll) returns (status: nat)
      requires Quiet() && captured && disk == Some(Saved(voice, otherBits)) && e.child != 0 && p.child != 0
      modifies this
      ensures Valid() && snapshot == old(snapshot)
      ensures (Abstract(), status) == Launch(old(Abstract()).(voice := old(snapshot)), old(voice), e)
    {
      var code := Ok;
      if !e.mock { code := ApplyMode(voice.mode, e, p); }
      if code == Busy { return 202; }
      if code != Ok {
        PutBack(bit, was.mode, was.previous, was.previousValid, was.localOnly);
        var _ := PersistConfiguration(e.savesAgain);
        return if code == NotSupported then 501 else 503;
      }
      captured := false;
      return 200;
    }

    /** `handle_voice_pipeline`, PUT. */
    method HandlePipeline(p: Poll, body: Option<Update>, e: Surroundings, after: Poll) returns (status: nat)
      requires Valid() && p.child != 0 && e.child != 0 && after.child != 0
      modifies this
      ensures Valid() && Abstract() == Next(old(Abstract()), Pipeline(p, body, e, after))
      ensures status == PutPipeline(Reap(old(Abstract()), p), body, old(voice.mode), e, after).1
    {
      hide Reap, PutPipeline;
      var was := voice;
      var _ := ReapWorker(p);
      VoiceLedger.PollSettles(old(Abstract()), p);
      if pid > 0 {
        BusyRefuses(Abstract(), body, was.mode, e, after);
        return 409;
      }
      status := PipelineAfterPoll(body, was, e, after);
    }

    /** The rest of `handle_voice_pipeline` once nothing is outstanding. */
    method PipelineAfterPoll(body: Option<Update>, was: Voice, e: Surroundings, after: Poll) returns (status: nat)
      requires Valid() && pid <= 0 && e.child != 0 && after.child != 0 && (result == Ok ==> was == voice)
      modifies this
      ensures Valid() && (Abstract(), status) == PutPipeline(old(Abstract()), body, was.mode, e, after)
    {
      hide Reap, Launch, Updated;
      ghost var s := Abstract();
      if body.None? { return 400; }
      snapshot, captured, rollbackFailed := voice, true, false;
      var ok := SelectVoice(body.value, was.mode);
      if !ok {
        captured := false;
        return 400;
      }
      ghost var next := voice;
      var saved := PersistConfiguration(e.saves);
      if saved != Ok {
        PutBack(was.haBit, was.mode, was.previous, was.previousValid, was.localOnly);
        return 503;
      }
      LaunchIgnoresDisk(s.(rollbackFailed := false), next, e);
      LaunchOutcome(s.(rollbackFailed := false), next, e);
      status := LaunchMode(was.haBit, was, e, after);
      if status == 202 {
        status := AfterLaunch(was, e, after);
      }
    }

    /** The update, and the mode it replaces remembered. */
    method SelectVoice(u: Update, mode: string) returns (ok: bool)
      modifies this`voice
      ensures ok <==> Updated(old(voice), u).Some?
      ensures ok ==> voice == Remembering(mode, Updated(old(voice), u).value)
      ensures !ok ==> voice == old(voice)
    {
      hide Updated;
      UpdatedBit(voice, u);
      ok := UpdateVoice(u);
      if !ok { return; }
      if voice.mode == HOME_ASSISTANT && mode != HOME_ASSISTANT {
        voice := voice.(previous := mode, previousValid := mode == LOCAL || mode == CUSTOM);
      }
      voice := voice.(haBit := voice.mode == HOME_ASSISTANT);
    }

    /** A very short restart may be over by now: as good as accepted, or refused after all. */
    method AfterLaunch(was: Voice, e: Surroundings, after: Poll) returns (status: nat)
      requires Valid() && pid > 0 && !rollingBack && after.child != 0 && result == Ok && was == snapshot
      modifies this
      ensures Valid()
      ensures var polled := Reap(old(Abstract()), after);
              if !polled.worker.Idle? then Abstract() == polled && status == 202
              else if polled.result == Ok then Abstract() == polled && status == 200
              else Abstract() == Persist(polled, e.savesAgain)
                   && status == if polled.result == NotSupported then 501 else 503
    {
      var _ := ReapWorker(after);
      if pid > 0 { return 202; }
      if result == Ok { return 200; }
      PutBack(was.haBit, was.mode, was.previous, was.previousValid, was.localOnly);
      var _ := PersistConfiguration(e.savesAgain);
      return if result == NotSupported then 501 else 503;
    }

    /** The inner handler's bit and `after_integration_change`. */
    method HandleHomeAssistant(p: Poll, enabled: bool, e: Surroundings) returns (status: nat)
      requires Valid() && p.child != 0 && e.child != 0
      modifies this
      ensures Valid() && Abstract() == Next(old(Abstract()), HomeAssistant(p, enabled, e))
      ensures status == Toggle(old(Abstract()), enabled, p, e).1
    {
      hide Reap, Launch;
      voice := voice.(haBit := enabled);
      var was := voice;
      var bit := voice.mode == HOME_ASSISTANT;
      var _ := ReapWorker(p);
      if pid > 0 {
        voice := voice.(haBit := bit);
        return 409;
      }
      status := AfterPoll(enabled, bit, was, e, p);
    }

    /** The rest of `after_integration_change` once nothing is outstanding. */
    method AfterPoll(enabled: bool, bit: bool, was: Voice, e: Surroundings, p: Poll) returns (status: nat)
      requires Valid() && pid <= 0 && p.child != 0 && e.child != 0
      modifies this
      ensures Valid() && (Abstract(), status) == PutHomeAssistant(old(Abstract()), enabled, bit, e)
    {
      hide Reap, Launch, Toggled;
      ghost var s := Abstract();
      snapshot, captured, rollbackFailed := voice.(haBit := bit), true, false;
      var change := ToggleVoice(enabled);
      if change && !e.mock && enabled && !e.satellite {
        PutBack(bit, was.mode, was.previous, was.previousValid, was.localOnly);
        return 501;
      }
      voice := voice.(haBit := enabled);
      var saved := PersistConfiguration(e.saves);
      if saved != Ok {
        PutBack(bit, was.mode, was.previous, was.previousValid, was.localOnly);
        return 503;
      }
      if !change {
        captured := false;
        return 200;
      }
      LaunchIgnoresDisk(s.(voice := snapshot, rollbackFailed := false), voice, e);
      status := LaunchMode(bit, was, e, p);
    }

    /** The mode part of the toggle; the bit follows later. */
    method ToggleVoice(enabled: bool) returns (change: bool)
      modifies this`voice
      ensures change <==> enabled == (old(voice).mode != HOME_ASSISTANT)
      ensures voice.(haBit := enabled) == Toggled(old(voice), enabled)
    {
      if if enabled then voice.mode != HOME_ASSISTANT else voice.mode == HOME_ASSISTANT {
        change := true;
        if enabled {
          voice := voice.(previous := voice.mode, previousValid := voice.mode == LOCAL || voice.mode == CUSTOM,
                          mode := HOME_ASSISTANT, localOnly := false);
        } else {
          voice := voice.(mode := if voice.previousValid then voice.previous else LOCAL, previousValid := false);
        }
      } else {
        change := false;
      }
    }

    /** The `local_only` part of `handle_privacy`. */
    method HandlePrivacy(local: Field<bool>, valid: bool, saves: bool) returns (status: nat)
      requires Valid()
      modifies this`voice, this`disk
      ensures Valid() && Abstract() == Next(old(Abstract()), Privacy(local, valid, saves))
      ensures status == PutPrivacy(old(Abstract()), local, valid, saves).1
    {
      if local.Malformed? { return 400; }
      if local.Present? && local.value && (voice.mode == CUSTOM || voice.mode == HOME_ASSISTANT) { return 409; }
      if !valid { return 400; }
      if local.Present? { voice := voice.(localOnly := local.value); }
      var saved := PersistConfiguration(saves);
      if saved != Ok { return 503; }
      return 200;
    }
  }

  /** The update already keeps the bit in step with the mode. */
  lemma UpdatedBit(v: Voice, u: Update)
    ensures Updated(v, u).Some? ==> Updated(v, u).value.haBit == (Updated(v, u).value.mode == HOME_ASSISTANT)
  {
  }

  lemma LaunchIgnoresDisk(s: State, next: Voice, e: Surroundings)
    requires s.worker.Idle?
    ensures forall d :: Launch(s.(disk := d), next, e) == Launch(s, next, e)
  {
  }

  lemma LaunchOutcome(s: State, next: Voice, e: Surroundings)
    requires s.worker.Idle? && s.result != Busy
    ensures var (t, status) := Launch(s, next, e);
            && (status == 202 <==> !t.worker.Idle?)
            && (status == 202 ==> t.worker == Forward(s.voice) && t.result == Ok && s.result == Ok)
  {
  }

  lemma BusyRefuses(s: State, body: Option<Update>, mode: string, e: Surroundings, after: Poll)
    requires !s.worker.Idle?
    ensures PutPipeline(s, body, mode, e, after) == (s, 409)
  {
  }
}
