/** What the voice requests accept and answer, in terms of the request and what it meets alone. */
module VoiceAnswers {
  import opened VoicePipeline
  import opened VoiceCoupling
  import opened VoiceLedger
  import opened VoiceToggle
  import opened Wrappers

  // ---- Endpoints --------------------------------------------------------------------------

  predicate AllDigits(s: string) {
    forall k :: 0 <= k < |s| ==> '0' <= s[k] <= '9'
  }

  /** The number that decimal digits write, however large. */
  function Decimal(s: string): nat
    requires AllDigits(s)
  {
    if s == "" then 0 else 10 * Decimal(s[..|s| - 1]) + (s[|s| - 1] as int - '0' as int)
  }

  predicate IsPort(port: string) {
    1 <= |port| <= 7 && AllDigits(port) && 1 <= Decimal(port) <= 65535
  }

  /** The host as it is written: in brackets, or without and then not starting like one. */
  predicate IsAddress(written: string, host: string) {
    || (written == "[" + host + "]" && ']' !in host)
    || (written == host && host != "" && host[0] != '[')
  }

  ghost predicate IsUriOf(uri: string, written: string, host: string, port: string) {
    uri == "tcp://" + (written + (":" + port)) && IsAddress(written, host) && 1 <= |host| <= 255 && IsPort(port)
  }

  /** A URI of a speech server, fewer than 320 characters long. */
  ghost predicate IsUri(uri: string) {
    |uri| < 320 && exists written, host, port :: IsUriOf(uri, written, host, port)
  }

  lemma {:induction false} PortMeans(s: string)
    ensures PortValue(s) == if AllDigits(s) && Decimal(s) <= 65535 then Decimal(s) else -1
    decreases |s|
  {
    if s != "" {
      var front, c := s[..|s| - 1], s[|s| - 1];
      PortMeans(front);
      assert AllDigits(s) <==> AllDigits(front) && '0' <= c <= '9' by { assert s == front + [c]; }
    }
  }

  lemma PortIs(host: string, port: string)
    ensures HostAndPortValid(host, port) <==> 1 <= |host| <= 255 && IsPort(port)
  {
    PortMeans(port);
  }

  lemma {:induction false} FirstOfIs(s: string, c: char, i: nat, k: nat)
    requires i <= k < |s| && s[k] == c && c !in s[i..k]
    ensures FirstOf(s, c, i) == k
    decreases k - i
  {
    if i < k {
      assert s[i..k][0] == s[i] && s[i..k][1..] == s[i + 1..k];
      FirstOfIs(s, c, i + 1, k);
    }
  }

  lemma {:induction false} BeforeFirst(s: string, c: char, i: nat)
    requires i <= |s|
    ensures c !in s[i..FirstOf(s, c, i)]
    decreases |s| - i
  {
    var k := FirstOf(s, c, i);
    if i < k {
      BeforeFirst(s, c, i + 1);
      assert s[i..k] == [s[i]] + s[i + 1..k];
    }
  }

  lemma {:induction false} LastOfIs(s: string, c: char, k: nat)
    requires k < |s| && s[k] == c && c !in s[k + 1..]
    ensures LastOf(s, c) == k
    decreases |s|
  {
    var last := |s| - 1;
    if k < last {
      assert s[k + 1..][last - k - 1] == s[last];
      assert s[..last][k + 1..] == s[k + 1..][..last - k - 1];
      LastOfIs(s[..last], c, k);
    }
  }

  /** The part behind `tcp://`. */
  predicate AddressValid(address: string) {
    if address != "" && address[0] == '[' then
      var end := FirstOf(address, ']', 1);
      end + 1 < |address| && address[end + 1] == ':' && HostAndPortValid(address[1..end], address[end + 2..])
    else
      var colon := LastOf(address, ':');
      colon >= 0 && HostAndPortValid(address[..colon], address[colon + 1..])
  }

  lemma AddressSound(address: string) returns (written: string, host: string, port: string)
    requires AddressValid(address)
    ensures address == written + (":" + port) && IsAddress(written, host) && 1 <= |host| <= 255 && IsPort(port)
  {
    hide HostAndPortValid, IsPort, FirstOf, LastOf;
    if address[0] == '[' {
      var end := FirstOf(address, ']', 1);
      BeforeFirst(address, ']', 1);
      written, host, port := address[..end + 1], address[1..end], address[end + 2..];
      assert written == "[" + host + "]";
    } else {
      var colon := LastOf(address, ':');
      written, host, port := address[..colon], address[..colon], address[colon + 1..];
    }
    PortIs(host, port);
  }

  lemma AddressComplete(address: string, written: string, host: string, port: string)
    requires address == written + (":" + port) && IsAddress(written, host) && 1 <= |host| <= 255 && IsPort(port)
    ensures AddressValid(address)
  {
    hide HostAndPortValid, Decimal, FirstOf, LastOf;
    PortIs(host, port);
    var n := |written|;
    assert address[..n] == written && address[n] == ':' && address[n + 1..] == port;
    if written == "[" + host + "]" && ']' !in host {
      assert address[0] == written[0] && address[1..n - 1] == host && address[n - 1] == written[n - 1];
      FirstOfIs(address, ']', 1, n - 1);
    } else {
      assert address[0] == host[0];
      LastOfIs(address, ':', n);
    }
  }

  /** Exactly these texts are URIs to the code. */
  lemma UriMeans(uri: string)
    ensures UriValid(uri) <==> IsUri(uri)
  {
    hide HostAndPortValid, IsPort, IsAddress, FirstOf, LastOf;
    if UriValid(uri) {
      var written, host, port := AddressSound(uri[6..]);
      assert uri == uri[..6] + uri[6..];
      assert IsUriOf(uri, written, host, port);
    }
    if IsUri(uri) {
      var written, host, port :| IsUriOf(uri, written, host, port);
      assert uri[..6] == "tcp://" && uri[6..] == written + (":" + port);
      AddressComplete(uri[6..], written, host, port);
    }
  }

  // ---- Bodies -----------------------------------------------------------------------------

  predicate IsToken(s: string) {
    && 1 <= |s|
    && forall k :: 0 <= k < |s| ==>
         'A' <= s[k] <= 'Z' || 'a' <= s[k] <= 'z' || '0' <= s[k] <= '9' || s[k] in {'-', '_', '.'}
  }

  predicate InBounds(f: Field<int>, low: int, high: int) {
    f.Absent? || (f.Present? && low <= f.value <= high)
  }

  predicate IsText(f: Field<string>) {
    f.Absent? || f.Present?
  }

  /** A body, on these fields, that the code may not refuse. */
  ghost predicate IsBody(v: Voice, u: Update) {
    && IsText(u.mode) && IsText(u.sttUri) && IsText(u.sttModel) && IsText(u.ttsUri) && IsText(u.ttsVoice)
    && InBounds(u.maxUtterance, 2000, 20000) && InBounds(u.endSilence, 200, 3000) && InBounds(u.vadFloor, 1, 16384)
    && (u.mode.Absent? ==> v.mode in {"local", "custom", "home-assistant"})
    && (u.mode.Present? ==> u.mode.value in {"local", "custom", "home-assistant"})
    && IsToken(Or(u.sttModel, v.sttModel)) && IsToken(Or(u.ttsVoice, v.ttsVoice))
    && (Or(u.mode, v.mode) == "custom" ==> IsUri(Or(u.sttUri, v.sttUri)) && IsUri(Or(u.ttsUri, v.ttsUri)))
  }

  lemma TokenMeans(s: string)
    ensures TokenValid(s) <==> IsToken(s)
  {
  }

  lemma BodyMeans(v: Voice, u: Update)
    ensures Updated(v, u).Some? <==> IsBody(v, u)
  {
    hide UriValid, IsUri, TokenValid, IsToken;
    TokenMeans(Or(u.sttModel, v.sttModel));
    TokenMeans(Or(u.ttsVoice, v.ttsVoice));
    UriMeans(Or(u.sttUri, v.sttUri));
    UriMeans(Or(u.ttsUri, v.ttsUri));
  }

  // ---- Answers ----------------------------------------------------------------------------

  /** The scripts of the mode are there. */
  predicate ScriptsThere(mode: string, e: Surroundings) {
    if mode == "home-assistant" then e.satellite else e.speech
  }

  /** What keeps a saved change from being started: a leftover failure, missing scripts, or a failed fork. */
  function Obstacle(s: State, mode: string, e: Surroundings): Option<Code> {
    if s.result != Ok then Some(s.result)
    else if !ScriptsThere(mode, e) then Some(NotSupported)
    else if e.child < 0 then Some(Io)
    else None
  }

  /**
   * A request on the pipeline behind its poll: 409 exactly while something is outstanding, 400 exactly for a body
   * that is not one, 503 when it cannot be saved, and then what it meets decides.
   */
  lemma PipelineAnswers(s: State, body: Option<Update>, mode: string, e: Surroundings, after: Poll)
    requires s.result != Busy
    ensures var (t, status) := PutPipeline(s, body, mode, e, after);
            && (status == 409 <==> !s.worker.Idle?)
            && (status == 400 <==> s.worker.Idle? && (body.None? || !IsBody(s.voice, body.value)))
            && (s.worker.Idle? && body.Some? && IsBody(s.voice, body.value) ==>
                  var goal := Target(s.voice, mode, body.value).value;
                  && (!e.saves ==> status == 503)
                  && (e.saves && e.mock ==> status == 200 && t.voice == goal && t.worker.Idle?)
                  && (e.saves && !e.mock ==>
                        match Obstacle(s, goal.mode, e)
                        case Some(why) => status == (if why == NotSupported then 501 else 503) && t.voice == s.voice
                        case None =>
                          match after.wait
                          case StillRunning => status == 202 && t.worker == Forward(s.voice) && t.voice == goal
                          case Exited(code) =>
                            if code == 0 then status == 200 && t.worker.Idle? && t.voice == goal
                            else t.voice == s.voice
                                 && status == (if after.saves && after.child >= 0 then 202
                                               else if code == 2 then 501 else 503)
                          case Gone =>
                            t.voice == s.voice && status == (if after.saves && after.child >= 0 then 202 else 503)))
  {
    hide Updated, IsBody, Remembering;
    if body.Some? { BodyMeans(s.voice, body.value); }
  }

  /** The toggle of Home Assistant behind its poll. */
  lemma ToggleOutcome(s: State, enabled: bool, bit: bool, e: Surroundings)
    requires s.result != Busy
    ensures var (t, status) := PutHomeAssistant(s, enabled, bit, e);
            var goal := Toggled(s.voice, enabled);
            var change := enabled != (s.voice.mode == "home-assistant");
            && (status == 409 <==> !s.worker.Idle?)
            && status != 400
            && (s.worker.Idle? && change && enabled && !e.mock && !e.satellite ==> status == 501)
            && (s.worker.Idle? && !e.saves && !(change && enabled && !e.mock && !e.satellite) ==> status == 503)
            && (s.worker.Idle? && e.saves && (!change || e.mock) ==> status == 200 && t.voice == goal)
            && (s.worker.Idle? && e.saves && change && !e.mock && (enabled ==> e.satellite) ==>
                  match Obstacle(s, goal.mode, e)
                  case Some(why) => status == if why == NotSupported then 501 else 503
                  case None => status == 202 && t.worker.Forward? && t.voice == goal)
  {
    hide Toggled;
  }

  /** Turning Home Assistant on and off is about these fields, and the mode goes back to what is remembered. */
  lemma ToggledFields(v: Voice, enabled: bool)
    ensures var n := Toggled(v, enabled);
            && n.haBit == enabled
            && n.(mode := v.mode, previous := v.previous, previousValid := v.previousValid, haBit := v.haBit,
                  localOnly := v.localOnly) == v
            && (enabled ==> n.mode == "home-assistant")
            && (enabled && v.mode in {"local", "custom"} ==> n.previous == v.mode && n.previousValid && !n.localOnly)
            && (!enabled && v.mode == "home-assistant" ==>
                  !n.previousValid && n.mode == if v.previousValid then v.previous else "local")
            && (enabled == (v.mode == "home-assistant") ==> n == v.(haBit := enabled))
  {
  }

  /** Home Assistant selected by a body, rather than by the toggle, is left for the mode from before as well. */
  lemma SelectedReturns(s: State, body: Update, e: Surroundings)
    requires s.worker.Idle? && s.result == Ok && s.voice.mode in {"local", "custom"} && Favourable(e)
    requires body.mode == Present("home-assistant") && IsBody(s.voice, body)
    ensures var selected := Next(s, Pipeline(QUIET, Some(body), e, QUIET));
            var done := Next(selected, Polling(Poll(Exited(0), false, -1)));
            var back := Toggling(done, false, e, false);
            && done.worker.Idle? && done.voice.mode == "home-assistant" && done.voice.haBit
            && back.worker.Idle? && back.voice.mode == s.voice.mode && !back.voice.haBit
  {
    hide IsBody, UriValid, TokenValid;
    BodyMeans(s.voice, body);
  }

  // ---- Loads ------------------------------------------------------------------------------

  /** A device without a saved configuration. */
  lemma FirstStart()
    ensures var (v, bits) := Load(None);
            && v.mode == "local" && !v.haBit && v.localOnly && v.sttUri == "" && v.ttsUri == ""
            && v.sttModel == "whisper-small" && v.ttsVoice == "en_GB-alan-medium"
            && v.maxUtterance == 6000 && v.endSilence == 1000 && v.vadFloor == 16 && bits == 4
  {
  }

  /** What a load takes from a saved configuration, damaged or not: endpoints and models. */
  lemma LoadEndpoints(d: Saved)
    ensures var v, w := Load(Some(d)).0, d.voice;
            && v.sttUri == (if IsUri(w.sttUri) then w.sttUri else "")
            && v.ttsUri == (if IsUri(w.ttsUri) then w.ttsUri else "")
            && v.sttModel == (if IsToken(w.sttModel) then w.sttModel else "whisper-small")
            && v.ttsVoice == (if IsToken(w.ttsVoice) then w.ttsVoice else "en_GB-alan-medium")
  {
    hide UriValid, TokenValid, IsUri, IsToken, MaxUtteranceValid, EndSilenceValid, VadFloorValid, ModeKnown;
    UriMeans(d.voice.sttUri);
    UriMeans(d.voice.ttsUri);
    TokenMeans(d.voice.sttModel);
    TokenMeans(d.voice.ttsVoice);
  }

  /** The numbers, and the bits of other integrations. */
  lemma LoadNumbers(d: Saved)
    ensures var (v, bits) := Load(Some(d));
            var w := d.voice;
            && v.maxUtterance == (if 2000 <= w.maxUtterance <= 20000 then w.maxUtterance else 6000)
            && v.endSilence == (if 200 <= w.endSilence <= 3000 then w.endSilence else 1000)
            && v.vadFloor == (if 1 <= w.vadFloor <= 16384 then w.vadFloor else 16)
            && bits == d.otherBits
  {
    hide UriValid, TokenValid, ModeKnown;
  }

  /** The mode, what goes with it, and the mode that is remembered. */
  lemma LoadModes(d: Saved)
    ensures var (v, bits) := Load(Some(d));
            var w := d.voice;
            && v.mode == (if w.haBit || w.mode == "home-assistant" then "home-assistant"
                          else if w.mode == "custom" then "custom" else "local")
            && v.haBit == (v.mode == "home-assistant") && v.localOnly == (w.localOnly && v.mode != "home-assistant")
            && (w.previous in {"local", "custom"} ==> v.previous == w.previous && v.previousValid)
            && (w.previous !in {"local", "custom"} && v.mode == "home-assistant" && w.mode != "home-assistant" ==>
                  v.previousValid && v.previous == if w.mode == "custom" then "custom" else "local")
            && (w.previous !in {"local", "custom"} && (v.mode != "home-assistant" || w.mode == "home-assistant") ==>
                  !v.previousValid && v.previous == "")
  {
    hide UriValid, TokenValid, MaxUtteranceValid, EndSilenceValid, VadFloorValid;
  }
}
