/**
 * Transitions of the voice machine are atomic: over whole runs the voice fields are what a ledger kept from
 * the answers of the API and the exits of the workers says, and a leftover failure is reported once.
 */
module VoiceLedger {
  import opened VoicePipeline
  import opened VoiceCoupling
  import opened Wrappers

  // ---- One poll or request ----------------------------------------------------------------

  /** A poll accepts the outstanding transition, undoes exactly its fields, or leaves it outstanding. */
  lemma PollSettles(s: State, p: Poll)
    ensures var t := Reap(s, p);
            && t.otherBits == s.otherBits
            && (t.worker.Forward? ==> t == s)
            && (s.worker.Forward? && !t.worker.Forward? && t.result == Ok ==>
                  t.worker.Idle? && t.voice == s.voice && t.disk == s.disk)
            && (s.worker.Forward? && !t.worker.Forward? && t.result != Ok ==>
                  t.voice == s.worker.before && (t.worker.Idle? ==> t.rollbackFailed))
            && (!s.worker.Forward? ==> t.voice == s.voice && t.result == s.result && t.disk == s.disk)
            && (t.worker.Idle? && t.result == Ok ==> t.voice == s.voice)
  {
  }

  /**
   * A request on the pipeline forks only when nothing is outstanding and no failure is left over; accepted
   * with 200 or 202, refused with everything as it was accepted before.
   */
  lemma PipelineSettles(s: State, body: Option<Update>, mode: string, e: Surroundings, after: Poll)
    ensures var (t, status) := PutPipeline(s, body, mode, e, after);
            && t.otherBits == s.otherBits
            && (!s.worker.Idle? ==> t == s && status == 409)
            && (s.worker.Idle? && status >= 400 ==> t.worker.Idle? && t.voice == s.voice)
            && (status == 200 ==> t.worker.Idle? && body.Some? && Some(t.voice) == Target(s.voice, mode, body.value))
            && (status == 202 ==> !t.worker.Idle? && t.worker.before == s.voice && s.result == Ok && body.Some?)
            && (status == 202 && t.worker.Forward? ==>
                  Some(t.voice) == Target(s.voice, mode, body.value) && t.result == Ok)
            && (status == 202 && t.worker.Rollback? ==> t.voice == s.voice && t.result != Ok)
            && (status == 200 || status >= 400 || status == 202)
  {
  }

  /** What an acceptable body makes of the fields, with the mode that Home Assistant replaces remembered. */
  function Target(v: Voice, mode: string, u: Update): Option<Voice> {
    match Updated(v, u)
    case None => None
    case Some(next) => Some(Remembering(mode, next))
  }

  /** What an accepted body says goes, and what it leaves out stays; the mode decides bit and, partly, `local_only`. */
  lemma UpdatedFields(v: Voice, u: Update)
    requires Updated(v, u).Some?
    ensures var n := Updated(v, u).value;
            && (if u.mode == Absent then n.mode == v.mode else u.mode == Present(n.mode))
            && (if u.sttUri == Absent then n.sttUri == v.sttUri else u.sttUri == Present(n.sttUri))
            && (if u.sttModel == Absent then n.sttModel == v.sttModel else u.sttModel == Present(n.sttModel))
            && (if u.ttsUri == Absent then n.ttsUri == v.ttsUri else u.ttsUri == Present(n.ttsUri))
            && (if u.ttsVoice == Absent then n.ttsVoice == v.ttsVoice else u.ttsVoice == Present(n.ttsVoice))
            && (if u.maxUtterance == Absent then n.maxUtterance == v.maxUtterance
                else u.maxUtterance == Present(n.maxUtterance))
            && (if u.endSilence == Absent then n.endSilence == v.endSilence else u.endSilence == Present(n.endSilence))
            && (if u.vadFloor == Absent then n.vadFloor == v.vadFloor else u.vadFloor == Present(n.vadFloor))
            && n.previous == v.previous && n.previousValid == v.previousValid
            && (n.localOnly <==> v.localOnly && n.mode == LOCAL)
            && (n.mode == CUSTOM ==> UriValid(n.sttUri) && UriValid(n.ttsUri))
  {
    hide UriValid, TokenValid;
  }

  /** The same for the toggle; a refusal leaves all but the bit, and that at what the mode said before the poll. */
  lemma ToggleSettles(s: State, enabled: bool, bit: bool, e: Surroundings)
    ensures var (t, status) := PutHomeAssistant(s, enabled, bit, e);
            && t.otherBits == s.otherBits
            && (!s.worker.Idle? ==> t == s.(voice := s.voice.(haBit := bit)) && status == 409)
            && (s.worker.Idle? && status >= 400 ==> t.worker.Idle? && t.voice == s.voice.(haBit := bit))
            && (status == 200 ==> t.worker.Idle? && t.voice == Toggled(s.voice, enabled))
            && (status == 202 ==> t.worker == Forward(s.voice.(haBit := bit)) && t.voice == Toggled(s.voice, enabled))
            && (status == 202 ==> s.result == Ok && t.result == Ok)
            && (status == 200 || status >= 400 || status == 202)
  {
  }

  // ---- The ledger -------------------------------------------------------------------------

  /** What has been accepted for good, and what will be if the outstanding worker succeeds. */
  datatype Ledger = Ledger(settled: Voice, pending: Option<Voice>)

  /** What the outside learns of a step: nothing, a status, or the fields a new process reports. */
  datatype Answer = Silent | Status(code: nat) | Loaded(voice: Voice)

  function AnswerTo(s: State, t: Step): Answer {
    match t
    case Polling(_) => Silent
    case Saving(_, _) => Silent
    case Pipeline(p, body, e, after) => Status(PutPipeline(Reap(s, p), body, s.voice.mode, e, after).1)
    case HomeAssistant(p, enabled, e) => Status(Toggle(s, enabled, p, e).1)
    case Privacy(local, valid, saves) => Status(PutPrivacy(s, local, valid, saves).1)
    case Reload => Loaded(Load(s.disk).0)
  }

  /** The fields as last accepted: during a transition, what it would be undone to. */
  function Settled(s: State): Voice {
    if s.worker.Forward? then s.worker.before else s.voice
  }

  function LedgerOf(s: State): Ledger {
    Ledger(Settled(s), if s.worker.Forward? then Some(s.voice) else None)
  }

  function Current(l: Ledger): Voice {
    if l.pending.Some? then l.pending.value else l.settled
  }

  /** A worker's exit settles its transition one way or the other. */
  function Collected(l: Ledger, w: Wait): Ledger {
    if l.pending.None? || w.StillRunning? then l
    else Ledger(if ResultOf(w).Ok? then l.pending.value else l.settled, None)
  }

  /** An accepted change is good at once, or pending on its worker; a refused one is nothing. */
  function Answered(l: Ledger, code: nat, target: Option<Voice>, after: Wait): Ledger {
    if target.None? then l
    else if code == 200 then Ledger(target.value, None)
    else if code == 202 then Collected(Ledger(l.settled, target), after)
    else l
  }

  /** `local_only` changes what is pending, or what is settled when nothing is, even if the save then fails. */
  function WithPrivacy(l: Ledger, code: nat, local: Field<bool>): Ledger {
    if !local.Present? || (code != 200 && code != 503) then l
    else if l.pending.Some? then l.(pending := Some(l.pending.value.(localOnly := local.value)))
    else l.(settled := l.settled.(localOnly := local.value))
  }

  /** The ledger after a step, from its request, its answer and the exits it collected alone. */
  function Book(l: Ledger, t: Step, a: Answer): Ledger {
    match t
    case Polling(p) => Collected(l, p.wait)
    case Saving(p, _) => Collected(l, p.wait)
    case Pipeline(p, body, _, after) =>
      var polled := Collected(l, p.wait);
      if !a.Status? || body.None? then polled
      else Answered(polled, a.code, Target(polled.settled, Current(l).mode, body.value), after.wait)
    case HomeAssistant(p, enabled, _) =>
      var polled := Collected(l, p.wait);
      if !a.Status? then polled
      else Answered(polled, a.code, Some(Toggled(polled.settled, enabled)), StillRunning)
    case Privacy(local, _, _) => if a.Status? then WithPrivacy(l, a.code, local) else l
    case Reload => if a.Loaded? then Ledger(a.voice, None) else l
  }

  function Answers(s: State, run: seq<Step>): (answers: seq<Answer>)
    ensures |answers| == |run|
    decreases |run|
  {
    if run == [] then [] else [AnswerTo(s, run[0])] + Answers(Next(s, run[0]), run[1..])
  }

  function BookAll(l: Ledger, run: seq<Step>, answers: seq<Answer>): Ledger
    requires |run| == |answers|
    decreases |run|
  {
    if run == [] then l else BookAll(Book(l, run[0], answers[0]), run[1..], answers[1..])
  }

  lemma PollBooked(s: State, p: Poll)
    ensures LedgerOf(Reap(s, p)) == Collected(LedgerOf(s), p.wait)
  {
  }

  lemma PipelineBooked(s: State, body: Option<Update>, mode: string, e: Surroundings, after: Poll)
    ensures var (t, status) := PutPipeline(s, body, mode, e, after);
            LedgerOf(t) == if body.None? then LedgerOf(s)
                           else Answered(LedgerOf(s), status, Target(s.voice, mode, body.value), after.wait)
  {
    hide Updated;
  }

  lemma ToggleBooked(s: State, enabled: bool, bit: bool, e: Surroundings)
    ensures var (t, status) := PutHomeAssistant(s, enabled, bit, e);
            var clean := s.(voice := s.voice.(haBit := bit));
            LedgerOf(t) == Answered(LedgerOf(clean), status, Some(Toggled(clean.voice, enabled)), StillRunning)
            && t.otherBits == s.otherBits
  {
  }

  /** Without a race the bit that goes with the mode is the one the polled fields have anyway. */
  lemma CleanPoll(s: State, enabled: bool, p: Poll)
    requires Consistent(s) && !(s.worker.Forward? && !p.wait.StillRunning? && ResultOf(p.wait) != Ok
                                && (s.worker.before.mode == HOME_ASSISTANT) != (s.voice.mode == HOME_ASSISTANT))
    ensures var dirty := Reap(s.(voice := s.voice.(haBit := enabled)), p);
            var clean := dirty.(voice := dirty.voice.(haBit := s.voice.mode == HOME_ASSISTANT));
            LedgerOf(clean) == LedgerOf(Reap(s, p)) && clean.voice == Reap(s, p).voice && clean.otherBits == s.otherBits
            && (clean.worker.Forward? || clean.voice == Settled(clean))
  {
  }

  /** While a worker is outstanding the toggle is refused, so its target does not matter. */
  lemma ToggleAnswers(s: State, t: Step)
    requires t.HomeAssistant?
    ensures Toggle(s, t.enabled, t.poll, t.e).1 == 200 || Toggle(s, t.enabled, t.poll, t.e).1 == 202 ==>
      !Reap(s.(voice := s.voice.(haBit := t.enabled)), t.poll).worker.Forward?
  {
  }

  lemma PipelineStepBooked(s: State, t: Step)
    requires t.Pipeline?
    ensures LedgerOf(Next(s, t)) == Book(LedgerOf(s), t, AnswerTo(s, t))
  {
    hide PutPipeline, Target;
    var polled := Reap(s, t.poll);
    PollBooked(s, t.poll);
    PipelineBooked(polled, t.body, s.voice.mode, t.e, t.after);
    PipelineSettles(polled, t.body, s.voice.mode, t.e, t.after);
  }

  /**
   * One step, of any kind and with any outcome: the fields are what the ledger says, and no other field of the
   * context has changed. Only a toggle that races is left out, which `RacedStep` covers.
   */
  lemma StepBooked(s: State, t: Step)
    requires Consistent(s) && !Races(s, t)
    ensures LedgerOf(Next(s, t)) == Book(LedgerOf(s), t, AnswerTo(s, t))
    ensures !t.Reload? ==> Next(s, t).otherBits == s.otherBits
  {
    hide PutPipeline, PutHomeAssistant, Load;
    match t
    case Polling(p) => PollBooked(s, p);
    case Pipeline(p, body, e, after) =>
      PipelineSettles(Reap(s, p), body, s.voice.mode, e, after);
      PipelineStepBooked(s, t);
      PollSettles(s, p);
    case HomeAssistant(p, enabled, e) =>
      PollBooked(s, p);
      CleanPoll(s, enabled, p);
      ToggleBooked(Reap(s.(voice := s.voice.(haBit := enabled)), p), enabled, s.voice.mode == HOME_ASSISTANT, e);
      ToggleAnswers(s, t);
    case Privacy(local, valid, saves) =>
    case Saving(p, saves) => PollBooked(s, p);
    case Reload =>
  }

  /** A racing toggle, too, leaves all fields as the ledger says, save the integration bit. */
  lemma RacedStep(s: State, t: Step, bit: bool)
    requires Consistent(s) && Races(s, t)
    ensures var l := Book(LedgerOf(s), t, AnswerTo(s, t));
            && l.pending.None? && !Next(s, t).worker.Forward?
            && Next(s, t).voice.(haBit := bit) == l.settled.(haBit := bit) && Next(s, t).otherBits == s.otherBits
  {
    hide PutHomeAssistant, Consistent;
    var polled := Reap(s.(voice := s.voice.(haBit := t.enabled)), t.poll);
    ToggleSettles(polled, t.enabled, s.voice.mode == HOME_ASSISTANT, t.e);
  }

  // ---- Races included ---------------------------------------------------------------------

  /** A ledger without the integration bits in it. */
  function NoBit(l: Ledger): Ledger {
    Ledger(l.settled.(haBit := false),
           if l.pending.None? then None else Some(l.pending.value.(haBit := false)))
  }

  /** The bit that the toggle writes first has no part in what its poll does to the other fields. */
  lemma DirtyPoll(s: State, enabled: bool, bit: bool, p: Poll)
    ensures var dirty := Reap(s.(voice := s.voice.(haBit := enabled)), p);
            var clean := dirty.(voice := dirty.voice.(haBit := bit));
            NoBit(LedgerOf(clean)) == NoBit(Collected(LedgerOf(s), p.wait))
  {
    hide Reap;
    var flipped := s.(voice := s.voice.(haBit := enabled));
    PollBooked(flipped, p);
    assert NoBit(LedgerOf(flipped)) == NoBit(LedgerOf(s));
  }

  /** An answer books the same fields into ledgers that differ in the bit alone. */
  lemma AnsweredButBit(l: Ledger, m: Ledger, code: nat, u: Option<Voice>, v: Option<Voice>, w: Wait)
    requires NoBit(l) == NoBit(m) && NoBit(Ledger(l.settled, u)) == NoBit(Ledger(m.settled, v))
    ensures NoBit(Answered(l, code, u, w)) == NoBit(Answered(m, code, v, w))
  {
  }

  lemma TargetButBit(v: Voice, w: Voice, mode: string, u: Update)
    requires v.(haBit := false) == w.(haBit := false)
    ensures Target(v, mode, u) == Target(w, mode, u)
  {
    hide UriValid, TokenValid;
  }

  lemma BookButBit(l: Ledger, m: Ledger, t: Step, a: Answer)
    requires NoBit(l) == NoBit(m)
    ensures NoBit(Book(l, t, a)) == NoBit(Book(m, t, a))
  {
    hide Answered, Toggled, Target;
    match t
    case Pipeline(p, body, _, after) =>
      var x, y := Collected(l, p.wait), Collected(m, p.wait);
      if a.Status? && body.Some? {
        TargetButBit(x.settled, y.settled, Current(l).mode, body.value);
        var target := Target(x.settled, Current(l).mode, body.value);
        AnsweredButBit(x, y, a.code, target, target, after.wait);
      }
    case HomeAssistant(p, enabled, _) =>
      var x, y := Collected(l, p.wait), Collected(m, p.wait);
      ToggledButBit(x.settled, y.settled, enabled);
      if a.Status? {
        var target := Some(Toggled(x.settled, enabled));
        AnsweredButBit(x, y, a.code, target, target, StillRunning);
      }
    case _ =>
  }

  lemma ToggledButBit(v: Voice, w: Voice, enabled: bool)
    requires v.(haBit := false) == w.(haBit := false)
    ensures Toggled(v, enabled) == Toggled(w, enabled)
  {
  }

  lemma {:induction false} BookAllButBit(l: Ledger, m: Ledger, run: seq<Step>, answers: seq<Answer>)
    requires NoBit(l) == NoBit(m) && |run| == |answers|
    ensures NoBit(BookAll(l, run, answers)) == NoBit(BookAll(m, run, answers))
    decreases |run|
  {
    hide NoBit, Book;
    if run != [] {
      BookButBit(l, m, run[0], answers[0]);
      BookAllButBit(Book(l, run[0], answers[0]), Book(m, run[0], answers[0]), run[1..], answers[1..]);
    }
  }

  /** An answer to the toggle books the same, from the fields as polled and from the ledger. */
  lemma ToggleTarget(clean: State, m: Ledger, code: nat, enabled: bool)
    requires NoBit(LedgerOf(clean)) == NoBit(m) && (code == 200 || code == 202 ==> !clean.worker.Forward?)
    ensures NoBit(Answered(LedgerOf(clean), code, Some(Toggled(clean.voice, enabled)), StillRunning))
         == NoBit(Answered(m, code, Some(Toggled(m.settled, enabled)), StillRunning))
  {
    hide Toggled;
    if code == 200 || code == 202 {
      ToggledButBit(clean.voice, m.settled, enabled);
    }
  }

  /** One step from any state, a racing toggle included: only the bit may differ from the ledger. */
  lemma StepBookedButBit(s: State, t: Step)
    ensures NoBit(LedgerOf(Next(s, t))) == NoBit(Book(LedgerOf(s), t, AnswerTo(s, t)))
  {
    hide PutPipeline, PutHomeAssistant, Load, Toggled, Answered;
    match t
    case Polling(p) => PollBooked(s, p);
    case Pipeline(_, _, _, _) => PipelineStepBooked(s, t);
    case HomeAssistant(p, enabled, e) =>
      var bit := s.voice.mode == HOME_ASSISTANT;
      var dirty := Reap(s.(voice := s.voice.(haBit := enabled)), p);
      var clean := dirty.(voice := dirty.voice.(haBit := bit));
      var code := Toggle(s, enabled, p, e).1;
      DirtyPoll(s, enabled, bit, p);
      ToggleBooked(dirty, enabled, bit, e);
      ToggleAnswers(s, t);
      ToggleTarget(clean, Collected(LedgerOf(s), p.wait), code, enabled);
    case Privacy(local, valid, saves) =>
    case Saving(p, saves) => PollBooked(s, p);
    case Reload =>
  }

  // ---- Whole runs -------------------------------------------------------------------------

  /** The integration bits that are not voice-owned: as loaded, and as saved. */
  predicate BitsKept(s: State, bits: nat) {
    s.otherBits == bits && bits == if s.disk.Some? then s.disk.value.otherBits else 4
  }

  lemma BitsReap(s: State, p: Poll, bits: nat)
    requires BitsKept(s, bits)
    ensures BitsKept(Reap(s, p), bits)
  {
  }

  lemma BitsLaunch(s: State, next: Voice, e: Surroundings, bits: nat)
    requires BitsKept(s, bits) && s.worker.Idle?
    ensures BitsKept(Launch(s, next, e).0, bits)
  {
  }

  lemma BitsPipeline(s: State, body: Option<Update>, mode: string, e: Surroundings, after: Poll, bits: nat)
    requires BitsKept(s, bits)
    ensures BitsKept(PutPipeline(s, body, mode, e, after).0, bits)
  {
    hide Updated, Launch, Reap, Remembering;
    if s.worker.Idle? && body.Some? && Updated(s.voice, body.value).Some? {
      var captured := s.(rollbackFailed := false);
      var next := Remembering(mode, Updated(s.voice, body.value).value);
      BitsLaunch(captured, next, e, bits);
      BitsReap(Launch(captured, next, e).0, after, bits);
    }
  }

  lemma BitsToggle(s: State, enabled: bool, bit: bool, e: Surroundings, bits: nat)
    requires BitsKept(s, bits)
    ensures BitsKept(PutHomeAssistant(s, enabled, bit, e).0, bits)
  {
    hide Launch, Toggled;
    if s.worker.Idle? {
      BitsLaunch(s.(voice := s.voice.(haBit := bit), rollbackFailed := false), Toggled(s.voice, enabled), e, bits);
    }
  }

  lemma BitsStep(s: State, t: Step, bits: nat)
    requires BitsKept(s, bits)
    ensures BitsKept(Next(s, t), bits)
  {
    hide PutPipeline, PutHomeAssistant, Reap;
    match t
    case Polling(p) => BitsReap(s, p, bits);
    case Pipeline(p, body, e, after) =>
      BitsReap(s, p, bits);
      BitsPipeline(Reap(s, p), body, s.voice.mode, e, after, bits);
    case HomeAssistant(p, enabled, e) =>
      var dirty := s.(voice := s.voice.(haBit := enabled));
      BitsReap(dirty, p, bits);
      BitsToggle(Reap(dirty, p), enabled, s.voice.mode == HOME_ASSISTANT, e, bits);
    case Privacy(local, valid, saves) =>
    case Saving(p, saves) => BitsReap(s, p, bits);
    case Reload => StartKeepsBits(s.disk, s);
  }

  /**
   * Atomicity: after any run, of polls, requests, privacy changes, saves and restarts of the process in any order
   * and with any outcomes, races included, the fields other than the integration bit are those the ledger has
   * kept from the answers and the exits.
   */
  lemma {:induction false} LedgerRun(s: State, run: seq<Step>, bits: nat)
    requires BitsKept(s, bits)
    ensures NoBit(LedgerOf(Run(s, run))) == NoBit(BookAll(LedgerOf(s), run, Answers(s, run)))
    ensures BitsKept(Run(s, run), bits)
    decreases |run|
  {
    hide Next, Book, LedgerOf, AnswerTo, BitsKept, NoBit;
    if run != [] {
      var answer, rest := AnswerTo(s, run[0]), Answers(Next(s, run[0]), run[1..]);
      StepBookedButBit(s, run[0]);
      BitsStep(s, run[0], bits);
      LedgerRun(Next(s, run[0]), run[1..], bits);
      BookAllButBit(LedgerOf(Next(s, run[0])), Book(LedgerOf(s), run[0], answer), run[1..], rest);
      assert Answers(s, run)[1..] == rest;
    }
  }

  /** Without a race the bit is the ledger's, too. */
  lemma {:induction false} LedgerRunExact(s: State, run: seq<Step>)
    requires Consistent(s) && NoRaces(s, run)
    ensures LedgerOf(Run(s, run)) == BookAll(LedgerOf(s), run, Answers(s, run))
    decreases |run|
  {
    hide Consistent, Races, Next, Book, LedgerOf, AnswerTo;
    if run != [] {
      StepBooked(s, run[0]);
      CouplingStep(s, run[0]);
      LedgerRunExact(Next(s, run[0]), run[1..]);
    }
  }

  /**
   * The same from a load: at any time the fields are what is settled, unless a transition is outstanding; then
   * they are its target, and what is settled is exactly what would be put back. Only a race leaves the bit open.
   */
  lemma RunFromLoad(disk: Option<Saved>, s: State, run: seq<Step>)
    ensures var start := Restart(s.(disk := disk));
            var l := BookAll(Ledger(Load(disk).0, None), run, Answers(start, run));
            var now := Run(start, run);
            var held := if now.worker.Forward? then Ledger(now.worker.before, Some(now.voice))
                        else Ledger(now.voice, None);
            now.otherBits == Load(disk).1 && NoBit(l) == NoBit(held) && (NoRaces(start, run) ==> l == held)
  {
    hide Load, Consistent, Races, Next, Book, AnswerTo, NoBit;
    var start := Restart(s.(disk := disk));
    StartIsConsistent(disk, s);
    StartKeepsBits(disk, s);
    LedgerRun(start, run, Load(disk).1);
    if NoRaces(start, run) {
      LedgerRunExact(start, run);
    }
  }

  lemma StartKeepsBits(disk: Option<Saved>, s: State)
    ensures BitsKept(Restart(s.(disk := disk)), Load(disk).1)
  {
    hide UriValid, TokenValid;
  }

  /**
   * `local_only` is voice-owned: a change of it accepted during a transition is still there when the worker has
   * been collected exactly if the transition succeeded, or had nothing else to put back.
   */
  lemma PrivacySurvives(s: State, local: bool, p: Poll)
    requires s.worker.Forward? && !p.wait.StillRunning?
    ensures var (t, status) := PutPrivacy(s, Present(local), true, true);
            && (status == 200 <==> !local || (s.voice.mode != CUSTOM && s.voice.mode != HOME_ASSISTANT))
            && (status == 200 ==> t.voice.localOnly == local)
            && (status == 200 ==> (Reap(t, p).voice.localOnly == local <==>
                                     ResultOf(p.wait) == Ok || s.worker.before.localOnly == local))
  {
  }

  // ---- A leftover failure -----------------------------------------------------------------

  /** The requests that reach `apply_voice_pipeline_mode`. */
  predicate Applies(s: State, t: Step) {
    match t
    case Pipeline(p, body, e, _) =>
      var polled := Reap(s, p);
      polled.worker.Idle? && body.Some? && Updated(polled.voice, body.value).Some? && e.saves && !e.mock
    case HomeAssistant(p, enabled, e) =>
      var polled := Reap(s.(voice := s.voice.(haBit := enabled)), p);
      && polled.worker.Idle? && enabled == (polled.voice.mode != HOME_ASSISTANT)
      && (enabled ==> e.satellite) && e.saves && !e.mock
    case _ => false
  }

  /** A leftover failure stays through every step of this process that does not reach `apply`. */
  lemma LeftoverStays(s: State, t: Step)
    requires s.worker.Idle? && s.result != Ok && !Applies(s, t) && !t.Reload?
    ensures Next(s, t).worker.Idle? && Next(s, t).result == s.result
  {
  }

  /** The one request that reaches `apply` with it fails, forks nothing, changes no field and uses it up. */
  lemma LeftoverFailsOne(s: State, t: Step)
    requires s.worker.Idle? && s.result != Ok && Applies(s, t) && Coupled(s.voice)
    ensures Next(s, t).worker.Idle? && Next(s, t).result == Ok && Next(s, t).voice == s.voice
    ensures var status := if t.Pipeline? then PutPipeline(Reap(s, t.poll), t.body, s.voice.mode, t.e, t.after).1
                          else Toggle(s, t.enabled, t.poll, t.e).1;
            status == if s.result == NotSupported then 501 else 503
  {
  }

  /** How long a leftover failure lasts: to the first request that reaches `apply`. */
  lemma {:induction false} LeftoverRun(s: State, run: seq<Step>)
    requires s.worker.Idle? && s.result != Ok
    requires forall t :: t in run ==> !t.Reload?
    ensures (exists k :: 0 <= k < |run| && Applies(Run(s, run[..k]), run[k]))
         || (Run(s, run).worker.Idle? && Run(s, run).result == s.result)
    decreases |run|
  {
    hide Next, Applies;
    if run != [] {
      if Applies(s, run[0]) {
        assert run[..0] == [] && Run(s, run[..0]) == s;
      } else {
        LeftoverStays(s, run[0]);
        var rest := run[1..];
        LeftoverRun(Next(s, run[0]), rest);
        forall k | 0 <= k < |rest| && Applies(Run(Next(s, run[0]), rest[..k]), rest[k])
          ensures Applies(Run(s, run[..k + 1]), run[k + 1])
        {
          assert run[..k + 1][1..] == rest[..k];
        }
      }
    }
  }
}
