/** The helper job of `authority_provenance.c`: start, tick, report, and the observation persisted across boots. */
module ProvenanceJob {
  import opened SnapshotGate
  import opened Wrappers

  const TIMEOUT_SECONDS: int := 120
  const RETRY_SECONDS: int := 5
  const RETRY_BURST: nat := 3
  const RETRY_IDLE_SECONDS: int := 300
  const OUTPUT_MAX: nat := 8192

  /** What `ap_parse` makes of the helper's output. */
  datatype Record = Record(v3: bool, generation: string, fields: string)

  /** A record with what `ap_read_target` adds to a v3 one. */
  datatype Report = Report(record: Record, target: string)

  /** One finished helper run: the snapshot taken before it was started, and all it wrote. */
  datatype HelperRun = HelperRun(before: Snapshot, output: string)

  datatype Cache = Cache(snapshot: Snapshot, output: string)

  datatype Wait = StillRunning | Ended(ok: bool) | NoChild | WaitFailed

  datatype Read = Data(bytes: string) | EndOfFile | Again | ReadFailed

  /** What one tick finds: the clocks, the files at each look, the helper, its output and its end. */
  datatype Moment = Moment(
    now: int, elapsed: int, atLoad: World, atStart: World, atEnd: World,
    targetAtLoad: Option<string>, targetAtEnd: Option<string>,
    helper: bool, forks: bool, input: seq<Read>, wait: Wait, writes: bool)

  predicate PossibleMoment(m: Moment) {
    Plausible(m.atLoad) && Plausible(m.atStart) && Plausible(m.atEnd)
  }

  /** The output so far, the whole output, or a read that failed or gave too much. */
  datatype Reading = More(output: string) | Whole(output: string) | Broken

  /** What the reads of one tick amount to. */
  function ReadAll(output: string, input: seq<Read>): Reading
    decreases |input|
  {
    if input == [] || input[0].Again? then More(output)
    else if input[0].EndOfFile? then Whole(output)
    else if input[0].ReadFailed? || |output| + |input[0].bytes| > OUTPUT_MAX then Broken
    else ReadAll(output + input[0].bytes, input[1..])
  }

  function AllBytes(chunks: seq<string>): string {
    if chunks == [] then "" else chunks[0] + AllBytes(chunks[1..])
  }

  /** However the helper's output is cut into reads, the end of the file gives all of it, up to 8192 bytes. */
  lemma {:induction false} ReadsWhole(output: string, chunks: seq<string>)
    requires |output| <= 8192
    ensures var input := seq(|chunks|, i requires 0 <= i < |chunks| => Data(chunks[i]));
            var all := output + AllBytes(chunks);
            ReadAll(output, input + [EndOfFile]) == if |all| <= 8192 then Whole(all) else Broken
    decreases |chunks|
  {
    var input := seq(|chunks|, i requires 0 <= i < |chunks| => Data(chunks[i]));
    if chunks == [] {
      assert input + [EndOfFile] == [EndOfFile] && output + "" == output;
    } else {
      var rest := chunks[1..];
      var more := seq(|rest|, i requires 0 <= i < |rest| => Data(rest[i]));
      assert input == [Data(chunks[0])] + more;
      assert (input + [EndOfFile])[1..] == more + [EndOfFile];
      assert output + AllBytes(chunks) == (output + chunks[0]) + AllBytes(rest);
      if |output| + |chunks[0]| <= 8192 {
        ReadsWhole(output + chunks[0], rest);
      }
    }
  }

  /** A helper run that produced this record from files like those of the snapshot. */
  ghost predicate Backs(run: HelperRun, s: Snapshot, r: Record, parse: string -> Option<Record>) {
    && WellFormed(run.before) && WellFormed(s) && run.before.paths != [] && Equal(run.before, s)
    && parse(run.output) == Some(r) && r.v3 == run.before.v3 && (r.v3 ==> r.generation == run.before.generation)
  }

  ghost predicate Backed(runs: seq<HelperRun>, s: Snapshot, r: Record, parse: string -> Option<Record>) {
    exists k :: 0 <= k < |runs| && Backs(runs[k], s, r, parse)
  }

  /** The cache file holds the output of a run and a snapshot like the one before it. */
  ghost predicate Genuine(runs: seq<HelperRun>, c: Cache) {
    && WellFormed(c.snapshot)
    && exists k :: 0 <= k < |runs| && WellFormed(runs[k].before) && runs[k].before.paths != []
                   && Equal(runs[k].before, c.snapshot) && runs[k].output == c.output
  }

  class Authority {
    const parse: string -> Option<Record>
    // The job.
    var active: bool
    var cancelled: bool
    var reaped: bool
    var endedWell: bool
    var output: string
    var before: Snapshot
    // The result.
    var completed: bool
    var completedSnapshot: Snapshot
    var report: Report
    var retryAfter: int
    var retryCount: nat
    var loaded: bool
    var disk: Option<Cache>
    /** Every helper run that ended well, of this boot and of earlier ones. */
    ghost var runs: seq<HelperRun>

    ghost predicate Valid()
      reads this
    {
      && !(active && completed) && (cancelled ==> active) && retryCount <= RETRY_BURST + 1
      && WellFormed(before) && (active ==> before.paths != [])
      && WellFormed(completedSnapshot) && (completed ==> Backed(runs, completedSnapshot, report.record, parse))
      && (disk.Some? ==> Genuine(runs, disk.value))
    }

    /** The cache file is there, its snapshot compares equal to the files, and its record and target go with them. */
    ghost predicate Adopts(m: Moment)
      requires PossibleMoment(m)
      reads this
    {
      && disk.Some? && WellFormed(disk.value.snapshot) && Taken(m.atLoad, None).v3
      && Equal(disk.value.snapshot, Taken(m.atLoad, None)) && m.targetAtLoad.Some?
      && var r := parse(disk.value.output);
         r.Some? && r.value.v3 && r.value.generation == Taken(m.atLoad, None).generation
    }

    /** A helper is started: nothing runs or is adopted, the time has come, and everything it takes is there. */
    ghost predicate Starts(m: Moment)
      requires PossibleMoment(m)
      reads this
    {
      && !active && !completed && (loaded || !Adopts(m)) && m.now >= retryAfter
      && m.helper && Taken(m.atStart, None).paths != [] && m.forks
    }

    /** The output of a run that ended so is a record that fits the files, and they compare equal to those before. */
    ghost predicate Verifies(before: Snapshot, output: string, endedWell: bool, m: Moment)
      requires PossibleMoment(m)
      reads this
    {
      && endedWell && parse(output).Some? && WellFormed(before)
      && var r := parse(output).value;
         && r.v3 == before.v3 && (r.v3 ==> r.generation == before.generation && m.targetAtEnd.Some?)
         && Equal(before, Taken(m.atEnd, Some(before)))
    }

    /** What the end of a run leaves: the record if it verifies, and nothing completed if not. */
    ghost predicate Finished(was: seq<HelperRun>, before: Snapshot, output: string, endedWell: bool, m: Moment)
      requires PossibleMoment(m)
      reads this
    {
      && !active && !cancelled && runs == (if endedWell then was + [HelperRun(before, output)] else was)
      && completed == Verifies(before, output, endedWell, m)
      && (completed ==> completedSnapshot == Taken(m.atEnd, Some(before)) && retryCount == 0
                        && parse(output) == Some(report.record)
                        && (report.record.v3 ==> Some(report.target) == m.targetAtEnd))
    }

    /** What following a running job through one tick leaves, from what it was when the tick came to it. */
    ghost predicate Followed(was: seq<HelperRun>, before0: Snapshot, output0: string, reaped0: bool, endedWell0: bool,
                             m: Moment)
      requires PossibleMoment(m)
      reads this
    {
      if m.elapsed > 120 then !completed && runs == was && (active ==> cancelled)
      else
        match ReadAll(output0, m.input)
        case Broken => !completed && runs == was && (active ==> cancelled)
        case More(o) =>
          && !completed && !cancelled && runs == was
          && active == (reaped0 || m.wait.StillRunning? || m.wait.Ended?)
          && (active ==> output == o && before == before0)
          && (active && !reaped0 ==> reaped == m.wait.Ended? && (reaped ==> endedWell == m.wait.ok))
          && (active && reaped0 ==> reaped && endedWell == endedWell0)
        case Whole(o) =>
          if reaped0 then Finished(was, before0, o, endedWell0, m)
          else
            match m.wait
            case Ended(ok) => Finished(was, before0, o, ok, m)
            case StillRunning =>
              !completed && !cancelled && !reaped && active && output == o && before == before0 && runs == was
            case _ => !completed && !cancelled && !active && runs == was
    }

    /** A boot on a cache file that an earlier boot left. */
    constructor (parse: string -> Option<Record>, disk: Option<Cache>, ghost runs: seq<HelperRun>)
      requires disk.Some? ==> Genuine(runs, disk.value)
      ensures Valid() && !completed && !active && this.runs == runs && this.disk == disk
    {
      this.parse := parse;
      active, cancelled, reaped, endedWell, output := false, false, false, false, "";
      completed, retryAfter, retryCount, loaded := false, 0, 0, false;
      before := Snapshot(false, "", [], [], []);
      completedSnapshot := Snapshot(false, "", [], [], []);
      report := Report(Record(false, "", ""), "");
      this.disk, this.runs := disk, runs;
    }

    method CloseJob()
      modifies this`active, this`cancelled, this`reaped, this`endedWell, this`output, this`before
      ensures !active && !cancelled && WellFormed(before)
    {
      active, cancelled, reaped, endedWell, output := false, false, false, false, "";
      before := Snapshot(false, "", [], [], []);
    }

    /** `ap_schedule_retry`: a short burst, then idling. */
    method ScheduleRetry(now: int)
      requires retryCount <= RETRY_BURST + 1
      modifies this`completed, this`retryCount, this`retryAfter
      ensures !completed && retryCount == (if old(retryCount) < 4 then old(retryCount) + 1 else 4)
      ensures retryAfter == now + if old(retryCount) < 3 then 5 else 300
    {
      completed := false;
      if retryCount < RETRY_BURST + 1 { retryCount := retryCount + 1; }
      retryAfter := now + if retryCount <= RETRY_BURST then RETRY_SECONDS else RETRY_IDLE_SECONDS;
    }

    /** `ap_cancel_child` */
    method CancelChild(m: Moment)
      requires Valid() && active
      modifies this
      ensures Valid() && !completed && runs == old(runs) && disk == old(disk)
      ensures active == cancelled == !(old(reaped) || !m.wait.StillRunning?)
    {
      hide Backed, Genuine;
      if reaped || !m.wait.StillRunning? {
        CloseJob();
      } else {
        cancelled := true;
      }
      ScheduleRetry(m.now);
    }

    method FinishUnavailable(m: Moment)
      requires Valid()
      modifies this
      ensures Valid() && !completed && !active && runs == old(runs) && disk == old(disk)
    {
      hide Backed, Genuine;
      CloseJob();
      ScheduleRetry(m.now);
    }

    /** `ap_persist_load`, and the adoption of what it accepts. */
    method PersistLoad(m: Moment) returns (accepted: bool)
      requires Valid() && PossibleMoment(m) && !active && !completed
      modifies this`completed, this`completedSnapshot, this`report, this`retryCount
      ensures Valid() && completed == accepted
      ensures accepted == old(Adopts(m))
      ensures accepted ==> completedSnapshot == Taken(m.atLoad, None)
      ensures accepted ==> parse(disk.value.output) == Some(report.record) && Some(report.target) == m.targetAtLoad
    {
      hide Backed, Genuine, Plausible;
      assert Plausible(m.atLoad) by { MomentWorlds(m); }
      if disk.Some? { DiskFormed(runs, disk.value); }
      if disk.None? { return false; }
      var scratch := TakeSnapshotFrom(m.atLoad, None);
      if !scratch.v3 { return false; }
      var same := SnapshotEqual(disk.value.snapshot, scratch);
      if !same { return false; }
      var parsed := parse(disk.value.output);
      if parsed.None? || !parsed.value.v3 || parsed.value.generation != scratch.generation || m.targetAtLoad.None? {
        return false;
      }
      LoadBacked(runs, disk.value, scratch, parsed.value, parse);
      report, completedSnapshot, completed, retryCount := Report(parsed.value, m.targetAtLoad.value), scratch, true, 0;
      return true;
    }

    /** `ap_start`: a helper is started only with its snapshot taken, and not before the retry time. */
    method Start(m: Moment)
      requires Valid() && PossibleMoment(m)
      modifies this
      ensures Valid() && runs == old(runs) && disk == old(disk)
      ensures old(active) ==>
        && active && before == old(before) && output == old(output) && reaped == old(reaped)
        && endedWell == old(endedWell) && cancelled == old(cancelled) && completed == old(completed)
      ensures active == (old(active) || old(Starts(m)))
      ensures !old(active) ==>
        completed == (old(completed) || (!old(loaded) && old(Adopts(m))))
      ensures active && !old(active) ==> before == Taken(m.atStart, None) && output == "" && !reaped && !cancelled
      ensures old(completed) ==> report == old(report) && completedSnapshot == old(completedSnapshot)
    {
      hide Backed, Genuine, Plausible, Taken, Equal;
      if active || completed { return; }
      if !loaded {
        loaded := true;
        var accepted := PersistLoad(m);
        if accepted { return; }
      }
      if m.now < retryAfter { return; }
      if !m.helper {
        ScheduleRetry(m.now);
        return;
      }
      assert Plausible(m.atStart) by { MomentWorlds(m); }
      before := TakeSnapshotFrom(m.atStart, None);
      if |before.paths| == 0 || !m.forks {
        ScheduleRetry(m.now);
        return;
      }
      active, output, cancelled, reaped := true, "", false, false;
    }

    /** The end of the output: the record is taken only if it fits the snapshot and nothing has changed since. */
    method Complete(m: Moment)
      requires Valid() && PossibleMoment(m) && active && !cancelled && reaped
      modifies this
      ensures Valid() && Finished(old(runs), old(before), old(output), old(endedWell), m)
      ensures disk == if completed && completedSnapshot.v3 && m.writes
                      then Some(Cache(KeptSnapshot(completedSnapshot), old(output))) else old(disk)
    {
      hide Backed, Genuine, Plausible, Equal, KeptSnapshot, Taken, WellFormed, Confirms;
      assert Plausible(m.atEnd) by { MomentWorlds(m); }
      var parsed := parse(output);
      ghost var was, run := runs, HelperRun(before, output);
      if endedWell {
        KeptByMoreRuns(runs, run, completedSnapshot, report.record, parse, disk);
        runs := runs + [run];
      }
      if !endedWell || parsed.None? {
        FinishUnavailable(m);
        return;
      }
      if parsed.value.v3 != before.v3
         || (parsed.value.v3 && (parsed.value.generation != before.generation || m.targetAtEnd.None?)) {
        FinishUnavailable(m);
        return;
      }
      var after := TakeSnapshotFrom(m.atEnd, Some(before));
      var same := SnapshotEqual(before, after);
      if !same {
        FinishUnavailable(m);
        return;
      }
      NewRunBacks(was, run, after, parsed.value, parse);
      report := Report(parsed.value, if parsed.value.v3 then m.targetAtEnd.value else "");
      completedSnapshot, completed, retryCount := after, true, 0;
      if after.v3 && m.writes {
        NewRunGenuine(was, run, after);
        disk := Some(Cache(KeptSnapshot(after), output));
      }
      CloseJob();
    }

    /** `le_authority_provenance_tick` */
    method Tick(m: Moment)
      requires Valid() && PossibleMoment(m)
      modifies this
      ensures Valid() && |old(runs)| <= |runs| && runs[..|old(runs)|] == old(runs)
      ensures old(cancelled) ==>
                runs == old(runs) && !completed && active == cancelled == !(m.wait.Ended? || m.wait.NoChild?)
      ensures old(active) && !old(cancelled) ==>
                Followed(old(runs), old(before), old(output), old(reaped), old(endedWell), m)
      ensures old(Starts(m)) ==> Followed(old(runs), Taken(m.atStart, None), "", false, false, m)
      ensures !old(active) && !old(Starts(m)) ==>
                !active && runs == old(runs) && completed == (old(completed) || (!old(loaded) && old(Adopts(m))))
    {
      hide Backed, Genuine, PossibleMoment, Followed;
      if cancelled {
        if m.wait.Ended? || m.wait.NoChild? { CloseJob(); }
        return;
      }
      Start(m);
      if !active { return; }
      Follow(m);
      Unreaped(m);
    }

    /** Of a job that has just started no end is known. */
    lemma Unreaped(m: Moment)
      requires PossibleMoment(m)
      ensures forall was, before0, output0, ok ::
                Followed(was, before0, output0, false, ok, m) ==> Followed(was, before0, output0, false, false, m)
    {
      hide Finished;
    }

    /** The rest of the tick, for a job that runs. */
    method Follow(m: Moment)
      requires Valid() && PossibleMoment(m) && active && !cancelled
      modifies this
      ensures Valid() && |old(runs)| <= |runs| && runs[..|old(runs)|] == old(runs)
      ensures Followed(old(runs), old(before), old(output), old(reaped), old(endedWell), m)
    {
      hide Backed, Genuine, PossibleMoment, Verifies, Taken;
      if m.elapsed > TIMEOUT_SECONDS {
        CancelChild(m);
        return;
      }
      for k := 0 to |m.input|
        invariant Valid() && active && !cancelled && runs == old(runs) && before == old(before)
        invariant reaped == old(reaped) && endedWell == old(endedWell) && !completed
        invariant ReadAll(old(output), m.input) == ReadAll(output, m.input[k..])
      {
        assert m.input[k..][1..] == m.input[k + 1..];
        match m.input[k]
        case Data(bytes) =>
          if |output| + |bytes| > OUTPUT_MAX {
            CancelChild(m);
            return;
          }
          output := output + bytes;
        case Again => break;
        case ReadFailed =>
          CancelChild(m);
          return;
        case EndOfFile =>
          if !reaped {
            if m.wait.StillRunning? { return; }
            if !m.wait.Ended? {
              FinishUnavailable(m);
              return;
            }
            reaped, endedWell := true, m.wait.ok;
          }
          Complete(m);
          return;
      }
      if !reaped {
        if m.wait.NoChild? || m.wait.WaitFailed? {
          FinishUnavailable(m);
        } else if m.wait.Ended? {
          reaped, endedWell := true, m.wait.ok;
        }
      }
    }

    /**
     * `le_authority_provenance_json`: whatever is reported as available is the record of a finished helper
     * run, and the files now compare equal to the snapshot taken before that run was started. `fits` is
     * whether the text goes into the caller's buffer.
     */
    method Json(now: int, w: World, fits: bool) returns (r: Option<Report>)
      requires Valid() && Plausible(w)
      modifies this`completed, this`retryCount, this`retryAfter
      ensures Valid()
      ensures r.Some? ==> old(completed) && r.value == report
      ensures r.Some? ==> Backed(runs, Taken(w, Some(completedSnapshot)), r.value.record, parse)
      ensures completed <==> old(completed) && Equal(completedSnapshot, Taken(w, Some(completedSnapshot)))
      ensures r.Some? <==> completed && fits
      ensures completed ==> Confirms(completedSnapshot, Taken(w, Some(completedSnapshot)))
      ensures r.Some? && StatMeansContent(w, completedSnapshot) ==>
                forall i :: 0 <= i < |w.files| && w.content[i] && w.files[i].Present? ==>
                  i < |completedSnapshot.entries| && w.files[i].hash == Some(completedSnapshot.entries[i].hash)
    {
      hide Backed, Genuine, Plausible, Equal, Taken;
      if !completed { return None; }
      var current := TakeSnapshotFrom(w, Some(completedSnapshot));
      TakenFormed(w, Some(completedSnapshot));
      var same := SnapshotEqual(completedSnapshot, current);
      if !same {
        ScheduleRetry(now);
        return None;
      }
      if !fits { return None; }
      WorldSizes(w);
      forall i | StatMeansContent(w, completedSnapshot) && 0 <= i < |w.files| && w.content[i] && w.files[i].Present?
        ensures i < |completedSnapshot.entries| && w.files[i].hash == Some(completedSnapshot.entries[i].hash)
      {
        EqualReadsSame(w, completedSnapshot, i);
      }
      StaysBacked(runs, completedSnapshot, current, report.record, parse);
      return Some(report);
    }
  }

  lemma MomentWorlds(m: Moment)
    requires PossibleMoment(m)
    ensures Plausible(m.atLoad) && Plausible(m.atStart) && Plausible(m.atEnd)
  {
  }

  lemma TakenFormed(w: World, r: Option<Snapshot>)
    requires Plausible(w)
    ensures WellFormed(Taken(w, r))
  {
  }

  lemma DiskFormed(runs: seq<HelperRun>, c: Cache)
    requires Genuine(runs, c)
    ensures WellFormed(c.snapshot)
  {
  }

  lemma KeptByMoreRuns(runs: seq<HelperRun>, run: HelperRun, s: Snapshot, r: Record, parse: string -> Option<Record>,
                       disk: Option<Cache>)
    ensures Backed(runs, s, r, parse) ==> Backed(runs + [run], s, r, parse)
    ensures disk.Some? && Genuine(runs, disk.value) ==> Genuine(runs + [run], disk.value)
  {
    hide Equal;
    var more := runs + [run];
    assert forall k :: 0 <= k < |runs| ==> more[k] == runs[k];
  }

  lemma NewRunBacks(runs: seq<HelperRun>, run: HelperRun, s: Snapshot, r: Record, parse: string -> Option<Record>)
    requires Backs(run, s, r, parse)
    ensures Backed(runs + [run], s, r, parse)
  {
    hide Backs;
    assert (runs + [run])[|runs|] == run;
  }

  lemma NewRunGenuine(runs: seq<HelperRun>, run: HelperRun, s: Snapshot)
    requires WellFormed(run.before) && WellFormed(s) && run.before.paths != [] && Equal(run.before, s)
    ensures Genuine(runs + [run], Cache(KeptSnapshot(s), run.output))
  {
    assert (runs + [run])[|runs|] == run;
    EqualValid(run.before, s);
    EqualSymmetric(run.before, s);
    KeptComparesAlike(s, run.before);
    EqualSymmetric(KeptSnapshot(s), run.before);
  }

  lemma EqualValid(a: Snapshot, b: Snapshot)
    requires WellFormed(a) && WellFormed(b) && Equal(a, b)
    ensures forall i :: 0 <= i < |b.entries| ==> b.entries[i].valid
  {
    forall i | 0 <= i < |b.entries| ensures b.entries[i].valid {
      assert SameEntry(a.entries[i], b.entries[i], a.content[i]);
    }
  }

  /** What compares equal to a backed snapshot is backed by the same run. */
  lemma StaysBacked(runs: seq<HelperRun>, s: Snapshot, now: Snapshot, r: Record, parse: string -> Option<Record>)
    requires Backed(runs, s, r, parse) && WellFormed(s) && WellFormed(now) && Equal(s, now)
    ensures Backed(runs, now, r, parse)
  {
    var k :| 0 <= k < |runs| && Backs(runs[k], s, r, parse);
    EqualTransitive(runs[k].before, s, now);
    assert Backs(runs[k], now, r, parse);
  }

  lemma LoadBacked(runs: seq<HelperRun>, c: Cache, now: Snapshot, r: Record, parse: string -> Option<Record>)
    requires Genuine(runs, c) && WellFormed(now) && Equal(c.snapshot, now)
    requires parse(c.output) == Some(r) && r.v3 && now.v3 && r.generation == now.generation
    ensures Backed(runs, now, r, parse)
  {
    var k :| 0 <= k < |runs| && WellFormed(runs[k].before) && runs[k].before.paths != []
             && Equal(runs[k].before, c.snapshot) && runs[k].output == c.output;
    EqualTransitive(runs[k].before, c.snapshot, now);
    assert Backs(runs[k], now, r, parse);
  }

  /**
   * Where stat tells content, what is reported is what a snapshot hashed afresh at that moment would
   * have confirmed as well.
   */
  lemma ReportedIsFresh(runs: seq<HelperRun>, w: World, s: Snapshot, r: Record, parse: string -> Option<Record>)
    requires Plausible(w) && WellFormed(s) && w.built && StatMeansContent(w, s)
    requires Backed(runs, Taken(w, Some(s)), r, parse)
    ensures Backed(runs, Taken(w, None), r, parse)
  {
    ReuseIsFresh(w, s);
  }
}
