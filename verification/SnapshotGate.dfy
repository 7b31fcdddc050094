/**
 * The snapshots of `authority_provenance.c`: how they are taken and compared, and the gate they form
 * between the provenance helper and what the API reports as available.
 */
module SnapshotGate {
  import opened Wrappers

  /** The fields `ap_same_stat` compares. */
  datatype Stat = Stat(device: int, inode: int, mode: int, size: int, mtime: int, mtimeNs: int, ctime: int,
                       ctimeNs: int)

  const ZERO := Stat(0, 0, 0, 0, 0, 0, 0, 0)

  datatype Observation = Observation(present: bool, valid: bool, st: Stat, hash: string)

  const UNSEEN := Observation(false, false, ZERO, "")

  datatype Snapshot = Snapshot(v3: bool, generation: string, paths: seq<string>, content: seq<bool>,
                               entries: seq<Observation>)

  /** What a path is at one moment: a file, with the hash that reading it gives, or none; or it cannot be told. */
  datatype File = Present(st: Stat, hash: Option<string>) | Absent | Unreadable

  /** What a snapshot looks at; `built` is whether its path list could be made. */
  datatype World = World(built: bool, v3: bool, generation: string, paths: seq<string>, content: seq<bool>,
                         files: seq<File>)

  predicate WellFormed(s: Snapshot) {
    |s.paths| == |s.content| == |s.entries|
  }

  predicate Plausible(w: World) {
    && |w.paths| == |w.content| == |w.files|
    && forall i :: 0 <= i < |w.files| && w.files[i].Present? && w.files[i].hash.Some? ==> w.files[i].hash.value != ""
  }

  // ---- Taking a snapshot ------------------------------------------------------------------

  /** The reference has a hash for this content path, and the path still has the stat it was made with. */
  predicate Reusable(w: World, i: nat, r: Option<Snapshot>) {
    && r.Some? && WellFormed(r.value)
    && i < |w.files| && i < |w.paths| && w.files[i].Present?
    && i < |r.value.paths| && r.value.content[i] && r.value.paths[i] == w.paths[i]
    && var e := r.value.entries[i]; e.valid && e.present && e.hash != "" && e.st == w.files[i].st
  }

  function Observe(w: World, i: nat, r: Option<Snapshot>): Observation
    requires i < |w.paths| == |w.content| == |w.files|
  {
    match w.files[i]
    case Absent => Observation(false, true, ZERO, "")
    case Unreadable => UNSEEN
    case Present(st, hash) =>
      if !w.content[i] then Observation(true, true, st, "")
      else if Reusable(w, i, r) then Observation(true, true, st, r.value.entries[i].hash)
      else if hash.Some? then Observation(true, true, st, hash.value)
      else Observation(true, false, st, "")
  }

  function Taken(w: World, r: Option<Snapshot>): (s: Snapshot)
    requires Plausible(w)
    ensures WellFormed(s)
  {
    Snapshot(w.v3, w.generation, w.paths, w.content,
             seq(|w.paths|, i requires 0 <= i < |w.paths| => if w.built then Observe(w, i, r) else UNSEEN))
  }

  /** `ap_take_snapshot_from` */
  method TakeSnapshotFrom(w: World, r: Option<Snapshot>) returns (s: Snapshot)
    requires Plausible(w) && (r.Some? ==> WellFormed(r.value))
    ensures s == Taken(w, r)
  {
    hide Plausible;
    var entries := seq(|w.paths|, _ => UNSEEN);
    if !w.built {
      s := Snapshot(w.v3, w.generation, w.paths, w.content, entries);
      assert s.entries == Taken(w, r).entries;
      return;
    }
    WorldSizes(w);
    for i := 0 to |w.paths|
      invariant |entries| == |w.paths|
      invariant forall k :: 0 <= k < i ==> entries[k] == Observe(w, k, r)
      invariant forall k :: i <= k < |w.paths| ==> entries[k] == UNSEEN
    {
      match w.files[i]
      case Present(st, hash) =>
        var e := Observation(true, true, st, "");
        if w.content[i] {
          var reuse :=
            && r.Some? && i < |r.value.paths| && r.value.content[i] && r.value.paths[i] == w.paths[i]
            && r.value.entries[i].valid && r.value.entries[i].present && r.value.entries[i].hash != ""
            && r.value.entries[i].st == st;
          if reuse {
            e := e.(hash := r.value.entries[i].hash);
          } else if hash.Some? {
            e := e.(hash := hash.value);
          } else {
            e := e.(valid := false);
          }
        }
        entries := entries[i := e];
      case Absent => entries := entries[i := Observation(false, true, ZERO, "")];
      case Unreadable =>
    }
    s := Snapshot(w.v3, w.generation, w.paths, w.content, entries);
    assert s.entries == Taken(w, r).entries;
  }

  lemma WorldSizes(w: World)
    requires Plausible(w)
    ensures |w.paths| == |w.content| == |w.files|
  {
  }

  predicate SameHash(w: World, i: nat, r: Snapshot) {
    i < |w.files| && w.files[i].Present? && i < |r.entries| && w.files[i].hash == Some(r.entries[i].hash)
  }

  /** Where a hash is reused, reading the file would have given the same one. */
  ghost predicate StatMeansContent(w: World, r: Snapshot)
    requires Plausible(w)
  {
    forall i :: 0 <= i < |w.files| && w.content[i] && Reusable(w, i, Some(r)) ==> SameHash(w, i, r)
  }

  /** Reusing hashes gives the snapshot that hashing everything afresh gives exactly when stat tells content. */
  lemma ReuseIsFresh(w: World, r: Snapshot)
    requires Plausible(w) && WellFormed(r) && w.built
    ensures Taken(w, Some(r)) == Taken(w, None) <==> StatMeansContent(w, r)
  {
    hide Reusable;
    var reused, afresh := Taken(w, Some(r)), Taken(w, None);
    forall i | 0 <= i < |w.paths|
      ensures reused.entries[i] == afresh.entries[i] <==>
        (w.content[i] && Reusable(w, i, Some(r)) ==> SameHash(w, i, r))
    {
      NothingReusable(w, i);
      if w.content[i] && Reusable(w, i, Some(r)) {
        ReusablePresent(w, i, r);
      }
    }
    assert reused == afresh <==> reused.entries == afresh.entries;
    if reused.entries == afresh.entries {
      assert forall i :: 0 <= i < |w.paths| ==> reused.entries[i] == afresh.entries[i];
    }
  }

  lemma NothingReusable(w: World, i: nat)
    ensures !Reusable(w, i, None)
  {
  }

  lemma ReusablePresent(w: World, i: nat, r: Snapshot)
    requires Reusable(w, i, Some(r))
    ensures i < |w.files| && w.files[i].Present? && i < |r.paths| == |r.entries|
  {
  }

  // ---- Comparing --------------------------------------------------------------------------

  /** `ap_same_observation` */
  predicate SameObservation(a: Observation, b: Observation, content: bool) {
    if !content then a.st == b.st
    else a.hash != "" && b.hash != "" && a.hash == b.hash && a.st.mode == b.st.mode && a.st.size == b.st.size
  }

  predicate SameEntry(a: Observation, b: Observation, content: bool) {
    a.valid && b.valid && a.present == b.present && (a.present ==> SameObservation(a, b, content))
  }

  /** `ap_snapshot_equal` */
  predicate Equal(a: Snapshot, b: Snapshot)
    requires WellFormed(a) && WellFormed(b)
  {
    && a.v3 == b.v3 && a.generation == b.generation && a.paths == b.paths && a.content == b.content
    && forall i :: 0 <= i < |a.paths| ==> SameEntry(a.entries[i], b.entries[i], a.content[i])
  }

  predicate AllStatFields(a: Stat, b: Stat) {
    && a.device == b.device && a.inode == b.inode && a.mode == b.mode && a.size == b.size
    && a.mtime == b.mtime && a.mtimeNs == b.mtimeNs && a.ctime == b.ctime && a.ctimeNs == b.ctimeNs
  }

  /**
   * What a positive comparison says, path by path: observed both times, there both times or neither, and if there,
   * the same hash, mode and size for a content path, the same stat in every field for another.
   */
  predicate Confirms(a: Snapshot, b: Snapshot)
    requires WellFormed(a) && WellFormed(b)
  {
    && |a.paths| == |b.paths| && a.v3 == b.v3 && a.generation == b.generation
    && (forall i :: 0 <= i < |a.paths| ==> a.paths[i] == b.paths[i] && a.content[i] == b.content[i])
    && (forall i :: 0 <= i < |a.paths| ==> a.entries[i].valid && b.entries[i].valid)
    && (forall i :: 0 <= i < |a.paths| ==> (a.entries[i].present <==> b.entries[i].present))
    && (forall i :: 0 <= i < |a.paths| && a.content[i] && a.entries[i].present ==>
          && a.entries[i].hash == b.entries[i].hash != ""
          && a.entries[i].st.mode == b.entries[i].st.mode && a.entries[i].st.size == b.entries[i].st.size)
    && (forall i :: 0 <= i < |a.paths| && !a.content[i] && a.entries[i].present ==>
          AllStatFields(a.entries[i].st, b.entries[i].st))
  }

  lemma EqualMeans(a: Snapshot, b: Snapshot)
    requires WellFormed(a) && WellFormed(b)
    ensures Equal(a, b) <==> Confirms(a, b)
  {
  }

  /** What stands for a content path that is there: the earlier hash if stat has not changed in any field. */
  lemma ObservedHash(w: World, r: Snapshot, i: nat)
    requires Plausible(w) && WellFormed(r) && i < |w.paths| && i < |w.files| && w.content[i] && w.files[i].Present?
    ensures var e := Observe(w, i, Some(r));
            var vouched := && i < |r.paths| && r.paths[i] == w.paths[i] && r.content[i]
                           && r.entries[i].valid && r.entries[i].present && r.entries[i].hash != ""
                           && AllStatFields(r.entries[i].st, w.files[i].st);
            && e.present && e.st == w.files[i].st
            && (vouched ==> e.valid && e.hash == r.entries[i].hash)
            && (!vouched ==> e.valid == w.files[i].hash.Some? && (e.valid ==> w.files[i].hash == Some(e.hash)))
  {
  }

  /** What stands for every other path, and for all of them while the list of paths could not be made. */
  lemma ObservedOther(w: World, r: Option<Snapshot>, i: nat)
    requires Plausible(w) && i < |w.paths| && i < |w.files|
    ensures var e := Taken(w, r).entries[i];
            && (!w.built ==> !e.valid)
            && (w.built && w.files[i].Unreadable? ==> !e.valid)
            && (w.built && w.files[i].Absent? ==> e.valid && !e.present)
            && (w.built && w.files[i].Present? && !w.content[i] ==> e.valid && e.present && e.st == w.files[i].st)
    ensures Taken(w, r).paths == w.paths && Taken(w, r).content == w.content
    ensures Taken(w, r).v3 == w.v3 && Taken(w, r).generation == w.generation
  {
  }

  /**
   * Files that compare equal to a snapshot, with hashes reused from it: where stat tells content, reading any
   * content file that is there would give the hash in the snapshot.
   */
  lemma EqualReadsSame(w: World, s: Snapshot, i: nat)
    requires Plausible(w) && WellFormed(s) && Equal(s, Taken(w, Some(s))) && StatMeansContent(w, s)
    requires i < |w.files| && w.content[i] && w.files[i].Present?
    ensures i < |s.entries| && s.entries[i].present && s.entries[i].hash != ""
    ensures w.files[i].hash == Some(s.entries[i].hash) && w.files[i].st.size == s.entries[i].st.size
  {
    hide Reusable;
    EqualMeans(s, Taken(w, Some(s)));
  }

  method SnapshotEqual(left: Snapshot, right: Snapshot) returns (same: bool)
    requires WellFormed(left) && WellFormed(right)
    ensures same == Equal(left, right)
    ensures same <==> Confirms(left, right)
  {
    EqualMeans(left, right);
    if |left.paths| != |right.paths| || left.v3 != right.v3 || left.generation != right.generation { return false; }
    for i := 0 to |left.paths|
      invariant forall k :: 0 <= k < i ==> left.paths[k] == right.paths[k] && left.content[k] == right.content[k]
      invariant forall k :: 0 <= k < i ==> SameEntry(left.entries[k], right.entries[k], left.content[k])
    {
      if left.paths[i] != right.paths[i] || left.content[i] != right.content[i]
         || !left.entries[i].valid || !right.entries[i].valid || left.entries[i].present != right.entries[i].present {
        return false;
      }
      if left.entries[i].present && !SameObservation(left.entries[i], right.entries[i], left.content[i]) {
        return false;
      }
    }
    return true;
  }

  lemma EqualSymmetric(a: Snapshot, b: Snapshot)
    requires WellFormed(a) && WellFormed(b)
    ensures Equal(a, b) <==> Equal(b, a)
  {
    forall i | 0 <= i < |a.entries| && i < |b.entries| && i < |a.content|
      ensures SameEntry(a.entries[i], b.entries[i], a.content[i]) == SameEntry(b.entries[i], a.entries[i], a.content[i])
    {
    }
  }

  lemma EqualTransitive(a: Snapshot, b: Snapshot, c: Snapshot)
    requires WellFormed(a) && WellFormed(b) && WellFormed(c) && Equal(a, b) && Equal(b, c)
    ensures Equal(a, c)
  {
    forall i | 0 <= i < |a.paths| ensures SameEntry(a.entries[i], c.entries[i], a.content[i]) {
      assert SameEntry(a.entries[i], b.entries[i], a.content[i]) && SameEntry(b.entries[i], c.entries[i], b.content[i]);
    }
  }

  /** A snapshot equals itself exactly when nothing in it failed to be observed. */
  lemma EqualReflexive(a: Snapshot)
    requires WellFormed(a)
    ensures Equal(a, a) <==>
      forall i :: 0 <= i < |a.paths| ==>
        a.entries[i].valid && (a.entries[i].present && a.content[i] ==> a.entries[i].hash != "")
  {
    forall i | 0 <= i < |a.paths|
      ensures SameEntry(a.entries[i], a.entries[i], a.content[i]) <==>
        a.entries[i].valid && (a.entries[i].present && a.content[i] ==> a.entries[i].hash != "") { }
  }

  // ---- The persisted observation ----------------------------------------------------------

  /**
   * What the cache file keeps of an entry: nothing of the stat of a path that is absent, hashes of
   * content paths only.
   */
  function Kept(e: Observation, content: bool): Observation {
    Observation(e.present, true, if e.present then e.st else ZERO, if e.present && content then e.hash else "")
  }

  function KeptSnapshot(s: Snapshot): (k: Snapshot)
    requires WellFormed(s)
    ensures WellFormed(k)
  {
    s.(entries := seq(|s.entries|, i requires 0 <= i < |s.entries| => Kept(s.entries[i], s.content[i])))
  }

  /** Writing a valid snapshot to the file and reading it back compares like the snapshot. */
  lemma KeptComparesAlike(s: Snapshot, other: Snapshot)
    requires WellFormed(s) && WellFormed(other) && forall i :: 0 <= i < |s.entries| ==> s.entries[i].valid
    ensures Equal(KeptSnapshot(s), other) <==> Equal(s, other)
  {
    var k := KeptSnapshot(s);
    forall i | 0 <= i < |s.entries| && i < |other.entries|
      ensures SameEntry(k.entries[i], other.entries[i], s.content[i])
           == SameEntry(s.entries[i], other.entries[i], s.content[i])
    {
    }
  }
}
