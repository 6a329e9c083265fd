/**
 The sweep of stale temporary entries: the keep-set built from the job map, the walk up a
 downloaded path, which entries are removed, and why a job's directory survives concurrent sweeps.
 */
module Sweep {
  import opened Paths
  import opened Wrappers

  // ------------------------------------------------------------- names

  predicate HasPrefix(s: string, prefix: string) {
    prefix <= s
  }

  predicate HasSuffix(s: string, suffix: string) {
    |suffix| <= |s| && s[|s| - |suffix|..] == suffix
  }

  predicate IsFamily(name: string) {
    HasPrefix(name, "dl-") || HasPrefix(name, "stage-") || HasPrefix(name, "screens-")
  }

  predicate IsBootFamily(name: string) {
    HasPrefix(name, "offline-") || HasPrefix(name, "enc-") || HasPrefix(name, "wrap-")
    || HasPrefix(name, "offer-") || HasSuffix(name, ".7z")
  }

  predicate Matches(name: string, includeExtended: bool) {
    IsFamily(name) || (includeExtended && IsBootFamily(name))
  }

  ghost predicate StartsWith(name: string, prefix: string) {
    exists rest: string :: name == prefix + rest
  }

  ghost predicate EndsWith(name: string, suffix: string) {
    exists front: string :: name == front + suffix
  }

  lemma PrefixStarts(name: string, prefix: string)
    ensures HasPrefix(name, prefix) <==> StartsWith(name, prefix)
  {
    if HasPrefix(name, prefix) {
      assert name == prefix + name[|prefix|..];
    }
  }

  lemma SuffixEnds(name: string, suffix: string)
    ensures HasSuffix(name, suffix) <==> EndsWith(name, suffix)
  {
    if HasSuffix(name, suffix) {
      assert name == name[..|name| - |suffix|] + suffix;
    }
    if EndsWith(name, suffix) {
      var front: string :| name == front + suffix;
      assert name[|name| - |suffix|..] == suffix;
    }
  }

  /** Which names a sweep is about: the working directories always, the rest only at startup. */
  lemma FamiliesExactly(name: string)
    ensures Matches(name, false) <==>
              StartsWith(name, "dl-") || StartsWith(name, "stage-") || StartsWith(name, "screens-")
    ensures Matches(name, true) <==>
              || Matches(name, false)
              || StartsWith(name, "offline-") || StartsWith(name, "enc-") || StartsWith(name, "wrap-")
              || StartsWith(name, "offer-") || EndsWith(name, ".7z")
  {
    hide HasPrefix, HasSuffix, StartsWith, EndsWith;
    PrefixStarts(name, "dl-");
    PrefixStarts(name, "stage-");
    PrefixStarts(name, "screens-");
    PrefixStarts(name, "offline-");
    PrefixStarts(name, "enc-");
    PrefixStarts(name, "wrap-");
    PrefixStarts(name, "offer-");
    SuffixEnds(name, ".7z");
  }

  // ------------------------------------------------------------- the walk up a path

  /** The last of the names that belongs to a family. */
  function LastFamily(names: seq<string>): Option<string>
    decreases |names|
  {
    if names == [] then None
    else if IsFamily(Last(names)) then Some(Last(names))
    else LastFamily(Front(names))
  }

  /** What a downloaded path names, from the leaf up: its own base, then its cleaned parent directories. */
  function Nearest(p: Path): Option<string> {
    if p == EMPTY_PATH || p == ROOT || p == DOT then None
    else if IsFamily(Base(p)) then Some(Base(p))
    else LastFamily(Components(DirPart(p)))
  }

  /** LastFamily is the last name of a family, and None only when there is none. */
  lemma LastFamilyIsNearest(names: seq<string>) returns (i: int)
    ensures -1 <= i < |names|
    ensures i == -1 <==> LastFamily(names).None?
    ensures i >= 0 ==> IsFamily(names[i]) && LastFamily(names) == Some(names[i])
    ensures forall k :: i < k < |names| ==> !IsFamily(names[k])
    decreases |names|
  {
    hide IsFamily;
    if names == [] {
      i := -1;
    } else if IsFamily(Last(names)) {
      i := |names| - 1;
    } else {
      i := LastFamilyIsNearest(Front(names));
      forall k | i < k < |names| ensures !IsFamily(names[k]) {
        if k < |names| - 1 {
          assert names[k] == Front(names)[k];
        }
      }
    }
  }

  lemma StoppedAtTop(rooted: bool, comps: seq<string>)
    requires IsClean(rooted, comps)
    ensures var p := Render(rooted, comps); (p == EMPTY_PATH || p == ROOT || p == DOT) <==> comps == []
  {
    if comps != [] {
      assert Last(Render(rooted, comps)) == Last(comps);
    }
  }

  method NearestFamilyName(path: Path) returns (found: Option<string>)
    ensures found == Nearest(path)
  {
    var p := path;
    ghost var first := true;
    ghost var rooted, comps := Rooted(DirPart(path)), Components(DirPart(path));
    ResolveIsClean([], DirPart(path), rooted);
    ghost var left: nat := |comps| + 1;
    while p != EMPTY_PATH && p != ROOT && p != DOT
      invariant first ==> p == path
      invariant !first ==> IsClean(rooted, comps) && p == Render(rooted, comps)
      invariant IsClean(rooted, comps)
      invariant first ==> left == |comps| + 1 && rooted == Rooted(DirPart(path)) && comps == Components(DirPart(path))
      invariant !first ==> left == |comps|
      invariant !first ==> Nearest(path) == LastFamily(comps)
      decreases left
    {
      if !first {
        StoppedAtTop(rooted, comps);
        BaseOfClean(rooted, comps);
        DirOfClean(rooted, comps);
      }
      var b := Base(p);
      if IsFamily(b) {
        return Some(b);
      }
      var next := Dir(p);
      ParentDiffers(p);
      if next == p {
        // the code leaves the loop here; it never comes to it
        assert false;
      }
      if first {
        first := false;
      } else {
        CleanDropsLast(rooted, comps);
        comps := Front(comps);
      }
      left := |comps|;
      p := next;
    }
    if !first {
      StoppedAtTop(rooted, comps);
    }
    return None;
  }

  /** The parent of a path that is not at the top is another path, so the walk cannot stop early. */
  lemma ParentDiffers(p: Path)
    requires p != EMPTY_PATH && p != ROOT && p != DOT
    ensures Dir(p) != p
  {
    var d := DirPart(p);
    ResolveIsClean([], d, Rooted(d));
    var comps := Components(d);
    if Rooted(d) {
      assert d[1..] == d[1..|d| - 1] + [""];
      RootedResolve(d);
    } else if |p| > 1 {
      ResolveDropsTail(Front(p));
    }
  }

  lemma {:induction false} ResolveShort(stack: seq<string>, rest: seq<string>, rooted: bool)
    ensures |Resolve(stack, rest + [""], rooted)| <= |stack| + |rest|
    decreases |rest|
  {
    if rest == [] {
      assert (rest + [""])[1..] == [];
    } else {
      var all := rest + [""];
      assert all[0] == rest[0] && all[1..] == rest[1..] + [""];
      if rest[0] == "" || rest[0] == "." {
        ResolveShort(stack, rest[1..], rooted);
      } else if rest[0] == ".." {
        if stack != [] && Last(stack) != ".." {
          ResolveShort(Front(stack), rest[1..], rooted);
        } else if rooted {
          ResolveShort(stack, rest[1..], rooted);
        } else {
          ResolveShort(stack + [".."], rest[1..], rooted);
        }
      } else {
        ResolveShort(stack + [rest[0]], rest[1..], rooted);
      }
    }
  }

  lemma ResolveDropsTail(front: seq<string>)
    ensures |Resolve([], front + [""], false)| <= |front|
  {
    ResolveShort([], front, false);
  }

  lemma RootedResolve(d: Path)
    requires Rooted(d) && Last(d) == ""
    ensures |Components(d)| <= |d| - 2
  {
    assert d == [""] + d[1..|d| - 1] + [""];
    assert d[1..] == d[1..|d| - 1] + [""];
    ResolveShort([], d[1..|d| - 1], true);
  }

  // ------------------------------------------------------------- the keep-set

  /** What the sweep reads of a job; a nil job is None. */
  datatype JobState = JobState(name: string, downloadedPath: Path, stagePath: Path)

  type Jobs = map<string, Option<JobState>>

  function Protects(jobName: string, job: JobState): set<string> {
    (if jobName != "" then {"dl-" + jobName} else {})
    + (if job.name != "" && job.name != jobName then {"dl-" + job.name} else {})
    + (if job.downloadedPath != EMPTY_PATH && Nearest(job.downloadedPath).Some?
       then {Nearest(job.downloadedPath).value} else {})
    + (if job.stagePath != EMPTY_PATH then {Base(job.stagePath)} else {})
  }

  /** d is protected by some job of the map. */
  ghost predicate Protected(jobs: Jobs, d: string) {
    exists j :: j in jobs && jobs[j].Some? && d in Protects(j, jobs[j].value)
  }

  /** The directories of a job's own: dl-<job>, its stage dir, the nearest family directory of its download. */
  predicate IsOwn(jobName: string, job: JobState, d: string) {
    || (jobName != "" && d == "dl-" + jobName)
    || (job.name != "" && d == "dl-" + job.name)
    || (job.stagePath != EMPTY_PATH && d == Base(job.stagePath))
    || Nearest(job.downloadedPath) == Some(d)
  }

  lemma ProtectsOwn(jobName: string, job: JobState, d: string)
    ensures d in Protects(jobName, job) <==> IsOwn(jobName, job, d)
  {
  }

  method KeepOfJob(jobName: string, job: JobState) returns (keep: set<string>)
    ensures keep == Protects(jobName, job)
    ensures forall d :: d in keep <==> IsOwn(jobName, job, d)
  {
    forall d ensures d in Protects(jobName, job) <==> IsOwn(jobName, job, d) {
      ProtectsOwn(jobName, job, d);
    }
    keep := {};
    if jobName != "" {
      keep := keep + {"dl-" + jobName};
    }
    if job.name != "" && job.name != jobName {
      keep := keep + {"dl-" + job.name};
    }
    if job.downloadedPath != EMPTY_PATH {
      var found := NearestFamilyName(job.downloadedPath);
      if found.Some? {
        keep := keep + {found.value};
      }
    }
    if job.stagePath != EMPTY_PATH {
      keep := keep + {Base(job.stagePath)};
    }
  }

  /** d is protected by a job outside rest. */
  ghost predicate ProtectedOutside(jobs: Jobs, rest: set<string>, d: string) {
    exists j :: j in jobs && j !in rest && jobs[j].Some? && d in Protects(j, jobs[j].value)
  }

  lemma OneJobLess(jobs: Jobs, rest: set<string>, jobName: string, d: string)
    requires jobName in jobs && jobName in rest
    ensures ProtectedOutside(jobs, rest - {jobName}, d)
       <==> ProtectedOutside(jobs, rest, d) || (jobs[jobName].Some? && d in Protects(jobName, jobs[jobName].value))
  {
    hide Protects;
  }

  method BuildKeep(jobs: Jobs) returns (keep: set<string>)
    ensures forall d :: d in keep <==> Protected(jobs, d)
  {
    hide Protects;
    keep := {};
    var rest := jobs.Keys;
    while rest != {}
      invariant rest <= jobs.Keys
      invariant forall d :: d in keep <==> ProtectedOutside(jobs, rest, d)
      decreases |rest|
    {
      var jobName :| jobName in rest;
      forall d ensures ProtectedOutside(jobs, rest - {jobName}, d)
          <==> d in keep || (jobs[jobName].Some? && d in Protects(jobName, jobs[jobName].value))
      {
        OneJobLess(jobs, rest, jobName, d);
      }
      rest := rest - {jobName};
      if jobs[jobName].Some? {
        var more := KeepOfJob(jobName, jobs[jobName].value);
        keep := keep + more;
      }
    }
    forall d ensures ProtectedOutside(jobs, {}, d) <==> Protected(jobs, d) {
    }
  }

  // ------------------------------------------------------------- one sweep

  /** A directory entry; `modified` is None when Info failed. */
  datatype Entry = Entry(name: string, modified: Option<int>)

  predicate Young(e: Entry, minAge: int, cutoff: int) {
    minAge > 0 && (e.modified.None? || e.modified.value > cutoff)
  }

  /**
   sweepWithMinAge: the names it tries to remove, in order. With a minimum age these are entries known
   to be that old; without one the times do not matter.
   */
  method SweepEntries(entries: seq<Entry>, jobs: Jobs, minAge: int, now: int, includeExtended: bool)
    returns (attempted: seq<string>)
    ensures forall i :: 0 <= i < |attempted| ==>
              && !Protected(jobs, attempted[i])
              && Matches(attempted[i], includeExtended)
              && exists k :: 0 <= k < |entries| && entries[k].name == attempted[i]
                             && (minAge > 0 ==> entries[k].modified.Some? && entries[k].modified.value <= now - minAge)
    ensures forall k :: 0 <= k < |entries| ==>
              Matches(entries[k].name, includeExtended) && !Protected(jobs, entries[k].name) &&
              (minAge <= 0 || (entries[k].modified.Some? && entries[k].modified.value <= now - minAge)) ==>
                entries[k].name in attempted
  {
    var keep := BuildKeep(jobs);
    var cutoff := now - minAge;
    attempted := [];
    for k := 0 to |entries|
      invariant forall i :: 0 <= i < |attempted| ==>
                  && !Protected(jobs, attempted[i])
                  && Matches(attempted[i], includeExtended)
                  && exists m :: 0 <= m < k && entries[m].name == attempted[i] && !Young(entries[m], minAge, cutoff)
      invariant forall m :: 0 <= m < k ==>
                  (entries[m].name in attempted || Protected(jobs, entries[m].name)
                   || !Matches(entries[m].name, includeExtended) || Young(entries[m], minAge, cutoff))
    {
      var e := entries[k];
      if Matches(e.name, includeExtended) && e.name !in keep && !Young(e, minAge, cutoff) {
        ghost var before := attempted;
        attempted := attempted + [e.name];
        assert forall n :: n in before ==> n in attempted;
        assert e.name == attempted[|attempted| - 1];
      }
    }
  }

  /** A job's own directories are never tried: dl-<job>, the stage dir, the nearest family directory. */
  lemma OwnDirectoriesProtected(jobs: Jobs, jobName: string, job: JobState)
    requires jobName in jobs && jobs[jobName] == Some(job)
    ensures jobName != "" ==> Protected(jobs, "dl-" + jobName)
    ensures job.name != "" ==> Protected(jobs, "dl-" + job.name)
    ensures job.stagePath != EMPTY_PATH ==> Protected(jobs, Base(job.stagePath))
    ensures Nearest(job.downloadedPath).Some? ==> Protected(jobs, Nearest(job.downloadedPath).value)
  {
    if job.name != "" {
      assert "dl-" + job.name in Protects(jobName, job);
    }
    if jobName != "" {
      assert "dl-" + jobName in Protects(jobName, job);
    }
    if job.stagePath != EMPTY_PATH {
      assert Base(job.stagePath) in Protects(jobName, job);
    }
    if Nearest(job.downloadedPath).Some? {
      assert Nearest(job.downloadedPath).value in Protects(jobName, job);
    }
  }

  /** Both shapes of a downloaded path name the job's directory: the directory, and a file in it. */
  lemma BothShapesNameTheDirectory(temp: seq<string>, dir: string, file: string)
    requires IsClean(true, temp) && IsFamily(dir) && !IsFamily(file)
    requires file != "" && file != "." && file != ".."
    ensures Nearest(Render(true, temp + [dir])) == Some(dir)
    ensures Nearest(Render(true, temp + [dir, file])) == Some(dir)
  {
    FamilyIsPlain(dir);
    assert IsClean(true, temp + [dir]);
    BaseOfClean(true, temp + [dir]);
    StoppedAtTop(true, temp + [dir]);
    assert IsClean(true, temp + [dir, file]);
    BaseOfClean(true, temp + [dir, file]);
    StoppedAtTop(true, temp + [dir, file]);
    var p := Render(true, temp + [dir, file]);
    assert DirPart(p) == [""] + (temp + [dir]) + [""];
    assert DirPart(p)[1..] == (temp + [dir]) + [""];
    ResolveKeepsClean([], temp + [dir], true, [""]);
    assert [] + (temp + [dir]) == temp + [dir];
  }

  lemma FamilyIsPlain(dir: string)
    requires IsFamily(dir)
    ensures dir != "" && dir != "." && dir != ".."
  {
  }

  // ------------------------------------------------------------- sweeps beside running jobs

  /** A sweep in progress: it has the listing, or also its keep-set and so the names left to remove. */
  datatype Sweep = Listed(names: set<string>) | Removing(targets: set<string>)

  datatype State = State(dirs: set<string>, jobs: Jobs, sweeps: seq<Sweep>)

  datatype Event =
    | List                                          // ReadDir of a new sweep
    | Snapshot(i: nat, includeExtended: bool, young: set<string>)  // job map read, ages checked
    | Remove(i: nat, name: string)                  // RemoveAll of one target
    | SetJob(jobName: string, job: Option<JobState>)
    | DropJob(jobName: string)
    | Create(name: string)

  predicate Enabled(s: State, e: Event) {
    match e
    case Snapshot(i, _, _) => i < |s.sweeps| && s.sweeps[i].Listed?
    case Remove(i, name) => i < |s.sweeps| && s.sweeps[i].Removing? && name in s.sweeps[i].targets
    case _ => true
  }

  ghost function Apply(s: State, e: Event): State
    requires Enabled(s, e)
  {
    match e
    case List => s.(sweeps := s.sweeps + [Listed(s.dirs)])
    case Snapshot(i, ext, young) =>
      var targets := set n | n in s.sweeps[i].names && Matches(n, ext) && !Protected(s.jobs, n) && n !in young;
      s.(sweeps := s.sweeps[i := Removing(targets)])
    case Remove(i, name) =>
      s.(dirs := s.dirs - {name}, sweeps := s.sweeps[i := Removing(s.sweeps[i].targets - {name})])
    case SetJob(jobName, job) => s.(jobs := s.jobs[jobName := job])
    case DropJob(jobName) => s.(jobs := s.jobs - {jobName})
    case Create(name) => s.(dirs := s.dirs + {name})
  }

  /** No sweep has d among the names it is still going to remove. */
  predicate NotTargeted(s: State, d: string) {
    forall i :: 0 <= i < |s.sweeps| && s.sweeps[i].Removing? ==> d !in s.sweeps[i].targets
  }

  /** A run in which d stays protected by the job map throughout. */
  ghost predicate ProtectedRun(s: State, events: seq<Event>, d: string)
    decreases |events|
  {
    && Protected(s.jobs, d)
    && (events == [] || (Enabled(s, events[0]) && ProtectedRun(Apply(s, events[0]), events[1..], d)))
  }

  ghost function Final(s: State, events: seq<Event>): State
    decreases |events|
  {
    if events == [] || !Enabled(s, events[0]) then s else Final(Apply(s, events[0]), events[1..])
  }

  lemma StaysNotTargeted(s: State, e: Event, d: string)
    requires Enabled(s, e) && Protected(s.jobs, d) && NotTargeted(s, d)
    ensures NotTargeted(Apply(s, e), d)
    ensures d in s.dirs ==> d in Apply(s, e).dirs
  {
  }

  /**
   A directory a job protects survives any number of sweeps, however their listing, snapshot and
   removals interleave with the jobs, as long as the job keeps protecting it and no sweep had
   already decided on it.
   */
  lemma {:induction false} DirectorySurvives(s: State, events: seq<Event>, d: string)
    requires d in s.dirs && NotTargeted(s, d) && ProtectedRun(s, events, d)
    ensures d in Final(s, events).dirs && NotTargeted(Final(s, events), d)
    decreases |events|
  {
    if events != [] {
      StaysNotTargeted(s, events[0], d);
      DirectorySurvives(Apply(s, events[0]), events[1..], d);
    }
  }

  /** A directory that a sweep already has among its targets can be lost although it is protected throughout. */
  lemma TargetedIsLost(s: State, d: string) returns (events: seq<Event>)
    requires d in s.dirs && Protected(s.jobs, d) && !NotTargeted(s, d)
    ensures ProtectedRun(s, events, d) && d !in Final(s, events).dirs
  {
    hide Protected;
    var i: nat :| i < |s.sweeps| && s.sweeps[i].Removing? && d in s.sweeps[i].targets;
    events := [Remove(i, d)];
    assert events[1..] == [];
    var s' := Apply(s, events[0]);
    assert ProtectedRun(s', [], d);
    assert Final(s', []) == s';
  }

  ghost predicate AlwaysSurvives(s: State, d: string) {
    forall events :: ProtectedRun(s, events, d) ==> d in Final(s, events).dirs
  }

  /**
   A protected directory survives every run in which it stays protected exactly when no sweep has it
   among the names it is still going to remove.
   */
  lemma SurvivesExactly(s: State, d: string)
    requires d in s.dirs && Protected(s.jobs, d)
    ensures AlwaysSurvives(s, d) <==> NotTargeted(s, d)
  {
    hide Protected, ProtectedRun, Final, NotTargeted;
    if NotTargeted(s, d) {
      forall events | ProtectedRun(s, events, d) ensures d in Final(s, events).dirs {
        DirectorySurvives(s, events, d);
      }
    } else {
      var events := TargetedIsLost(s, d);
    }
  }

  /** No sweep is between its snapshot of the jobs and the last of its removals. */
  predicate NoneRemoving(s: State) {
    forall i :: 0 <= i < |s.sweeps| && s.sweeps[i].Removing? ==> s.sweeps[i].targets == {}
  }

  /** A directory that was removed and made again is safe unless another sweep is after it. */
  lemma MadeAgainSurvives(s: State, i: nat, d: string)
    requires Enabled(s, Remove(i, d)) && Protected(s.jobs, d)
    requires forall k :: 0 <= k < |s.sweeps| && k != i && s.sweeps[k].Removing? ==> d !in s.sweeps[k].targets
    ensures AlwaysSurvives(Apply(Apply(s, Remove(i, d)), Create(d)), d)
  {
    SurvivesExactly(Apply(Apply(s, Remove(i, d)), Create(d)), d);
  }

  /**
   What a caller can check: a job registered while no sweep is removing keeps its directories through
   every later run in which it stays registered, also when the directory is made only afterwards.
   */
  lemma RegisteredInTime(s: State, jobName: string, job: JobState, d: string)
    requires NoneRemoving(s) && d in Protects(jobName, job)
    ensures var s' := Apply(s, SetJob(jobName, Some(job)));
            && Protected(s'.jobs, d) && NotTargeted(s', d)
            && (d in s.dirs ==> AlwaysSurvives(s', d))
            && AlwaysSurvives(Apply(s', Create(d)), d)
  {
    hide Protects;
    var s' := Apply(s, SetJob(jobName, Some(job)));
    assert jobName in s'.jobs && s'.jobs[jobName] == Some(job);
    assert Protected(s'.jobs, d);
    if d in s.dirs {
      SurvivesExactly(s', d);
    }
    SurvivesExactly(Apply(s', Create(d)), d);
  }

  /** Once registered in time, a job's own directories on disk survive every later run in which it stays. */
  lemma OwnDirectoriesSurvive(s: State, jobName: string, job: JobState, events: seq<Event>, d: string)
    requires NoneRemoving(s) && IsOwn(jobName, job, d) && d in s.dirs
    requires StaysRegistered(Apply(s, SetJob(jobName, Some(job))), events, jobName, job)
    ensures d in Final(Apply(s, SetJob(jobName, Some(job))), events).dirs
  {
    hide Protects, ProtectedRun, Final, NoneRemoving;
    var s' := Apply(s, SetJob(jobName, Some(job)));
    var jobs: Jobs := map[jobName := Some(job)];
    OwnDirectoriesProtected(jobs, jobName, job);
    assert Protected(jobs, d);
    RegisteredInTime(s, jobName, job, d);
    StaysProtected(s', events, jobName, job, d);
  }

  /** A run in which the job stays in the map as it is. */
  ghost predicate StaysRegistered(s: State, events: seq<Event>, jobName: string, job: JobState)
    decreases |events|
  {
    && jobName in s.jobs && s.jobs[jobName] == Some(job)
    && (events == [] || (Enabled(s, events[0]) && StaysRegistered(Apply(s, events[0]), events[1..], jobName, job)))
  }

  lemma {:induction false} StaysProtected(s: State, events: seq<Event>, jobName: string, job: JobState, d: string)
    requires StaysRegistered(s, events, jobName, job) && d in Protects(jobName, job)
    ensures ProtectedRun(s, events, d)
    decreases |events|
  {
    hide Protects, Apply, Enabled;
    assert Protected(s.jobs, d);
    if events != [] {
      StaysProtected(Apply(s, events[0]), events[1..], jobName, job, d);
    }
  }

  /** A job that registers after the snapshot is too late: its directory can still be removed. */
  lemma LateRegistrationLosesDirectory(jobName: string)
    requires jobName != ""
    ensures var d := "dl-" + jobName;
            var s := State({d}, map[], []);
            var events := [List, Snapshot(0, false, {}),
                           SetJob(jobName, Some(JobState(jobName, EMPTY_PATH, EMPTY_PATH))), Remove(0, d)];
            d !in Final(s, events).dirs
  {
    var d := "dl-" + jobName;
    assert HasPrefix(d, "dl-");
    var s0 := State({d}, map[], []);
    var s1 := Apply(s0, List);
    var s2 := Apply(s1, Snapshot(0, false, {}));
    assert s2.sweeps[0].Removing? && d in s2.sweeps[0].targets;
    var job := SetJob(jobName, Some(JobState(jobName, EMPTY_PATH, EMPTY_PATH)));
    var s3 := Apply(s2, job);
    var s4 := Apply(s3, Remove(0, d));
    assert d !in s4.dirs;
    var e3 := [Remove(0, d)];
    var e2 := [job] + e3;
    var e1 := [Snapshot(0, false, {})] + e2;
    var e0 := [List] + e1;
    assert e0 == [List, Snapshot(0, false, {}), job, Remove(0, d)];
    assert e0[1..] == e1 && e1[1..] == e2 && e2[1..] == e3 && e3[1..] == [];
    assert Final(s3, e3) == s4;
    assert Final(s2, e2) == s4;
    assert Final(s1, e1) == s4;
  }
}
