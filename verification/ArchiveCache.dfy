/**
 Sharing the work of filling the archive cache, as a step machine: requests, jobs and one sweep, in any
 order. A step is what happens between two awaits, or one call of the file system. Both kinds of copy, the
 inner archive and the solid tree, go through it; they differ in what a rename replaces, in what a failure
 tells the caller, and in that a tree is taken away entry by entry, which may stop half way.
 */
module ArchiveCache {
  import opened Common
  import opened CacheNames

  type Name = string
  type JobId = nat
  type Caller = nat

  /** What a name on disk holds: part of a copy, being written or taken away, or all of what belongs under a final name. */
  datatype Content = Partial | Whole(of: Name)

  datatype Stage = Reserving | Writing | Written | Renamed | Failed | Released(ok: bool)

  datatype Job = Job(final: Name, temp: Name, stage: Stage)

  datatype Call = Checking(path: Name) | Looked(path: Name, found: bool) | Waiting(path: Name, job: JobId) | Answered(path: Name, ok: bool)

  datatype Outcome = Outcome(final: Name, ok: bool)

  /**
   `jobs` are the ones not settled yet, `outcomes` the settled; `used` is every name that was ever on disk
   or chosen; `listed` and `doomed` are what the sweep has read and means to remove.
   */
  datatype State = State(
    disk: map<Name, Content>, inflight: map<Name, JobId>, jobs: map<JobId, Job>, outcomes: map<JobId, Outcome>,
    live: set<Name>, used: set<Name>, callers: map<Caller, Call>, listed: set<Name>, doomed: set<Name>)

  datatype Event =
    | Asks(caller: Caller, path: Name)
    | Looks(caller: Caller)
    | GoesOn(caller: Caller, job: JobId)
    | Reserved(job: JobId, ok: bool, temp: Name)
    | Writes(job: JobId)
    | FinishesWriting(job: JobId)
    | Renames(job: JobId, emptyInPlace: bool)
    | Fails(job: JobId)
    | TearsDown(job: JobId)
    | CleansUp(job: JobId, removed: bool)
    | Releases(job: JobId)
    | Settles(job: JobId)
    | Delivers(caller: Caller)
    | SweepLists
    | SweepPicks(chosen: set<Name>)
    | SweepUnlinks(name: Name)
    | SweepFails(name: Name)
    | SweepRemoves(name: Name)

  predicate HoldsTemp(stage: Stage) { stage.Writing? || stage.Written? || stage.Renamed? || stage.Failed? }

  predicate JobIn(st: State, j: JobId, stage: Stage) { j in st.jobs && st.jobs[j].stage == stage }

  predicate Enabled(st: State, e: Event) {
    match e
    case Asks(c, path) => c !in st.callers && IsCached(path)
    case Looks(c) => c in st.callers && st.callers[c].Checking?
    case GoesOn(c, j) => c in st.callers && st.callers[c].Looked? && j !in st.jobs && j !in st.outcomes
    case Reserved(j, ok, temp) => JobIn(st, j, Reserving) && IsTemporary(temp) && temp !in st.used
    case Writes(j) => JobIn(st, j, Writing)
    case FinishesWriting(j) => JobIn(st, j, Writing)
    case Renames(j, _) => JobIn(st, j, Written)
    case Fails(j) => JobIn(st, j, Writing) || JobIn(st, j, Written)
    case TearsDown(j) => JobIn(st, j, Failed) && IsFolder(st.jobs[j].temp) && st.jobs[j].temp in st.disk
    case CleansUp(j, _) => JobIn(st, j, Failed)
    case Releases(j) => JobIn(st, j, Renamed)
    case Settles(j) => j in st.jobs && st.jobs[j].stage.Released?
    case Delivers(c) => c in st.callers && st.callers[c].Waiting? && st.callers[c].job in st.outcomes
    case SweepLists => true
    case SweepPicks(chosen) =>
      chosen <= st.listed && forall n :: n in chosen ==> IsCached(n) || (IsTemporary(n) && n !in st.live)
    case SweepUnlinks(n) => n in st.doomed && IsFolder(n) && n in st.disk
    case SweepFails(n) => n in st.doomed
    case SweepRemoves(n) => n in st.doomed
  }

  function SetStage(st: State, j: JobId, stage: Stage): State
    requires j in st.jobs
  {
    st.(jobs := st.jobs[j := st.jobs[j].(stage := stage)])
  }

  /** After looking: answer with the copy, join the work in flight, or start it. */
  function OnGoesOn(st: State, c: Caller, j: JobId): State
    requires c in st.callers && st.callers[c].Looked?
  {
    var Looked(path, found) := st.callers[c];
    if found then st.(callers := st.callers[c := Answered(path, true)])
    else if path in st.inflight then st.(callers := st.callers[c := Waiting(path, st.inflight[path])])
    else st.(jobs := st.jobs[j := Job(path, "", Reserving)], inflight := st.inflight[path := j],
             callers := st.callers[c := Waiting(path, j)])
  }

  function OnReserved(st: State, j: JobId, ok: bool, temp: Name): State
    requires j in st.jobs
  {
    if !ok then SetStage(st, j, Released(false))
    else st.(jobs := st.jobs[j := Job(st.jobs[j].final, temp, Writing)], live := st.live + {temp}, used := st.used + {temp})
  }

  /** A tree is a directory, and a rename does not replace one in place unless that one is empty. */
  predicate InTheWay(st: State, final: Name, emptyInPlace: bool) { IsTree(final) && final in st.disk && !emptyInPlace }

  /** The rename is atomic; when the temporary is not there, or a tree is in the way, it fails and the job with it. */
  function OnRenames(st: State, j: JobId, emptyInPlace: bool): State
    requires j in st.jobs
  {
    var job := st.jobs[j];
    if job.temp in st.disk && !InTheWay(st, job.final, emptyInPlace) then
      SetStage(st, j, Renamed).(disk := (st.disk - {job.temp})[job.final := st.disk[job.temp]], used := st.used + {job.final})
    else SetStage(st, j, Failed)
  }

  function OnCleansUp(st: State, j: JobId, removed: bool): State
    requires j in st.jobs
  {
    var temp := st.jobs[j].temp;
    SetStage(st, j, Released(false)).(disk := if removed then st.disk - {temp} else st.disk, live := st.live - {temp})
  }

  function OnSettles(st: State, j: JobId): State
    requires j in st.jobs && st.jobs[j].stage.Released?
  {
    var job := st.jobs[j];
    st.(jobs := st.jobs - {j}, outcomes := st.outcomes[j := Outcome(job.final, job.stage.ok)],
        inflight := st.inflight - {job.final})
  }

  function Step(st: State, e: Event): State
    requires Enabled(st, e)
  {
    match e
    case Asks(c, path) => st.(callers := st.callers[c := Checking(path)])
    case Looks(c) => var path := st.callers[c].path; st.(callers := st.callers[c := Looked(path, path in st.disk)])
    case GoesOn(c, j) => OnGoesOn(st, c, j)
    case Reserved(j, ok, temp) => OnReserved(st, j, ok, temp)
    case Writes(j) => st.(disk := st.disk[st.jobs[j].temp := Partial])
    case FinishesWriting(j) => SetStage(st, j, Written).(disk := st.disk[st.jobs[j].temp := Whole(st.jobs[j].final)])
    case Renames(j, empty) => OnRenames(st, j, empty)
    case Fails(j) => SetStage(st, j, Failed)
    case TearsDown(j) => st.(disk := st.disk[st.jobs[j].temp := Partial])
    case CleansUp(j, removed) => OnCleansUp(st, j, removed)
    case Releases(j) => SetStage(st, j, Released(true)).(live := st.live - {st.jobs[j].temp})
    case Settles(j) => OnSettles(st, j)
    case Delivers(c) =>
      var call := st.callers[c];
      st.(callers := st.callers[c := Answered(call.path, st.outcomes[call.job].ok)])
    case SweepLists => st.(listed := st.disk.Keys)
    case SweepPicks(chosen) => st.(doomed := st.doomed + chosen)
    case SweepUnlinks(n) => st.(disk := st.disk[n := Partial])
    case SweepFails(n) => st.(doomed := st.doomed - {n})
    case SweepRemoves(n) => st.(disk := st.disk - {n}, doomed := st.doomed - {n})
  }

  // ----- What every step keeps

  /** One job in flight for each final name, and one final name for each unsettled job. */
  ghost predicate OneJobEach(st: State) {
    && (forall p :: p in st.inflight ==> st.inflight[p] in st.jobs && st.jobs[st.inflight[p]].final == p)
    && (forall j :: j in st.jobs ==> st.jobs[j].final in st.inflight && st.inflight[st.jobs[j].final] == j
                                     && IsCached(st.jobs[j].final))
    && (forall j :: j in st.jobs ==> j !in st.outcomes)
  }

  /** Under a final name stands a whole copy of its own; only a tree may have lost some of it. */
  ghost predicate FinalsFit(disk: map<Name, Content>) {
    forall n :: n in disk && IsCached(n) ==> disk[n] == Whole(n) || (IsTree(n) && disk[n] == Partial)
  }

  /** A job's temporary name is its own, known to be live, and nothing the sweep means to remove. */
  ghost predicate TempsHeld(st: State) {
    && (forall j :: j in st.jobs && HoldsTemp(st.jobs[j].stage) ==>
          IsTemporary(st.jobs[j].temp) && st.jobs[j].temp in st.live)
    && (forall i, j :: i in st.jobs && j in st.jobs && i != j && HoldsTemp(st.jobs[i].stage) && HoldsTemp(st.jobs[j].stage) ==>
          st.jobs[i].temp != st.jobs[j].temp)
  }

  /** And the sweep is kept off nothing else: a live name is some job's. */
  ghost predicate LiveIsHeld(st: State) {
    forall n :: n in st.live ==> exists j :: j in st.jobs && HoldsTemp(st.jobs[j].stage) && st.jobs[j].temp == n
  }

  ghost predicate SweepSpares(st: State) {
    && st.live <= st.used && st.listed <= st.used && st.doomed <= st.used && st.disk.Keys <= st.used
    && st.doomed !! st.live
    && forall n :: n in st.live ==> IsTemporary(n)
  }

  /** Once written whole, a temporary stays whole until its rename. */
  ghost predicate WrittenStays(st: State) {
    forall j :: JobIn(st, j, Written) ==> st.jobs[j].temp in st.disk && st.disk[st.jobs[j].temp] == Whole(st.jobs[j].final)
  }

  /** A waiting caller waits for a job on what it asked for, settled or not. */
  ghost predicate CallersServed(st: State) {
    forall c :: c in st.callers ==>
      && IsCached(st.callers[c].path)
      && (st.callers[c].Waiting? ==>
            var j := st.callers[c].job;
            || (j in st.jobs && st.jobs[j].final == st.callers[c].path)
            || (j in st.outcomes && st.outcomes[j].final == st.callers[c].path))
  }

  ghost predicate Inv(st: State) {
    && OneJobEach(st) && FinalsFit(st.disk) && TempsHeld(st) && LiveIsHeld(st) && SweepSpares(st)
    && WrittenStays(st) && CallersServed(st)
  }

  /** A step that only moves jobs from one stage to the next leaves who works on what alone. */
  lemma SameWork(st: State, after: State)
    requires OneJobEach(st) && after.inflight == st.inflight && after.outcomes == st.outcomes
    requires after.jobs.Keys == st.jobs.Keys && forall j :: j in st.jobs ==> after.jobs[j].final == st.jobs[j].final
    ensures OneJobEach(after)
  {
    hide IsCached;
  }

  predicate Sweeps(e: Event) { e.SweepUnlinks? || e.SweepFails? || e.SweepRemoves? }

  predicate MovesNoJob(e: Event) { e.Asks? || e.Looks? || e.Delivers? || e.SweepLists? || e.SweepPicks? || Sweeps(e) }

  lemma LeavesJobs(st: State, e: Event)
    requires Enabled(st, e) && MovesNoJob(e)
    ensures Step(st, e).jobs == st.jobs && Step(st, e).live == st.live
    ensures !e.SweepUnlinks? && !e.SweepRemoves? ==> Step(st, e).disk == st.disk
  {
    hide IsFolder, IsCached, IsTemporary;
  }

  lemma MovesOneJob(st: State, e: Event)
    requires Enabled(st, e) && !MovesNoJob(e) && !e.GoesOn? && !e.Settles?
    ensures var j, after := e.job, Step(st, e);
            && j in st.jobs && after.jobs == st.jobs[j := after.jobs[j]] && after.jobs[j].final == st.jobs[j].final
            && after == st.(jobs := after.jobs, disk := after.disk, live := after.live, used := after.used)
  {
    hide IsFolder, IsCached, IsTemporary;
  }

  /** Only going on starts a job and only settling ends one; only asking, looking and delivering move a caller besides. */
  lemma OthersOnlyMoveJobs(st: State, e: Event)
    requires Enabled(st, e) && !e.GoesOn? && !e.Settles?
    ensures Step(st, e).inflight == st.inflight && Step(st, e).outcomes == st.outcomes
    ensures Step(st, e).jobs.Keys == st.jobs.Keys && forall j :: j in st.jobs ==> Step(st, e).jobs[j].final == st.jobs[j].final
    ensures !e.Asks? && !e.Looks? && !e.Delivers? ==> Step(st, e).callers == st.callers
  {
    hide IsFolder, IsCached, IsTemporary;
    if !MovesNoJob(e) {
      MovesOneJob(st, e);
      hide Step, Enabled;
    }
  }

  lemma StartingKeepsOneJobEach(st: State, c: Caller, j: JobId)
    requires OneJobEach(st) && CallersServed(st) && Enabled(st, GoesOn(c, j))
    ensures OneJobEach(OnGoesOn(st, c, j))
  {
    hide IsCached;
  }

  lemma SettlingKeepsOneJobEach(st: State, j: JobId)
    requires OneJobEach(st) && Enabled(st, Settles(j))
    ensures OneJobEach(OnSettles(st, j))
  {
    hide IsCached;
  }

  lemma StepKeepsOneJobEach(st: State, e: Event)
    requires OneJobEach(st) && CallersServed(st) && Enabled(st, e)
    ensures OneJobEach(Step(st, e))
  {
    hide OneJobEach, CallersServed, IsCached, IsTemporary;
    match e
    case GoesOn(c, j) => StartingKeepsOneJobEach(st, c, j);
    case Settles(j) => SettlingKeepsOneJobEach(st, j);
    case _ =>
      OthersOnlyMoveJobs(st, e);
      hide Step, Enabled;
      SameWork(st, Step(st, e));
  }

  lemma StepKeepsFinalsFit(st: State, e: Event)
    requires FinalsFit(st.disk) && TempsHeld(st) && WrittenStays(st) && Enabled(st, e)
    ensures FinalsFit(Step(st, e).disk)
  {
    forall n ensures !(IsCached(n) && IsTemporary(n)) { CachedIsNotTemporary(n); }
    hide IsFolder, IsCached, IsTemporary;
  }

  /** A step after which no more jobs hold their temporaries than before changes nothing for the others. */
  lemma FewerTemps(st: State, after: State)
    requires TempsHeld(st) && after.live == st.live
    requires forall j :: j in after.jobs && HoldsTemp(after.jobs[j].stage) ==>
               j in st.jobs && HoldsTemp(st.jobs[j].stage) && after.jobs[j].temp == st.jobs[j].temp
    ensures TempsHeld(after)
  {
    hide IsTemporary, HoldsTemp;
  }

  lemma StartingKeepsTempsHeld(st: State, c: Caller, j: JobId)
    requires TempsHeld(st) && Enabled(st, GoesOn(c, j))
    ensures TempsHeld(OnGoesOn(st, c, j))
  {
    hide IsFolder, IsCached, IsTemporary, TempsHeld;
    FewerTemps(st, OnGoesOn(st, c, j));
  }

  lemma ReservingKeepsTempsHeld(st: State, j: JobId, ok: bool, temp: Name)
    requires TempsHeld(st) && SweepSpares(st) && Enabled(st, Reserved(j, ok, temp))
    ensures TempsHeld(OnReserved(st, j, ok, temp))
  {
    hide IsFolder, IsCached, IsTemporary;
  }

  lemma LettingGoKeepsTempsHeld(st: State, j: JobId, ok: bool, removed: bool)
    requires TempsHeld(st) && j in st.jobs && HoldsTemp(st.jobs[j].stage)
    ensures TempsHeld(OnCleansUp(st, j, removed))
    ensures TempsHeld(SetStage(st, j, Released(ok)).(live := st.live - {st.jobs[j].temp}))
  {
    hide IsTemporary;
  }

  lemma StepKeepsTempsHeld(st: State, e: Event)
    requires TempsHeld(st) && SweepSpares(st) && Enabled(st, e)
    ensures TempsHeld(Step(st, e))
  {
    hide IsFolder, IsCached, IsTemporary, SweepSpares, TempsHeld;
    if MovesNoJob(e) {
      LeavesJobs(st, e);
      hide Enabled, Step;
      FewerTemps(st, Step(st, e));
    } else if e.GoesOn? {
      StartingKeepsTempsHeld(st, e.caller, e.job);
    } else if e.Reserved? {
      ReservingKeepsTempsHeld(st, e.job, e.ok, e.temp);
    } else if e.CleansUp? {
      LettingGoKeepsTempsHeld(st, e.job, false, e.removed);
    } else if e.Releases? {
      LettingGoKeepsTempsHeld(st, e.job, true, true);
    } else {
      FewerTemps(st, Step(st, e));
    }
  }

  /** A job that goes on holding its name, or lets go of it with the name no longer live, keeps the names held. */
  lemma OneJobMoves(st: State, after: State, j: JobId)
    requires LiveIsHeld(st) && j in st.jobs && j in after.jobs && after.jobs == st.jobs[j := after.jobs[j]]
    requires if HoldsTemp(after.jobs[j].stage) then after.live <= st.live + {after.jobs[j].temp} && (HoldsTemp(st.jobs[j].stage) ==> after.jobs[j].temp == st.jobs[j].temp)
             else after.live == st.live - {st.jobs[j].temp} || (after.live == st.live && !HoldsTemp(st.jobs[j].stage))
    ensures LiveIsHeld(after)
  {
    hide HoldsTemp;
    forall n | n in after.live ensures exists i :: i in after.jobs && HoldsTemp(after.jobs[i].stage) && after.jobs[i].temp == n {
      if n in st.live {
        var i :| i in st.jobs && HoldsTemp(st.jobs[i].stage) && st.jobs[i].temp == n;
        assert i in after.jobs;
      } else {
        assert j in after.jobs;
      }
    }
  }

  lemma StepKeepsLiveIsHeld(st: State, e: Event)
    requires LiveIsHeld(st) && OneJobEach(st) && Enabled(st, e)
    ensures LiveIsHeld(Step(st, e))
  {
    hide IsFolder, IsCached, IsTemporary, IsTree, OneJobEach, LiveIsHeld;
    if MovesNoJob(e) {
      LeavesJobs(st, e);
      hide Step, Enabled;
      SameHolders(st, Step(st, e));
    } else if e.GoesOn? || e.Settles? {
      NothingSettledTwice(st);
      SameHolders(st, Step(st, e));
    } else {
      MovesOneJob(st, e);
      OneJobMoves(st, Step(st, e), e.job);
    }
  }

  lemma SameHolders(st: State, after: State)
    requires LiveIsHeld(st) && after.live == st.live
    requires forall j :: j in st.jobs && HoldsTemp(st.jobs[j].stage) ==> j in after.jobs && after.jobs[j] == st.jobs[j]
    ensures LiveIsHeld(after)
  {
    hide HoldsTemp;
    forall n | n in after.live ensures exists i :: i in after.jobs && HoldsTemp(after.jobs[i].stage) && after.jobs[i].temp == n {
      var i :| i in st.jobs && HoldsTemp(st.jobs[i].stage) && st.jobs[i].temp == n;
      assert i in after.jobs;
    }
  }

  lemma StepKeepsSweepSpares(st: State, e: Event)
    requires TempsHeld(st) && SweepSpares(st) && Enabled(st, e)
    ensures SweepSpares(Step(st, e))
  {
    forall n ensures !(IsCached(n) && IsTemporary(n)) { CachedIsNotTemporary(n); }
    hide IsFolder, IsCached, IsTemporary;
  }

  /** Nothing that leaves the temporaries of other jobs as they are on disk undoes what was written. */
  lemma WrittenUndisturbed(st: State, after: State)
    requires WrittenStays(st)
    requires forall j :: JobIn(after, j, Written) ==>
               && JobIn(st, j, Written) && after.jobs[j] == st.jobs[j]
               && (st.jobs[j].temp in st.disk ==> st.jobs[j].temp in after.disk && after.disk[st.jobs[j].temp] == st.disk[st.jobs[j].temp])
    ensures WrittenStays(after)
  {
  }

  lemma WritingKeepsWrittenStays(st: State, j: JobId, content: Content)
    requires WrittenStays(st) && TempsHeld(st) && JobIn(st, j, Writing)
    ensures WrittenStays(st.(disk := st.disk[st.jobs[j].temp := content]))
    ensures WrittenStays(SetStage(st, j, Written).(disk := st.disk[st.jobs[j].temp := Whole(st.jobs[j].final)]))
  {
    hide IsTemporary;
  }

  lemma RenamingKeepsWrittenStays(st: State, j: JobId, emptyInPlace: bool)
    requires WrittenStays(st) && TempsHeld(st) && OneJobEach(st) && JobIn(st, j, Written)
    ensures WrittenStays(OnRenames(st, j, emptyInPlace))
  {
    forall n ensures !(IsCached(n) && IsTemporary(n)) { CachedIsNotTemporary(n); }
    hide IsFolder, IsCached, IsTemporary;
    WrittenUndisturbed(st, OnRenames(st, j, emptyInPlace));
  }

  lemma CleaningKeepsWrittenStays(st: State, j: JobId, removed: bool)
    requires WrittenStays(st) && TempsHeld(st) && JobIn(st, j, Failed)
    ensures WrittenStays(OnCleansUp(st, j, removed))
  {
    hide IsTemporary;
    WrittenUndisturbed(st, OnCleansUp(st, j, removed));
  }

  lemma SweepingKeepsWrittenStays(st: State, e: Event)
    requires WrittenStays(st) && TempsHeld(st) && SweepSpares(st) && Sweeps(e) && Enabled(st, e)
    ensures WrittenStays(Step(st, e))
  {
    hide IsTemporary, IsFolder, IsCached;
    WrittenUndisturbed(st, Step(st, e));
  }

  lemma TearingKeepsWrittenStays(st: State, j: JobId)
    requires WrittenStays(st) && TempsHeld(st) && JobIn(st, j, Failed)
    ensures WrittenStays(st.(disk := st.disk[st.jobs[j].temp := Partial]))
  {
    hide IsTemporary;
  }

  lemma StepKeepsWrittenStays(st: State, e: Event)
    requires WrittenStays(st) && TempsHeld(st) && SweepSpares(st) && OneJobEach(st) && Enabled(st, e)
    ensures WrittenStays(Step(st, e))
  {
    hide IsFolder, IsCached, IsTemporary, WrittenStays, OneJobEach, TempsHeld, SweepSpares;
    match e
    case Writes(j) => WritingKeepsWrittenStays(st, j, Partial);
    case FinishesWriting(j) => WritingKeepsWrittenStays(st, j, Partial);
    case Renames(j, empty) => RenamingKeepsWrittenStays(st, j, empty);
    case CleansUp(j, removed) => CleaningKeepsWrittenStays(st, j, removed);
    case TearsDown(j) => TearingKeepsWrittenStays(st, j);
    case SweepUnlinks(n) => SweepingKeepsWrittenStays(st, e);
    case SweepFails(n) => SweepingKeepsWrittenStays(st, e);
    case SweepRemoves(n) => SweepingKeepsWrittenStays(st, e);
    case _ =>
      OthersWriteNothing(st, e);
      hide Step, Enabled;
      WrittenUndisturbed(st, Step(st, e));
  }

  lemma OthersWriteNothing(st: State, e: Event)
    requires Enabled(st, e) && !e.Writes? && !e.FinishesWriting? && !e.Renames?
    requires !e.TearsDown? && !e.CleansUp? && !Sweeps(e)
    ensures Step(st, e).disk == st.disk
    ensures forall j :: JobIn(Step(st, e), j, Written) ==> JobIn(st, j, Written) && Step(st, e).jobs[j] == st.jobs[j]
  {
    hide IsFolder, IsCached, IsTemporary;
    if MovesNoJob(e) {
      LeavesJobs(st, e);
      hide Step, Enabled;
    }
  }

  lemma JoiningIsServed(st: State, c: Caller, j: JobId)
    requires CallersServed(st) && OneJobEach(st) && Enabled(st, GoesOn(c, j))
    ensures CallersServed(OnGoesOn(st, c, j))
  {
    hide IsFolder, IsCached, IsTemporary;
  }

  lemma SettlingServes(st: State, j: JobId)
    requires CallersServed(st) && OneJobEach(st) && Enabled(st, Settles(j))
    ensures CallersServed(OnSettles(st, j))
  {
    hide IsFolder, IsCached, IsTemporary;
  }

  /** Callers who wait for nothing are served, so it is enough that the path asked for stays. */
  lemma MovingOnIsServed(st: State, c: Caller, call: Call)
    requires CallersServed(st) && IsCached(call.path) && !call.Waiting?
    ensures CallersServed(st.(callers := st.callers[c := call]))
  {
    hide IsCached;
  }

  /** Jobs that only change their stage are still there for those who wait. */
  lemma StillServed(st: State, after: State)
    requires CallersServed(st) && after.callers == st.callers && after.outcomes == st.outcomes
    requires after.jobs.Keys == st.jobs.Keys && forall j :: j in st.jobs ==> after.jobs[j].final == st.jobs[j].final
    ensures CallersServed(after)
  {
    hide IsCached;
  }

  lemma PathIsCached(st: State, c: Caller)
    requires CallersServed(st) && c in st.callers
    ensures IsCached(st.callers[c].path)
  {
    hide IsCached;
  }

  lemma AnsweringIsServed(st: State, e: Event)
    requires CallersServed(st) && Enabled(st, e) && (e.Looks? || e.Delivers?)
    ensures CallersServed(Step(st, e))
  {
    var c := e.caller;
    PathIsCached(st, c);
    hide CallersServed, IsCached, IsTemporary;
    MovingOnIsServed(st, c, Step(st, e).callers[c]);
  }

  lemma StepKeepsCallersServed(st: State, e: Event)
    requires CallersServed(st) && OneJobEach(st) && Enabled(st, e)
    ensures CallersServed(Step(st, e))
  {
    hide IsFolder, IsCached, IsTemporary, CallersServed, OneJobEach;
    match e
    case GoesOn(c, j) => JoiningIsServed(st, c, j);
    case Settles(j) => SettlingServes(st, j);
    case Asks(c, path) => MovingOnIsServed(st, c, Checking(path));
    case Looks(c) => AnsweringIsServed(st, e);
    case Delivers(c) => AnsweringIsServed(st, e);
    case _ =>
      OthersOnlyMoveJobs(st, e);
      hide Step, Enabled;
      StillServed(st, Step(st, e));
  }

  lemma StepKeepsInv(st: State, e: Event)
    requires Inv(st) && Enabled(st, e)
    ensures Inv(Step(st, e))
  {
    StepKeepsOneJobEach(st, e);
    StepKeepsFinalsFit(st, e);
    StepKeepsTempsHeld(st, e);
    StepKeepsLiveIsHeld(st, e);
    StepKeepsSweepSpares(st, e);
    StepKeepsWrittenStays(st, e);
    StepKeepsCallersServed(st, e);
    hide Step, Enabled, OneJobEach, FinalsFit, TempsHeld, LiveIsHeld, SweepSpares, WrittenStays, CallersServed;
  }

  // ----- Runs

  /** A directory as an earlier run may have left it: copies, and temporaries nobody is writing. */
  function Start(disk: map<Name, Content>): State {
    State(disk, map[], map[], map[], {}, disk.Keys, map[], {}, {})
  }

  ghost predicate Follows(events: seq<Event>, states: seq<State>) {
    && |states| == |events| + 1
    && forall i :: 0 <= i < |events| ==> Enabled(states[i], events[i]) && states[i + 1] == Step(states[i], events[i])
  }

  ghost predicate IsRun(st: State, events: seq<Event>, states: seq<State>) {
    Follows(events, states) && states[0] == st
  }

  lemma {:induction false} RunKeepsInv(st: State, events: seq<Event>, states: seq<State>, k: nat)
    requires Inv(st) && IsRun(st, events, states) && k <= |events|
    ensures Inv(states[k])
  {
    if k > 0 {
      hide Inv, Step, Enabled;
      RunKeepsInv(st, events, states, k - 1);
      StepKeepsInv(states[k - 1], events[k - 1]);
    }
  }

  lemma StartIsFine(disk: map<Name, Content>)
    requires FinalsFit(disk)
    ensures Inv(Start(disk))
  {
  }

  /**
   In every state of every run: two unsettled jobs never work on the same copy, a file under a final name is
   whole, no name the sweep is about to remove is one a job still writes or has yet to rename, and a name the
   sweep is kept off is some job's.
   */
  lemma CacheIsSafe(disk: map<Name, Content>, events: seq<Event>, states: seq<State>, k: nat)
    requires FinalsFit(disk) && IsRun(Start(disk), events, states) && k <= |events|
    ensures var st := states[k];
            && (forall i, j :: i in st.jobs && j in st.jobs && st.jobs[i].final == st.jobs[j].final ==> i == j)
            && (forall n :: n in st.disk && IsCached(n) && !IsTree(n) ==> st.disk[n] == Whole(n))
            && (forall n, j :: n in st.doomed && j in st.jobs && HoldsTemp(st.jobs[j].stage) ==> st.jobs[j].temp != n)
            && (forall n :: n in st.live ==> exists j :: j in st.jobs && HoldsTemp(st.jobs[j].stage) && st.jobs[j].temp == n)
  {
    StartIsFine(disk);
    RunKeepsInv(Start(disk), events, states, k);
    hide IsFolder, IsTree, IsCached, IsTemporary, IsRun;
  }

  /**
   So the rename of a written copy always finds it. It puts the whole copy in place unless a tree that is not
   empty is there already; then the job fails, and what there is of that tree stays.
   */
  lemma RenameFindsTheCopy(disk: map<Name, Content>, events: seq<Event>, states: seq<State>, k: nat, j: JobId, empty: bool)
    requires FinalsFit(disk) && IsRun(Start(disk), events, states) && k < |events| && events[k] == Renames(j, empty)
    ensures j in states[k].jobs && states[k].jobs[j].temp in states[k].disk && j in states[k + 1].jobs
    ensures var st, after, final := states[k], states[k + 1], states[k].jobs[j].final;
            if IsTree(final) && final in st.disk && !empty
            then after.jobs[j].stage == Failed && after.disk == st.disk
            else after.jobs[j].stage == Renamed && final in after.disk && after.disk[final] == Whole(final)
  {
    StartIsFine(disk);
    RunKeepsInv(Start(disk), events, states, k);
    hide IsFolder, IsCached, IsTemporary, IsTree, OneJobEach, FinalsFit, TempsHeld, SweepSpares, CallersServed;
  }

  // ----- What stands under a tree's name

  /** The event puts a copy in place under this name: the copy is there, and no tree that holds something is in the way. */
  ghost predicate PutsInPlace(st: State, e: Event, n: Name) {
    && e.Renames? && JobIn(st, e.job, Written) && st.jobs[e.job].final == n && st.jobs[e.job].temp in st.disk
    && (IsTree(n) && n in st.disk ==> e.emptyInPlace)
  }

  ghost predicate PutInPlaceAfter(events: seq<Event>, states: seq<State>, from: nat, k: nat, n: Name)
    requires |states| == |events| + 1 && k <= |events|
  {
    exists m :: from <= m < k && PutsInPlace(states[m], events[m], n)
  }

  /** Only the unlinking of its entries and a rename change a tree in place. */
  lemma TreeUntouched(st: State, e: Event, n: Name)
    requires Enabled(st, e) && TempsHeld(st) && IsTree(n) && n in Step(st, e).disk
    requires e != SweepUnlinks(n) && !e.Renames?
    ensures n in st.disk && Step(st, e).disk[n] == st.disk[n]
  {
    CachedIsNotTemporary(n);
    assert !IsTemporary(n);
    hide IsFolder, IsCached, IsTemporary, IsTree, Step;
    DiskAfter(st, e, n);
  }

  lemma TreeAtRename(st: State, j: JobId, empty: bool, n: Name)
    requires JobIn(st, j, Written) && TempsHeld(st) && WrittenStays(st) && IsTree(n)
    requires n in OnRenames(st, j, empty).disk
    ensures var after := OnRenames(st, j, empty);
            if JobIn(after, j, Renamed) && st.jobs[j].final == n then after.disk[n] == Whole(n)
            else n in st.disk && after.disk[n] == st.disk[n]
  {
    CachedIsNotTemporary(n);
    assert !IsTemporary(n);
    hide IsFolder, IsCached, IsTemporary, IsTree;
  }

  /** What one event does to a tree in place. */
  lemma TreeAfterStep(st: State, e: Event, n: Name)
    requires Inv(st) && Enabled(st, e) && IsTree(n) && n in Step(st, e).disk
    ensures e == SweepUnlinks(n) ==> Step(st, e).disk[n] != Whole(n) && !PutsInPlace(st, e, n)
    ensures PutsInPlace(st, e, n) ==> Step(st, e).disk[n] == Whole(n) && Step(st, e).jobs[e.job].stage == Renamed
    ensures e != SweepUnlinks(n) && !PutsInPlace(st, e, n) ==> n in st.disk && Step(st, e).disk[n] == st.disk[n]
  {
    hide IsFolder, IsCached, IsTemporary, IsTree, OneJobEach, FinalsFit, TempsHeld, LiveIsHeld, SweepSpares, WrittenStays, CallersServed;
    if e.Renames? {
      TreeAtRename(st, e.job, e.emptyInPlace, n);
    } else if e != SweepUnlinks(n) {
      TreeUntouched(st, e, n);
      hide Step, Enabled;
    }
  }

  /** Since the copy under this name was put in place, or since the start, its removal has not begun. */
  ghost predicate NotBegun(disk: map<Name, Content>, events: seq<Event>, states: seq<State>, k: nat, n: Name)
    requires |states| == |events| + 1 && k <= |events|
  {
    && (forall i :: 0 <= i < k && events[i] == SweepUnlinks(n) ==> PutInPlaceAfter(events, states, i + 1, k, n))
    && (n in disk && disk[n] != Whole(n) ==> PutInPlaceAfter(events, states, 0, k, n))
  }

  lemma NotBegunGoesOn(disk: map<Name, Content>, events: seq<Event>, states: seq<State>, k: nat, n: Name)
    requires |states| == |events| + 1 && k < |events|
    ensures if PutsInPlace(states[k], events[k], n) then NotBegun(disk, events, states, k + 1, n)
            else NotBegun(disk, events, states, k + 1, n) <==> NotBegun(disk, events, states, k, n) && events[k] != SweepUnlinks(n)
  {
    assert PutsInPlace(states[k], events[k], n) ==> events[k].Renames?;
    hide PutsInPlace;
    forall i: nat | i <= k
      ensures PutInPlaceAfter(events, states, i, k + 1, n) <==>
              PutInPlaceAfter(events, states, i, k, n) || PutsInPlace(states[k], events[k], n)
    {
    }
    assert !PutInPlaceAfter(events, states, k + 1, k + 1, n);
    hide PutInPlaceAfter;
  }

  /** A tree in place is whole exactly when its removal has not begun since it was put there. */
  lemma {:induction false} TreeIsWholeExactly(disk: map<Name, Content>, events: seq<Event>, states: seq<State>, k: nat, n: Name)
    requires FinalsFit(disk) && IsRun(Start(disk), events, states) && k <= |events|
    requires IsTree(n) && n in states[k].disk
    ensures states[k].disk[n] == Whole(n) <==> NotBegun(disk, events, states, k, n)
  {
    hide Inv, Step, Enabled, IsTree, PutsInPlace, FinalsFit;
    if k > 0 {
      StartIsFine(disk);
      RunKeepsInv(Start(disk), events, states, k - 1);
      TreeAfterStep(states[k - 1], events[k - 1], n);
      NotBegunGoesOn(disk, events, states, k - 1, n);
      hide NotBegun;
      if events[k - 1] != SweepUnlinks(n) && !PutsInPlace(states[k - 1], events[k - 1], n) {
        TreeIsWholeExactly(disk, events, states, k - 1, n);
      }
    }
  }

  // ----- What an event changes

  ghost function Holds(disk: map<Name, Content>, n: Name): Option<Content> { if n in disk then Some(disk[n]) else None }

  /** What stands under a name after an event: only the event's own job, or the sweep, changes one. */
  lemma DiskAfter(st: State, e: Event, n: Name)
    requires Enabled(st, e)
    ensures Holds(Step(st, e).disk, n) ==
            match e
            case Writes(j) => if n == st.jobs[j].temp then Some(Partial) else Holds(st.disk, n)
            case FinishesWriting(j) => if n == st.jobs[j].temp then Some(Whole(st.jobs[j].final)) else Holds(st.disk, n)
            case Renames(j, _) =>
              if !PutsInPlace(st, e, st.jobs[j].final) then Holds(st.disk, n)
              else if n == st.jobs[j].final then Holds(st.disk, st.jobs[j].temp)
              else if n == st.jobs[j].temp then None
              else Holds(st.disk, n)
            case TearsDown(j) => if n == st.jobs[j].temp then Some(Partial) else Holds(st.disk, n)
            case CleansUp(j, removed) => if n == st.jobs[j].temp && removed then None else Holds(st.disk, n)
            case SweepUnlinks(swept) => if n == swept then Some(Partial) else Holds(st.disk, n)
            case SweepRemoves(swept) => if n == swept then None else Holds(st.disk, n)
            case _ => Holds(st.disk, n)
  {
    hide IsFolder, IsCached, IsTemporary, IsTree;
  }

  /** How a job goes on: each event takes it to its next stage, and without room it is over before it has a name. */
  lemma JobAfter(st: State, e: Event)
    requires Enabled(st, e) && !MovesNoJob(e) && !e.GoesOn? && !e.Settles?
    ensures var job, after := st.jobs[e.job], Step(st, e).jobs[e.job];
            match e
            case Reserved(_, ok, temp) => after == if ok then Job(job.final, temp, Writing) else job.(stage := Released(false))
            case FinishesWriting(_) => after == job.(stage := Written)
            case Renames(_, _) => after == job.(stage := if PutsInPlace(st, e, job.final) then Renamed else Failed)
            case Fails(_) => after == job.(stage := Failed)
            case CleansUp(_, _) => after == job.(stage := Released(false))
            case Releases(_) => after == job.(stage := Released(true))
            case _ => after == job
    ensures Step(st, e).live ==
            match e
            case Reserved(_, ok, temp) => if ok then st.live + {temp} else st.live
            case CleansUp(j, _) => st.live - {st.jobs[j].temp}
            case Releases(j) => st.live - {st.jobs[j].temp}
            case _ => st.live
  {
    hide IsFolder, IsCached, IsTemporary, IsTree;
  }

  /** Settled, a job is nobody's to join any more, and its outcome is as it ended. */
  lemma SettlingEnds(st: State, j: JobId)
    requires OneJobEach(st) && Enabled(st, Settles(j))
    ensures var job, after := st.jobs[j], Step(st, Settles(j));
            && after.jobs == st.jobs - {j} && after.inflight == st.inflight - {job.final}
            && after.outcomes == st.outcomes[j := Outcome(job.final, job.stage == Released(true))]
  {
    hide IsCached;
  }

  /** The sweep removes what it picked, once, from what it found when it listed. */
  lemma SweepGoesOn(st: State, e: Event)
    requires Enabled(st, e) && (e.SweepLists? || e.SweepPicks? || Sweeps(e))
    ensures Step(st, e).listed == if e.SweepLists? then st.disk.Keys else st.listed
    ensures forall n :: n in Step(st, e).doomed <==>
              (n in st.doomed || (e.SweepPicks? && n in e.chosen)) && !((e.SweepFails? || e.SweepRemoves?) && e.name == n)
  {
    hide IsFolder, IsCached, IsTemporary, IsTree;
  }

  /** What the sweep may take of what it found: cached copies, and temporaries no job holds; a folder also in parts. */
  lemma SweepMayTake(st: State, n: Name)
    ensures Enabled(st, SweepPicks({n})) <==> n in st.listed && (IsCached(n) || (IsTemporary(n) && n !in st.live))
    ensures n in st.doomed ==> Enabled(st, SweepFails(n)) && Enabled(st, SweepRemoves(n))
    ensures n in st.doomed && n in st.disk && IsFolder(n) <==> Enabled(st, SweepUnlinks(n))
  {
    hide IsFolder, IsCached, IsTemporary, IsTree;
    assert {n} <= st.listed <==> n in st.listed;
  }

  /** No job is ever stuck, and at each stage it is up to what it meets how it goes on. */
  lemma JobsGoOn(st: State, j: JobId, temp: Name)
    requires j in st.jobs && IsTemporary(temp) && temp !in st.used
    ensures match st.jobs[j].stage
            case Reserving => Enabled(st, Reserved(j, true, temp)) && Enabled(st, Reserved(j, false, temp))
            case Writing => Enabled(st, Writes(j)) && Enabled(st, FinishesWriting(j)) && Enabled(st, Fails(j))
            case Written => Enabled(st, Renames(j, true)) && Enabled(st, Renames(j, false)) && Enabled(st, Fails(j))
            case Renamed => Enabled(st, Releases(j))
            case Failed =>
              && Enabled(st, CleansUp(j, true)) && Enabled(st, CleansUp(j, false))
              && (st.jobs[j].temp in st.disk && IsFolder(st.jobs[j].temp) ==> Enabled(st, TearsDown(j)))
            case Released(_) => Enabled(st, Settles(j))
  {
    hide IsFolder, IsCached, IsTemporary, IsTree;
  }

  // ----- What an answer tells

  /** The job's copy, of this name, has been put in place. */
  ghost predicate Placed(st: State, j: JobId, n: Name) {
    || (j in st.jobs && st.jobs[j].final == n && (st.jobs[j].stage == Renamed || st.jobs[j].stage == Released(true)))
    || (j in st.outcomes && st.outcomes[j] == Outcome(n, true))
  }

  ghost predicate PlacedBy(st: State, e: Event, j: JobId, n: Name) { e.Renames? && e.job == j && PutsInPlace(st, e, n) }

  /** Nothing but the rename of its copy puts a job's copy in place, and nothing takes that back. */
  lemma PlacedOnce(st: State, e: Event, j: JobId, n: Name)
    requires OneJobEach(st) && Enabled(st, e)
    ensures Placed(Step(st, e), j, n) <==> Placed(st, j, n) || PlacedBy(st, e, j, n)
  {
    hide IsFolder, IsCached, IsTemporary, IsTree, OneJobEach;
    if MovesNoJob(e) {
      LeavesJobs(st, e);
      OthersOnlyMoveJobs(st, e);
      hide Step, Enabled, PutsInPlace;
    } else if e.GoesOn? || e.Settles? {
      NothingSettledTwice(st);
      hide PutsInPlace;
    } else {
      MovesOneJob(st, e);
      OthersOnlyMoveJobs(st, e);
      StageMoves(st, e);
      hide Step, Enabled, PutsInPlace;
    }
  }

  /** What becomes of the job an event is about, as far as its copy being in place goes. */
  lemma StageMoves(st: State, e: Event)
    requires Enabled(st, e) && !MovesNoJob(e) && !e.GoesOn? && !e.Settles?
    ensures var before, after := st.jobs[e.job], Step(st, e).jobs[e.job];
            (after.stage == Renamed || after.stage == Released(true)) <==>
            before.stage == Renamed || before.stage == Released(true) || PutsInPlace(st, e, before.final)
  {
    hide IsFolder, IsCached, IsTemporary, IsTree;
  }

  ghost predicate PlacedBefore(events: seq<Event>, states: seq<State>, k: nat, j: JobId, n: Name)
    requires |states| == |events| + 1 && k <= |events|
  {
    exists m :: 0 <= m < k && PlacedBy(states[m], events[m], j, n)
  }

  lemma {:induction false} PlacedExactly(disk: map<Name, Content>, events: seq<Event>, states: seq<State>, k: nat, j: JobId, n: Name)
    requires FinalsFit(disk) && IsRun(Start(disk), events, states) && k <= |events|
    ensures Placed(states[k], j, n) <==> PlacedBefore(events, states, k, j, n)
  {
    hide Step, Enabled, PlacedBy, FinalsFit;
    if k > 0 {
      PlacedExactly(disk, events, states, k - 1, j, n);
      StartIsFine(disk);
      RunKeepsInv(Start(disk), events, states, k - 1);
      StepOfRun(Start(disk), events, states, k - 1);
      PlacedBeforeGrows(events, states, k - 1, j, n);
      hide Placed, PlacedBefore, IsRun, Start;
      PlacedOnce(states[k - 1], events[k - 1], j, n);
    }
  }

  lemma PlacedBeforeGrows(events: seq<Event>, states: seq<State>, k: nat, j: JobId, n: Name)
    requires |states| == |events| + 1 && k < |events|
    ensures PlacedBefore(events, states, k + 1, j, n) <==>
            PlacedBefore(events, states, k, j, n) || PlacedBy(states[k], events[k], j, n)
  {
    hide PlacedBy;
  }

  /** In every run, the outcome of a settled job is a success exactly when its copy was put in place by that job. */
  lemma OutcomeIsRight(disk: map<Name, Content>, events: seq<Event>, states: seq<State>, k: nat, j: JobId, n: Name)
    requires FinalsFit(disk) && IsRun(Start(disk), events, states) && k <= |events| && j in states[k].outcomes
    ensures states[k].outcomes[j] == Outcome(n, true) <==> PlacedBefore(events, states, k, j, n)
  {
    PlacedExactly(disk, events, states, k, j, n);
    StartIsFine(disk);
    RunKeepsInv(Start(disk), events, states, k);
    NothingSettledTwice(states[k]);
    hide IsRun, Start, OneJobEach, PlacedBefore;
  }

  /** Whoever joined a job is told of success exactly when that job has put the copy they asked for in place. */
  lemma JoinedAnswerIsRight(disk: map<Name, Content>, events: seq<Event>, states: seq<State>, k: nat, c: Caller)
    requires FinalsFit(disk) && IsRun(Start(disk), events, states) && k < |events| && events[k] == Delivers(c)
    ensures c in states[k].callers && states[k].callers[c].Waiting? && c in states[k + 1].callers
    ensures var call, after := states[k].callers[c], states[k + 1].callers[c];
            && after.Answered? && after.path == call.path
            && (after.ok <==> PlacedBefore(events, states, k, call.job, call.path))
  {
    StepOfRun(Start(disk), events, states, k);
    StartIsFine(disk);
    RunKeepsInv(Start(disk), events, states, k);
    DeliveredIsForPath(states[k], c);
    OutcomeIsRight(disk, events, states, k, states[k].callers[c].job, states[k].callers[c].path);
    hide IsRun, Start, Step, Inv, PlacedBefore;
  }

  /** What a caller who looked is told: what was on disk at that look. */
  lemma {:induction false} LookedTells(events: seq<Event>, states: seq<State>, k: nat, c: Caller, path: Name, found: bool)
    requires Follows(events, states) && states[0].callers == map[] && k <= |events|
    requires c in states[k].callers && states[k].callers[c] == Looked(path, found)
    ensures exists m :: 0 <= m < k && events[m] == Looks(c) && (found <==> path in states[m].disk)
  {
    hide Step, Enabled;
    assert k > 0;
    StepOfRun(states[0], events, states, k - 1);
    hide Follows;
    LookIsNew(states[k - 1], events[k - 1], c, path, found);
    if events[k - 1] != Looks(c) { LookedTells(events, states, k - 1, c, path, found); }
  }

  lemma LookIsNew(st: State, e: Event, c: Caller, path: Name, found: bool)
    requires Enabled(st, e) && c in Step(st, e).callers && Step(st, e).callers[c] == Looked(path, found)
    ensures if e == Looks(c) then found <==> path in st.disk
            else c in st.callers && st.callers[c] == Looked(path, found)
  {
    hide IsFolder, IsCached, IsTemporary, IsTree;
  }

  /** Going on, a caller who found the copy is answered with it, one who did not waits for a job on it, of theirs or in flight. */
  lemma GoingOn(st: State, c: Caller, j: JobId)
    requires OneJobEach(st) && Enabled(st, GoesOn(c, j))
    ensures c in Step(st, GoesOn(c, j)).callers
    ensures var path, after := st.callers[c].path, Step(st, GoesOn(c, j));
            && (if st.callers[c].found then after.callers[c] == Answered(path, true) && after.jobs == st.jobs
                else && after.callers[c].Waiting? && after.callers[c].path == path && path in after.inflight
                     && after.callers[c].job == after.inflight[path]
                     && after.jobs == if path in st.inflight then st.jobs else st.jobs[j := Job(path, "", Reserving)])
  {
    hide IsFolder, IsCached, IsTemporary, IsTree;
  }

  // ----- A job that starts late

  lemma Continued(events: seq<Event>, states: seq<State>, e: Event) returns (events': seq<Event>, states': seq<State>)
    requires Follows(events, states) && Enabled(states[|events|], e)
    ensures Follows(events', states') && states'[0] == states[0]
    ensures |events'| == |events| + 1 && events'[|events|] == e
    ensures states'[|events|] == states[|events|] && states'[|events'|] == Step(states[|events|], e)
  {
    hide Enabled, Step;
    events', states' := events + [e], states + [Step(states[|events|], e)];
  }

  /** A caller who found nothing starts a job, and the job writes its copy. */
  lemma JobWrites(events: seq<Event>, states: seq<State>, c: Caller, path: Name, j: JobId, temp: Name)
    returns (events': seq<Event>, states': seq<State>)
    requires Follows(events, states)
    requires var st := states[|events|];
             && c in st.callers && st.callers[c] == Looked(path, false) && path !in st.inflight
             && j !in st.jobs && j !in st.outcomes && IsTemporary(temp) && temp !in st.used
    ensures Follows(events', states') && states'[0] == states[0]
    ensures var st := states[|events|];
            states'[|events'|] == st.(
              jobs := st.jobs[j := Job(path, temp, Written)], inflight := st.inflight[path := j],
              callers := st.callers[c := Waiting(path, j)], live := st.live + {temp}, used := st.used + {temp},
              disk := st.disk[temp := Whole(path)])
  {
    var st := states[|events|];
    hide IsFolder, IsCached, IsTemporary, IsTree, Follows;
    events', states' := Continued(events, states, GoesOn(c, j));
    var started := states'[|events'|];
    assert started == st.(jobs := st.jobs[j := Job(path, "", Reserving)], inflight := st.inflight[path := j],
                          callers := st.callers[c := Waiting(path, j)]);
    events', states' := ReservedWrites(events', states', path, j, temp);
    assert started.jobs[j := Job(path, temp, Written)] == st.jobs[j := Job(path, temp, Written)];
  }

  lemma ReservedWrites(events: seq<Event>, states: seq<State>, path: Name, j: JobId, temp: Name)
    returns (events': seq<Event>, states': seq<State>)
    requires Follows(events, states)
    requires var st := states[|events|];
             j in st.jobs && st.jobs[j] == Job(path, "", Reserving) && IsTemporary(temp) && temp !in st.used
    ensures Follows(events', states') && states'[0] == states[0]
    ensures var st := states[|events|];
            states'[|events'|] == st.(
              jobs := st.jobs[j := Job(path, temp, Written)], live := st.live + {temp}, used := st.used + {temp},
              disk := st.disk[temp := Whole(path)])
  {
    var st := states[|events|];
    hide IsFolder, IsCached, IsTemporary, IsTree, Follows;
    events', states' := Continued(events, states, Reserved(j, true, temp));
    events', states' := Continued(events', states', FinishesWriting(j));
    assert st.jobs[j := Job(path, temp, Writing)][j := Job(path, temp, Written)] == st.jobs[j := Job(path, temp, Written)];
  }

  /** Two callers who looked before there was a tree. */
  lemma BothLook(path: Name) returns (events: seq<Event>, states: seq<State>)
    requires IsTree(path)
    ensures Follows(events, states) && states[0] == Start(map[])
    ensures states[|events|] == Start(map[]).(callers := map[0 := Looked(path, false), 1 := Looked(path, false)])
  {
    events, states := [], [Start(map[])];
    events, states := Continued(events, states, Asks(0, path));
    events, states := Continued(events, states, Asks(1, path));
    events, states := Continued(events, states, Looks(0));
    events, states := Continued(events, states, Looks(1));
    assert map[0 := Checking(path), 1 := Checking(path)][0 := Looked(path, false)][1 := Looked(path, false)]
        == map[0 := Looked(path, false), 1 := Looked(path, false)];
  }

  /** The first of them has its tree put in place, and the work is over before the second goes on. */
  lemma FirstIsServed(path: Name, temp: Name) returns (events: seq<Event>, states: seq<State>)
    requires IsTree(path) && IsTemporary(temp)
    ensures Follows(events, states) && states[0] == Start(map[])
    ensures var st := states[|events|];
            && st.disk == map[path := Whole(path)] && st.inflight == map[] && st.jobs == map[] && st.used == {temp, path}
            && st.outcomes == map[0 := Outcome(path, true)] && 1 in st.callers && st.callers[1] == Looked(path, false)
            && 2 !in st.callers && st.doomed == {}
  {
    CachedIsNotTemporary(temp);
    events, states := BothLook(path);
    events, states := JobWrites(events, states, 0, path, 0, temp);
    hide IsFolder, IsCached, IsTemporary, Enabled, Step;
    events, states := RenameWorks(events, states, 0, path, temp);
    assert map[temp := Whole(path)] - {temp} == map[];
    assert map[0 := Job(path, temp, Written)] - {0} == map[] && map[path := 0] - {path} == map[];
  }

  /** A job whose copy goes in place, to the end. */
  lemma RenameWorks(events: seq<Event>, states: seq<State>, j: JobId, path: Name, temp: Name)
    returns (events': seq<Event>, states': seq<State>)
    requires Follows(events, states)
    requires var st := states[|events|];
             j in st.jobs && st.jobs[j] == Job(path, temp, Written) && temp in st.disk && path !in st.disk
    ensures Follows(events', states') && states'[0] == states[0]
    ensures var st, after := states[|events|], states'[|events'|];
            && after.disk == (st.disk - {temp})[path := st.disk[temp]] && after.used == st.used + {path}
            && after.jobs == st.jobs - {j} && after.inflight == st.inflight - {path}
            && after.outcomes == st.outcomes[j := Outcome(path, true)] && after.callers == st.callers
            && after.doomed == st.doomed
  {
    hide IsFolder, IsCached, IsTemporary, IsTree;
    events', states' := Continued(events, states, Renames(j, false));
    hide Follows;
    events', states' := Continued(events', states', Releases(j));
    events', states' := Continued(events', states', Settles(j));
  }

  /**
   A caller who looked before a tree was there, and goes on after the job that made it is over, starts
   another; its rename fails, and the caller is answered with nothing although the whole tree is in place.
   */
  lemma LateStartIsAnsweredNothing(path: Name, temp: Name, temp': Name) returns (events: seq<Event>, states: seq<State>)
    requires IsTree(path) && IsTemporary(temp) && IsTemporary(temp') && temp != temp'
    ensures IsRun(Start(map[]), events, states)
    ensures var st := states[|events|];
            && 1 in st.callers && st.callers[1] == Answered(path, false)
            && path in st.disk && st.disk[path] == Whole(path)
  {
    CachedIsNotTemporary(temp');
    events, states := FirstIsServed(path, temp);
    events, states := JobWrites(events, states, 1, path, 1, temp');
    hide IsFolder, IsCached, IsTemporary, Enabled, Step;
    events, states := RenameFails(events, states, 1, 1, path);
  }

  /**
   A tree is put in place, its removal begins and then fails; a caller who asks afterwards is told that the
   tree is there, and gets what is left of it.
   */
  lemma AnsweredWithPartOfATree(path: Name, temp: Name) returns (events: seq<Event>, states: seq<State>)
    requires IsTree(path) && IsTemporary(temp)
    ensures IsRun(Start(map[]), events, states)
    ensures var st := states[|events|];
            && 2 in st.callers && st.callers[2] == Answered(path, true)
            && path in st.disk && st.disk[path] == Partial && st.doomed == {}
  {
    events, states := FirstIsServed(path, temp);
    hide IsTemporary, IsTree;
    events, states := SweepStopsHalfWay(events, states, path);
    events, states := Continued(events, states, Asks(2, path));
    events, states := Continued(events, states, Looks(2));
    events, states := Continued(events, states, GoesOn(2, 1));
  }

  lemma SweepStopsHalfWay(events: seq<Event>, states: seq<State>, path: Name)
    returns (events': seq<Event>, states': seq<State>)
    requires Follows(events, states) && IsTree(path) && path in states[|events|].disk && states[|events|].doomed == {}
    ensures Follows(events', states') && states'[0] == states[0]
    ensures var st, after := states[|events|], states'[|events'|];
            after == st.(disk := st.disk[path := Partial], listed := st.disk.Keys)
  {
    var st := states[|events|];
    hide IsTemporary, IsTree;
    events', states' := Continued(events, states, SweepLists);
    events', states' := Continued(events', states', SweepPicks({path}));
    events', states' := Continued(events', states', SweepUnlinks(path));
    events', states' := Continued(events', states', SweepFails(path));
    assert st.doomed + {path} - {path} == st.doomed;
  }

  /** A job whose tree is in place already fails, and the caller who waits for it is answered with nothing. */
  lemma RenameFails(events: seq<Event>, states: seq<State>, c: Caller, j: JobId, path: Name)
    returns (events': seq<Event>, states': seq<State>)
    requires Follows(events, states) && IsTree(path)
    requires var st := states[|events|];
             && JobIn(st, j, Written) && st.jobs[j].final == path && path in st.disk && st.jobs[j].temp != path
             && c in st.callers && st.callers[c] == Waiting(path, j)
    ensures Follows(events', states') && states'[0] == states[0]
    ensures var st, after := states[|events|], states'[|events'|];
            && c in after.callers && after.callers[c] == Answered(path, false)
            && path in after.disk && after.disk[path] == st.disk[path]
  {
    hide IsFolder, IsCached, IsTemporary, IsTree;
    events', states' := Continued(events, states, Renames(j, false));
    hide Follows;
    events', states' := Continued(events', states', CleansUp(j, true));
    events', states' := Continued(events', states', Settles(j));
    events', states' := Continued(events', states', Delivers(c));
  }

  ghost predicate Settled(st: State, j: JobId, outcome: Outcome) { j in st.outcomes && st.outcomes[j] == outcome }

  lemma OutcomeIsFinal(st: State, e: Event, j: JobId, outcome: Outcome)
    requires Inv(st) && Enabled(st, e) && Settled(st, j, outcome)
    ensures Settled(Step(st, e), j, outcome)
  {
    NothingSettledTwice(st);
    hide IsFolder, IsCached, IsTemporary, OneJobEach, FinalsFit, TempsHeld, LiveIsHeld, SweepSpares, WrittenStays, CallersServed;
  }

  lemma NothingSettledTwice(st: State)
    requires OneJobEach(st)
    ensures forall j :: j in st.jobs ==> j !in st.outcomes
  {
    hide IsCached;
  }

  lemma StepOfRun(st: State, events: seq<Event>, states: seq<State>, k: nat)
    requires IsRun(st, events, states) && k < |events|
    ensures |states| == |events| + 1 && Enabled(states[k], events[k]) && states[k + 1] == Step(states[k], events[k])
  {
    hide Enabled, Step;
  }

  /** Once a job is settled, its outcome never changes. */
  lemma {:induction false} OutcomeStays(st: State, events: seq<Event>, states: seq<State>, i: nat, k: nat, j: JobId, outcome: Outcome)
    requires Inv(st) && IsRun(st, events, states) && i <= k < |states| && Settled(states[i], j, outcome)
    ensures Settled(states[k], j, outcome)
  {
    hide Inv, Step, Enabled, Settled;
    if i < k {
      OutcomeStays(st, events, states, i, k - 1, j, outcome);
      RunKeepsInv(st, events, states, k - 1);
      StepOfRun(st, events, states, k - 1);
      hide IsRun;
      OutcomeIsFinal(states[k - 1], events[k - 1], j, outcome);
    }
  }

  /** All who joined one job are answered alike, whenever each of them is, and about the copy they asked for. */
  lemma JoinedCallersAgree(st: State, events: seq<Event>, states: seq<State>, i: nat, k: nat, c: Caller, d: Caller, j: JobId)
    requires Inv(st) && IsRun(st, events, states) && i <= k < |events|
    requires events[i] == Delivers(c) && events[k] == Delivers(d)
    requires c in states[i].callers && states[i].callers[c].Waiting? && states[i].callers[c].job == j
    requires d in states[k].callers && states[k].callers[d].Waiting? && states[k].callers[d].job == j
    ensures c in states[i + 1].callers && d in states[k + 1].callers
    ensures states[i + 1].callers[c] == states[k + 1].callers[d] == Answered(states[i].callers[c].path, states[i].outcomes[j].ok)
  {
    RunKeepsInv(st, events, states, i);
    RunKeepsInv(st, events, states, k);
    DeliveredIsForPath(states[i], c);
    DeliveredIsForPath(states[k], d);
    OutcomeStays(st, events, states, i, k, j, states[i].outcomes[j]);
    hide Inv, Step, Enabled;
  }

  lemma DeliveredIsForPath(st: State, c: Caller)
    requires Inv(st) && Enabled(st, Delivers(c))
    ensures var call, after := st.callers[c], Step(st, Delivers(c));
            && call.job in st.outcomes && st.outcomes[call.job].final == call.path
            && c in after.callers && after.callers[c] == Answered(call.path, st.outcomes[call.job].ok)
  {
    hide IsFolder, IsCached, IsTemporary;
  }

  // ----- The module state

  /** `inflight` and `liveTempFiles` as the service changes them, with what the runtime and the disk hold beside them. */
  class Service {
    var inflight: map<Name, JobId>
    var liveTempFiles: set<Name>
    var jobs: map<JobId, Job>
    var outcomes: map<JobId, Outcome>
    var callers: map<Caller, Call>
    var disk: map<Name, Content>
    ghost var used: set<Name>
    ghost var listed: set<Name>
    ghost var doomed: set<Name>

    ghost function View(): State
      reads this
    {
      State(disk, inflight, jobs, outcomes, liveTempFiles, used, callers, listed, doomed)
    }

    /** After the look at the disk: answer, join, or start; `j` names the promise should one be made. */
    method Continue(c: Caller, j: JobId)
      requires Enabled(View(), GoesOn(c, j))
      modifies this`callers, this`jobs, this`inflight
      ensures View() == Step(old(View()), GoesOn(c, j))
    {
      hide IsFolder, IsCached, IsTemporary;
      var path := callers[c].path;
      if callers[c].found {
        callers := callers[c := Answered(path, true)];
        return;
      }
      var pending := j;
      if path in inflight {
        pending := inflight[path];
      } else {
        jobs := jobs[j := Job(path, "", Reserving)];
        inflight := inflight[path := j];
      }
      callers := callers[c := Waiting(path, pending)];
    }

    method StartWriting(j: JobId, ok: bool, temp: Name)
      requires Enabled(View(), Reserved(j, ok, temp))
      modifies this`jobs, this`liveTempFiles, this`used
      ensures View() == Step(old(View()), Reserved(j, ok, temp))
    {
      hide IsFolder, IsCached, IsTemporary;
      if !ok {
        jobs := jobs[j := jobs[j].(stage := Released(false))];
        return;
      }
      liveTempFiles := liveTempFiles + {temp};
      used := used + {temp};
      jobs := jobs[j := Job(jobs[j].final, temp, Writing)];
    }

    /** The `finally` after a rename that went through. */
    method ReleaseTemp(j: JobId)
      requires Enabled(View(), Releases(j))
      modifies this`jobs, this`liveTempFiles
      ensures View() == Step(old(View()), Releases(j))
    {
      hide IsFolder, IsCached, IsTemporary;
      liveTempFiles := liveTempFiles - {jobs[j].temp};
      jobs := jobs[j := jobs[j].(stage := Released(true))];
    }

    /** After a failure: the temporary is taken away, if that works, and is live no longer. */
    method GiveUp(j: JobId, removed: bool)
      requires Enabled(View(), CleansUp(j, removed))
      modifies this`jobs, this`liveTempFiles, this`disk
      ensures View() == Step(old(View()), CleansUp(j, removed))
    {
      hide IsFolder, IsCached, IsTemporary;
      if removed { disk := disk - {jobs[j].temp}; }
      liveTempFiles := liveTempFiles - {jobs[j].temp};
      jobs := jobs[j := jobs[j].(stage := Released(false))];
    }

    /** The promise settles, and only then stops being shared. */
    method Settle(j: JobId)
      requires Enabled(View(), Settles(j))
      modifies this`jobs, this`inflight, this`outcomes
      ensures View() == Step(old(View()), Settles(j))
    {
      hide IsFolder, IsCached, IsTemporary;
      outcomes := outcomes[j := Outcome(jobs[j].final, jobs[j].stage.ok)];
      inflight := inflight - {jobs[j].final};
      jobs := jobs - {j};
    }
  }
}
