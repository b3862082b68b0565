/** When an update goes through: the exact condition on the tree it starts from. */
module UpdateCompletes {
  import opened Wrappers
  import opened FileTree
  import opened Jobs
  import opened UpdateRuns
  import opened UpdateResults
  import opened PerformUpdate

  predicate IsFile(t: Tree, p: Path) {
    p in t && t[p].File?
  }

  /** What is at `a` can take the place `b`: it is free, or a file replaces a file. */
  predicate Replaceable(t: Tree, a: Path, b: Path) {
    b in t ==> IsFile(t, a) && IsFile(t, b)
  }

  /** What job `i` needs of the tree that the update starts from. */
  predicate Possible(i: nat, t: Tree)
    requires i < CLEANUP
  {
    match JobAt(i)
    case Mkdir(dir) => !IsFile(t, dir)
    case MkdirIfExists(dir, check) => check in t ==> !IsFile(t, dir)
    case MoveFile(from, to) => from in t && (VacatedBy(i).Some? || Replaceable(t, from, to))
    case MoveIfExists(from, to) => from in t ==> i >= 11 || Replaceable(t, from, to)
    case RmdirNofail(_) => true
  }

  // ---- One job on its tree ----

  lemma {:induction false} DirNotBlocked(t: Tree, p: Path)
    requires WellFormed(t) && IsDir(t, p)
    ensures !Blocked(t, p)
  {
    if p != [] {
      DirNotBlocked(t, Parent(p));
    }
  }

  lemma CreateOkIff(t: Tree, p: Path)
    requires WellFormed(t) && p != [] && IsDir(t, Parent(p))
    ensures CreateDirAll(t, p).Ok? <==> !IsFile(t, p)
  {
    DirNotBlocked(t, Parent(p));
  }

  lemma RenameOkIff(t: Tree, a: Path, b: Path)
    requires b != [] && !(a <= b) && (a in t ==> IsDir(t, Parent(b)))
    ensures Rename(t, a, b).Ok? <==> a in t && Replaceable(t, a, b)
  {
  }

  // ---- What earlier jobs leave alone ----

  /** The paths that decide whether job `i` can be applied. */
  predicate Decides(i: nat, q: Path)
    requires i < CLEANUP
  {
    match JobAt(i)
    case Mkdir(dir) => q == dir
    case MkdirIfExists(dir, check) => q == dir || q == check
    case MoveFile(from, to) => q == from || (q == to && i < 11)
    case MoveIfExists(from, to) => q == from || (q == to && i < 11)
    case RmdirNofail(_) => false
  }

  lemma DecidersUntouched(i: nat, k: nat, q: Path)
    requires k < i < CLEANUP && Decides(i, q)
    ensures Untouched(JobAt(k), q)
  {
    hide JobAt, Decides, Untouched;
    if i < 11 {
      OldDecidersUntouched(i, k, q);
    } else {
      NewDecidersUntouched(i, k, q);
    }
  }

  lemma OldDecidersUntouched(i: nat, k: nat, q: Path)
    requires k < i < 11 && Decides(i, q)
    ensures Untouched(JobAt(k), q)
  {
    var job := JobAt(k);
    if Moves(job) {
      assert Diverge(job.from, q) || |job.from| > |q|;
      assert Diverge(job.to, q) || |job.to| > |q|;
    } else {
      assert Diverge(job.dir, q) || |job.dir| != |q|;
    }
  }

  lemma NewDecidersUntouched(i: nat, k: nat, q: Path)
    requires k < i && 11 <= i < CLEANUP && Decides(i, q)
    ensures Untouched(JobAt(k), q)
  {
    var job := JobAt(k);
    if Moves(job) {
      assert Diverge(job.from, q) || |job.from| > |q|;
      assert Diverge(job.to, q) || |job.to| > |q|;
    } else {
      assert Diverge(job.dir, q) || |job.dir| != |q|;
    }
  }

  lemma DecidersKept(ts: seq<Tree>, i: nat, q: Path)
    requires Run(ts) && WellFormed(ts[0]) && i < |ts| && i < CLEANUP && Decides(i, q)
    ensures At(ts[i], q) == At(ts[0], q)
  {
    hide JobAt, Decides, Untouched;
    forall k | 0 <= k < i ensures Untouched(JobAt(k), q) {
      DecidersUntouched(i, k, q);
    }
    RunFrame(ts, 0, i, q);
  }

  // ---- The directories that jobs move into ----

  /** A directory that job `k` made stays until job `i`. */
  lemma MadeDirStays(ts: seq<Tree>, k: nat, i: nat, dir: Path)
    requires Run(ts) && WellFormed(ts[0]) && k < i < |ts| && i <= CLEANUP
    requires JobAt(k) == Mkdir(dir) && dir != []
    requires forall j :: k < j < i ==> Untouched(JobAt(j), dir)
    ensures IsDir(ts[i], dir)
  {
    hide JobAt, Untouched;
    RunSound(ts, k);
    ParentsThere(k, ts[k]);
    assert Step(k, ts[k], ts[k + 1]);
    StepUndisturbed(k, ts[k], ts[k + 1]);
    CreateAdds(ts[k], dir);
    RunFrame(ts, k + 1, i, dir);
  }

  lemma SubdirUntouched(i: nat, dir: Path)
    requires i < CLEANUP && dir in {[Old, Bin], [Old, X64], [Old, Arm64]} && JobAt(i) != Mkdir(dir)
    ensures Untouched(JobAt(i), dir)
  {
    var job := JobAt(i);
    if Moves(job) {
      assert Diverge(job.from, dir) || |job.from| > |dir|;
      assert Diverge(job.to, dir) || |job.to| > |dir|;
    } else {
      assert Diverge(job.dir, dir) || |job.dir| != |dir|;
    }
  }

  lemma SubdirThere(ts: seq<Tree>, i: nat, k: nat, dir: Path)
    requires Run(ts) && WellFormed(ts[0]) && k < i < |ts| && i <= CLEANUP
    requires (k, dir) in {(2, [Old, Bin]), (6, [Old, X64]), (7, [Old, Arm64])}
    ensures IsDir(ts[i], dir)
  {
    assert JobAt(k) == Mkdir(dir);
    forall j | k < j < i ensures Untouched(JobAt(j), dir) {
      SubdirUntouched(j, dir);
    }
    MadeDirStays(ts, k, i, dir);
  }

  /** `bin` is there: the old files were moved out of it. */
  lemma BinThere(ts: seq<Tree>, i: nat)
    requires Run(ts) && WellFormed(ts[0]) && 4 <= i < |ts| && i <= CLEANUP
    ensures IsDir(ts[i], [Bin])
  {
    hide Moved;
    RunSound(ts, 3);
    assert Step(3, ts[3], ts[4]);
    StepUndisturbed(3, ts[3], ts[4]);
    AncestorsExist(ts[3], [Bin], [Bin, Z3rmExe]);
    forall k | 3 <= k < i ensures Untouched(JobAt(k), [Bin]) {
      BinUntouched(k);
    }
    RunFrame(ts, 3, i, [Bin]);
  }

  lemma BinUntouched(k: nat)
    requires 3 <= k < CLEANUP
    ensures Untouched(JobAt(k), [Bin])
  {
    var job, q := JobAt(k), [Bin];
    if Moves(job) {
      assert |job.from| > 1 || job.from[0] != q[0];
      assert |job.to| > 1 || job.to[0] != q[0];
    } else {
      assert |job.dir| > 1 || job.dir[0] != q[0];
    }
  }

  lemma ConsoleJobs(i: nat)
    requires i in {16, 17}
    ensures JobAt(i - 2).MkdirIfExists? && Moves(JobAt(i))
    ensures Parent(JobAt(i).to) == JobAt(i - 2).dir && JobAt(i - 2).check <= JobAt(i).from
  {
  }

  /** The directory of a new console is there if the console is. */
  lemma ConsoleDirThere(ts: seq<Tree>, i: nat)
    requires Run(ts) && WellFormed(ts[0]) && i in {16, 17} && i < |ts| && JobAt(i).from in ts[i]
    ensures IsDir(ts[i], Parent(JobAt(i).to))
  {
    hide JobAt, Untouched, CreateDirAll;
    ConsoleJobs(i);
    var k := i - 2;
    var dir, check := JobAt(k).dir, JobAt(k).check;
    RunSound(ts, i);
    AncestorsExist(ts[i], check, JobAt(i).from);
    ConsoleDirsUntouched(i);
    RunFrame(ts, k, i, check);
    RunSound(ts, k);
    ParentsThere(k, ts[k]);
    assert Step(k, ts[k], ts[k + 1]);
    StepUndisturbed(k, ts[k], ts[k + 1]);
    CreateAdds(ts[k], dir);
    RunFrame(ts, k + 1, i, dir);
  }

  lemma ConsoleDirsUntouched(i: nat)
    requires i in {16, 17}
    ensures forall k :: i - 2 <= k < i ==> Untouched(JobAt(k), JobAt(i - 2).check)
    ensures forall k :: i - 1 <= k < i ==> Untouched(JobAt(k), JobAt(i - 2).dir)
  {
    var dir, check := JobAt(i - 2).dir, JobAt(i - 2).check;
    forall k | i - 2 <= k < i ensures Untouched(JobAt(k), check) {
      assert Moves(JobAt(k)) ==> |JobAt(k).from| > 2 && Diverge(JobAt(k).to, check);
      assert !Moves(JobAt(k)) ==> |JobAt(k).dir| < |check|;
    }
    assert Moves(JobAt(i - 1)) ==> Diverge(JobAt(i - 1).from, dir) && |JobAt(i - 1).to| > 1;
    assert !Moves(JobAt(i - 1)) ==> Diverge(JobAt(i - 1).dir, dir);
  }

  lemma ParentReady(ts: seq<Tree>, i: nat)
    requires Run(ts) && WellFormed(ts[0]) && i < |ts| && i < CLEANUP && Moves(JobAt(i))
    ensures JobAt(i).from in ts[i] ==> IsDir(ts[i], Parent(JobAt(i).to))
  {
    RunSound(ts, i);
    var dir := Parent(JobAt(i).to);
    if i in {1, 5, 10} {
      assert dir == [Old];
    } else if i in {3, 4} {
      assert dir == [Old, Bin];
      SubdirThere(ts, i, 2, dir);
    } else if i == 8 {
      assert dir == [Old, X64];
      SubdirThere(ts, i, 6, dir);
    } else if i == 9 {
      assert dir == [Old, Arm64];
      SubdirThere(ts, i, 7, dir);
    } else if i in {12, 13} {
      assert dir == [Bin];
      BinThere(ts, i);
    } else if i in {11, 18} {
      assert dir == [];
    } else if JobAt(i).from in ts[i] {
      ConsoleDirThere(ts, i);
    }
  }

  // ---- Every job ----

  /** By the time a new file comes in, its place is free. */
  lemma NewPlaceFree(ts: seq<Tree>, i: nat)
    requires Run(ts) && WellFormed(ts[0]) && i < |ts| && 11 <= i < CLEANUP && Moves(JobAt(i))
    ensures JobAt(i).to !in ts[i]
  {
    if VacatedBy(i).Some? {
      RunTargetFree(ts, i, i);
      NotSelfVacated(i);
    } else {
      assert i in {16, 17};
      ConsolePlaceEmpty(ts, i, []);
      assert To(i) + [] == To(i);
    }
  }

  lemma MoveFacts(i: nat)
    requires i < CLEANUP && Moves(JobAt(i))
    ensures !(JobAt(i).from <= JobAt(i).to)
    ensures Decides(i, JobAt(i).from) && (i < 11 ==> Decides(i, JobAt(i).to))
    ensures JobAt(i).MoveFile? ==> (VacatedBy(i).Some? <==> i >= 11)
  {
    var job := JobAt(i);
    assert Diverge(job.from, job.to);
    DivergePrefix(job.from, job.to, []);
    assert job.to + [] == job.to;
  }

  lemma MovePossibleIff(ts: seq<Tree>, i: nat)
    requires Run(ts) && WellFormed(ts[0]) && i < |ts| && i < CLEANUP && Moves(JobAt(i))
    ensures Apply(JobAt(i), ts[i], None).Ok? <==> Possible(i, ts[0])
  {
    hide JobAt, Decides, Rename, VacatedBy, Run;
    var a, b := JobAt(i).from, JobAt(i).to;
    MoveFacts(i);
    ParentReady(ts, i);
    RenameOkIff(ts[i], a, b);
    DecidersKept(ts, i, a);
    if i < 11 {
      DecidersKept(ts, i, b);
    } else {
      NewPlaceFree(ts, i);
    }
  }

  lemma MakePossibleIff(ts: seq<Tree>, i: nat)
    requires Run(ts) && WellFormed(ts[0]) && i < |ts| && i < CLEANUP && !Moves(JobAt(i))
    ensures Apply(JobAt(i), ts[i], None).Ok? <==> Possible(i, ts[0])
  {
    hide JobAt, Run, CreateDirAll;
    var dir := JobAt(i).dir;
    RunSound(ts, i);
    ParentsThere(i, ts[i]);
    CreateOkIff(ts[i], dir);
    DecidersKept(ts, i, dir);
    if JobAt(i).MkdirIfExists? {
      DecidersKept(ts, i, JobAt(i).check);
    }
  }

  /** In every run, the next job can be applied exactly when the initial tree allows it. */
  lemma PossibleIff(ts: seq<Tree>, i: nat)
    requires Run(ts) && WellFormed(ts[0]) && i < |ts| && i < CLEANUP
    ensures Apply(JobAt(i), ts[i], None).Ok? <==> Possible(i, ts[0])
  {
    hide JobAt, Run, Apply, Possible;
    if Moves(JobAt(i)) {
      MovePossibleIff(ts, i);
    } else {
      MakePossibleIff(ts, i);
    }
  }

  // ---- Whole updates ----

  /** Every job before the clean-up is possible. */
  predicate Ready(t: Tree) {
    forall i :: 0 <= i < CLEANUP ==> Possible(i, t)
  }

  /** Nothing fails from outside, messages are posted, and first attempts start in time. */
  ghost predicate Undisturbed(env: Env) {
    && (forall i, k :: env.fault(i, k) == None)
    && (forall i :: env.posts(i))
    && (forall i :: env.undoFault(i) == None)
    && (forall i :: !TimedOut(env.elapsed(i, 0)))
  }

  lemma {:induction false} NeverApplied(env: Env, i: nat, t: Tree, k: nat)
    requires Sleeps(env) && Undisturbed(env) && i < JOB_COUNT && Apply(JobAt(i), t, None).Err?
    ensures RunJob(env, i, t, k).GaveUp?
    decreases if TimedOut(env.elapsed(i, k)) then 0 else 3000 - env.elapsed(i, k)
  {
    hide JobAt, Apply;
    assert SleptBetween(env, i, k);
    if !TimedOut(env.elapsed(i, k)) {
      NeverApplied(env, i, t, k + 1);
    }
  }

  /** Undisturbed, a job is applied at the first attempt or not at all. */
  lemma AppliedIff(env: Env, i: nat, t: Tree)
    requires Sleeps(env) && Undisturbed(env) && i < JOB_COUNT
    ensures match Apply(JobAt(i), t, None)
            case Ok(t') => RunJob(env, i, t, 0) == Applied(t', 1)
            case Err(_) => RunJob(env, i, t, 0).GaveUp?
  {
    hide JobAt, Apply;
    if Apply(JobAt(i), t, None).Err? {
      NeverApplied(env, i, t, 0);
    }
  }

  /** The number of jobs an undisturbed update applies: up to the first impossible one. */
  predicate StopsAt(t: Tree, n: nat) {
    && n <= JOB_COUNT && !(CLEANUP <= n < JOB_COUNT)
    && (forall i :: 0 <= i < n && i < CLEANUP ==> Possible(i, t))
    && (n < CLEANUP ==> !Possible(n, t))
  }

  /** From a run of `i` jobs on, an undisturbed update goes up to the first impossible job. */
  lemma {:induction false} ForwardStops(env: Env, ts: seq<Tree>, n: nat)
    requires Sleeps(env) && Undisturbed(env) && Run(ts) && WellFormed(ts[0]) && StopsAt(ts[0], n) && |ts| - 1 <= n
    ensures Forward(env, ts[|ts| - 1], |ts| - 1).done == n && Forward(env, ts[|ts| - 1], |ts| - 1).posted
    decreases JOB_COUNT - |ts|
  {
    hide JobAt, RunJob, Possible, Apply;
    var i := |ts| - 1;
    var t := ts[i];
    if i < JOB_COUNT {
      AppliedIff(env, i, t);
      if i < CLEANUP {
        PossibleIff(ts, i);
      } else {
        CleanupApplies(i, t);
      }
      if i < n {
        var t' := Apply(JobAt(i), t, None).value;
        RunGrows(ts, t');
        ForwardStops(env, ts + [t'], n);
      }
    }
  }

  lemma CleanupApplies(i: nat, t: Tree)
    requires CLEANUP <= i < JOB_COUNT
    ensures Apply(JobAt(i), t, None).Ok?
  {
    hide JobAt;
    assert JobAt(i).RmdirNofail?;
  }

  lemma RunGrows(ts: seq<Tree>, t': Tree)
    requires Run(ts) && |ts| <= JOB_COUNT && Apply(JobAt(|ts| - 1), ts[|ts| - 1], None) == Ok(t')
    ensures Run(ts + [t'])
  {
    hide JobAt, Apply;
    var ts' := ts + [t'];
    forall i | 0 <= i < |ts'| - 1 ensures Step(i, ts'[i], ts'[i + 1]) {
      if i < |ts| - 1 {
        assert Step(i, ts[i], ts[i + 1]);
      }
    }
  }

  /** An undisturbed update applies exactly the jobs before the first impossible one. */
  lemma UndisturbedStops(env: Env, t: Tree, n: nat)
    requires Sleeps(env) && Undisturbed(env) && WellFormed(t) && StopsAt(t, n)
    ensures Forward(env, t, 0).done == n && Forward(env, t, 0).posted
  {
    hide StopsAt, Forward;
    assert Run([t]);
    StopsIsCount(t, n);
    ForwardStops(env, [t], n);
  }

  lemma StopsIsCount(t: Tree, n: nat)
    requires StopsAt(t, n)
    ensures n <= JOB_COUNT
  {
  }

  lemma {:induction false} FirstImpossible(t: Tree, i: nat) returns (n: nat)
    requires i <= CLEANUP && (forall k :: 0 <= k < i ==> Possible(k, t)) && !Ready(t)
    ensures n < CLEANUP && StopsAt(t, n)
    decreases CLEANUP - i
  {
    hide Possible;
    if Possible(i, t) {
      n := FirstImpossible(t, i + 1);
    } else {
      n := i;
    }
  }

  /** An undisturbed update completes exactly when the tree is ready for every job; no update at all
      completes from another tree. */
  lemma CompletedIff(env: Env, t: Tree)
    requires Sleeps(env) && WellFormed(t)
    ensures Perform(env, t).0 == Completed ==> Ready(t)
    ensures Undisturbed(env) ==> (Perform(env, t).0 == Completed <==> Ready(t))
  {
    hide Possible, Forward, Unwind, Apply, JobAt;
    if Perform(env, t).0 == Completed {
      var ts := ForwardRun(env, t);
      forall i | 0 <= i < CLEANUP ensures Possible(i, t) {
        assert Step(i, ts[i], ts[i + 1]);
        StepUndisturbed(i, ts[i], ts[i + 1]);
        PossibleIff(ts, i);
      }
    }
    if Undisturbed(env) && Ready(t) {
      UndisturbedStops(env, t, JOB_COUNT);
    }
  }

  // ---- An update that cannot be rolled back ----

  const CONSOLE: Path := [X64, OpenConsoleExe]

  const NEW_CONSOLE: Path := [Install, X64, OpenConsoleExe]

  /** A completed update that brings a console leaves it in `x64`. */
  lemma ConsoleLeft(env: Env, t: Tree)
    requires Sleeps(env) && WellFormed(t) && Perform(env, t).0 == Completed && NEW_CONSOLE in t
    ensures CONSOLE in Perform(env, t).1 && WellFormed(Perform(env, t).1)
  {
    hide Forward, Unwind;
    var ts := ForwardRun(env, t);
    NewFilesInstalled(ts, 16, []);
    assert To(16) + [] == CONSOLE && From(16) + [] == NEW_CONSOLE;
    RunSound(ts, JOB_COUNT);
  }

  /** With a console in `x64`, an update that stops after 15 jobs or more, for whatever reason, fails to
      roll back. */
  lemma ConsoleFailsRollback(env: Env, t: Tree)
    requires Sleeps(env) && WellFormed(t) && CONSOLE in t
    requires Forward(env, t, 0).posted && 15 <= Forward(env, t, 0).done <= CLEANUP
    ensures Perform(env, t).0 == RollbackFailed
  {
    hide Forward, Unwind, JobAt;
    var ts := ForwardRun(env, t);
    ConsoleBlocksRollback(ts, env.undoFault);
  }

  /** After an update that brought a console, the next one, from any tree that still has it, is not
      clean, and cannot be rolled back once it has done 15 jobs. */
  lemma NextUpdateStuck(env: Env, t: Tree, next: Env, t': Tree)
    requires Sleeps(env) && WellFormed(t) && Perform(env, t).0 == Completed && NEW_CONSOLE in t
    requires WellFormed(t') && At(t', CONSOLE) == At(Perform(env, t).1, CONSOLE)
    requires Sleeps(next) && Forward(next, t', 0).posted && 15 <= Forward(next, t', 0).done <= CLEANUP
    ensures !Clean(t', Forward(next, t', 0).done) && Perform(next, t').0 == RollbackFailed
  {
    hide Perform, Forward;
    ConsoleLeft(env, t);
    AncestorsExist(t', [X64], CONSOLE);
    ConsoleFailsRollback(next, t');
  }

  // ---- Such trees exist ----

  const CALM: Env := Env((i: nat, k: nat) => RETRY_SLEEP_MS * k, (i: nat, k: nat) => None, (i: nat) => true, (i: nat) => None)

  lemma CalmIsUndisturbed()
    ensures Sleeps(CALM) && Undisturbed(CALM)
  {
  }

  const DIRS: set<Path> := {[], [Bin], [X64], [Install], [Install, Bin], [Install, X64]}

  const FILES: set<Path> := {
    [Z3rmExe], [Bin, Z3rmExe], [Bin, Z3rm], [ConptyDll], [X64, OpenConsoleExe],
    [Install, Z3rmExe], [Install, Bin, Z3rmExe], [Install, Bin, Z3rm], [Install, X64, OpenConsoleExe]}

  /** An installed application with a console and an update to apply, which is whole or lacks the
      library that comes last. */
  function Unpacked(whole: bool): Tree {
    map p | p in DIRS + FILES + (if whole then {[Install, ConptyDll]} else {}) :: if p in DIRS then Dir else File(0)
  }

  lemma UnpackedShape(whole: bool, p: Path)
    requires p in Unpacked(whole) && p != []
    ensures p[0] != Old && Parent(p) in DIRS && (|p| == 1 && p[0] in {X64, Arm64} ==> p in DIRS)
    ensures p == [Install, ConptyDll] ==> whole
  {
    assert Parent(p) in DIRS by {
      if |p| == 1 {
        assert Parent(p) == [];
      } else if |p| == 2 {
        assert Parent(p) == [p[0]];
      } else {
        assert Parent(p) == [p[0], p[1]];
      }
    }
  }

  lemma UnpackedWellFormed(whole: bool)
    ensures WellFormed(Unpacked(whole)) && CONSOLE in Unpacked(whole)
  {
    forall p | p in Unpacked(whole) && p != [] ensures IsDir(Unpacked(whole), Parent(p)) {
      UnpackedShape(whole, p);
    }
  }

  lemma UnpackedOldFree(whole: bool)
    ensures forall p :: p in Unpacked(whole) && p != [] ==> p[0] != Old
    ensures [Install, ConptyDll] in Unpacked(whole) <==> whole
  {
    hide Unpacked;
    forall p | p in Unpacked(whole) && p != [] ensures p[0] != Old && (p == [Install, ConptyDll] ==> whole) {
      UnpackedShape(whole, p);
    }
    UnpackedLibrary();
  }

  lemma UnpackedLibrary()
    ensures [Install, ConptyDll] in Unpacked(true)
  {
  }

  lemma UnpackedOldPossible(whole: bool, i: nat)
    requires i < 11
    ensures Possible(i, Unpacked(whole))
  {
    UnpackedOldFree(whole);
  }

  lemma UnpackedNewPossible(whole: bool, i: nat)
    requires 11 <= i < CLEANUP
    ensures Possible(i, Unpacked(whole)) <==> whole || i != 18
  {
    UnpackedOldFree(whole);
  }

  lemma UnpackedPossible(whole: bool, i: nat)
    requires i < CLEANUP
    ensures Possible(i, Unpacked(whole)) <==> whole || i != 18
  {
    if i < 11 {
      UnpackedOldPossible(whole, i);
    } else {
      UnpackedNewPossible(whole, i);
    }
  }

  /** With the whole update the application is updated; without its last library, nothing else being
      wrong, the update fails and cannot be rolled back. */
  lemma StuckUpdateExists()
    ensures Sleeps(CALM) && Undisturbed(CALM) && WellFormed(Unpacked(true)) && WellFormed(Unpacked(false))
    ensures Perform(CALM, Unpacked(true)).0 == Completed
    ensures Perform(CALM, Unpacked(false)).0 == RollbackFailed
  {
    hide Perform, Possible, Unpacked;
    CalmIsUndisturbed();
    UnpackedWellFormed(true);
    UnpackedWellFormed(false);
    forall i | 0 <= i < CLEANUP ensures Possible(i, Unpacked(true)) && (Possible(i, Unpacked(false)) <==> i != 18) {
      UnpackedPossible(true, i);
      UnpackedPossible(false, i);
    }
    CompletedIff(CALM, Unpacked(true));
    UndisturbedStops(CALM, Unpacked(false), 18);
    ConsoleFailsRollback(CALM, Unpacked(false));
  }
}
