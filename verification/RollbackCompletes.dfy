/** When an undisturbed rollback completes: the exact condition on the tree the update started from. */
module RollbackCompletes {
  import opened Wrappers
  import opened FileTree
  import opened Jobs
  import opened UpdateRuns
  import opened UpdateResults
  import opened UpdateCompletes
  import opened PerformUpdate

  /** The jobs that set aside the two old consoles, and for each the directory of its console. */
  predicate SetsAside(c: nat) {
    c == 8 || c == 9
  }

  function Home(c: nat): Path
    requires SetsAside(c)
  {
    if c == 8 then [X64] else [Arm64]
  }

  /** The job that makes sure of that directory. */
  function Maker(c: nat): nat
    requires SetsAside(c)
  {
    c + 6
  }

  lemma ConsoleFacts(c: nat)
    requires SetsAside(c)
    ensures JobAt(c).MoveIfExists? && Parent(JobAt(c).from) == Home(c) && JobAt(c).from[..1] == Home(c)
    ensures JobAt(Maker(c)).MkdirIfExists? && JobAt(Maker(c)).dir == Home(c)
    ensures Home(c) in {[Old], [X64], [Arm64]}
    ensures JobAt(c).from == JobAt(c + 8).to && JobAt(c + 8).MoveIfExists?
  {
  }

  /** What rolling back the first `n` jobs needs of the tree `t` that they started from: a console
      that was set aside, or left in `old` before, can go back to its directory, which the rollback
      has not removed; and the directories are not files. */
  predicate CanUnwind(t: Tree, n: nat, c: nat)
    requires SetsAside(c)
  {
    && (n > Maker(c) ==> !IsFile(t, Home(c)))
    && (n > c && (JobAt(c).from in t || JobAt(c).to in t) ==> n <= Maker(c) && IsDir(t, Home(c)))
  }

  // ---- What a single rollback needs ----

  /** The paths that decide whether job `i` can be rolled back. */
  predicate Needs(i: nat, q: Path)
    requires i < CLEANUP
  {
    var job := JobAt(i);
    if Moves(job) then q == job.from || q == job.to || q == Parent(job.from) else q == job.dir
  }

  /** Rolling back job `j` leaves `q` alone. */
  predicate Spared(job: Job, q: Path) {
    Untouched(job, q) && ((job.Mkdir? || job.MkdirIfExists?) ==> !(job.dir <= q))
  }

  predicate Apart(x: Path, q: Path) {
    Diverge(x, q) || |x| > |q|
  }

  lemma ApartSpared(job: Job, q: Path)
    requires if Moves(job) then Apart(job.from, q) && Apart(job.to, q) else !job.RmdirNofail? && Apart(job.dir, q)
    ensures Spared(job, q)
  {
  }

  /** Job `j` is about other paths than `q`, or puts a new file there. */
  predicate Separate(j: nat, q: Path)
    requires j < CLEANUP
  {
    var job := JobAt(j);
    if Moves(job) then Apart(job.from, q) && (Apart(job.to, q) || (job.MoveFile? && j >= 11 && q == job.to))
    else Apart(job.dir, q)
  }

  lemma NeededSeparate1(i: nat, j: nat, q: Path)
    requires i < 3 && i < j < CLEANUP && !SetsAside(i) && Needs(i, q)
    ensures Separate(j, q)
  {
  }

  lemma NeededSeparate2(i: nat, j: nat, q: Path)
    requires 3 <= i < 6 && i < j < CLEANUP && !SetsAside(i) && Needs(i, q)
    ensures Separate(j, q)
  {
  }

  lemma NeededSeparate3(i: nat, j: nat, q: Path)
    requires 6 <= i < 13 && i < j < CLEANUP && !SetsAside(i) && Needs(i, q)
    ensures Separate(j, q)
  {
  }

  lemma NeededSeparate4(i: nat, j: nat, q: Path)
    requires 13 <= i && i < j < CLEANUP && !SetsAside(i) && Needs(i, q)
    ensures Separate(j, q)
  {
  }

  /** Later jobs spare what earlier ones need, except the place of a new file. */
  lemma NeededSpared(i: nat, j: nat, q: Path)
    requires i < j < CLEANUP && !SetsAside(i) && Needs(i, q)
    ensures Spared(JobAt(j), q) || (JobAt(j).MoveFile? && j >= 11 && q == JobAt(j).to)
  {
    hide JobAt, Needs, Spared, Apart;
    if i < 3 {
      NeededSeparate1(i, j, q);
    } else if i < 6 {
      NeededSeparate2(i, j, q);
    } else if i < 13 {
      NeededSeparate3(i, j, q);
    } else {
      NeededSeparate4(i, j, q);
    }
    if !(JobAt(j).MoveFile? && j >= 11 && q == JobAt(j).to) {
      ApartSpared(JobAt(j), q);
    }
  }

  // ---- The trees on the way back ----

  /** Rolling back has not yet come to the job that made the console's directory, or never will. */
  predicate HomeStands(c: nat, k: nat, n: nat)
    requires SetsAside(c)
  {
    k > Maker(c) || n <= Maker(c)
  }

  /** What is known of the console that job `c` set aside. */
  ghost predicate ConsoleStage(ts: seq<Tree>, k: nat, u: Tree, c: nat)
    requires SetsAside(c) && k < |ts|
  {
    && At(u, JobAt(c).to) == At(ts[k], JobAt(c).to)
    && (if HomeStands(c, k, |ts| - 1) then
          At(u, Home(c)) == At(ts[k], Home(c)) && At(u, JobAt(c).from) == At(ts[k], JobAt(c).from)
        else
          Home(c) !in u)
  }

  /** `u` is what a rollback from the end of the run has made before it comes to the jobs below `k`:
      wherever those jobs look, it is as it was after job `k`. */
  ghost predicate Stage(ts: seq<Tree>, k: nat, u: Tree)
    requires k < |ts| && k <= CLEANUP
  {
    && (forall i, q :: 0 <= i < k && !SetsAside(i) && Needs(i, q) ==> At(u, q) == At(ts[k], q))
    && (forall c: nat :: SetsAside(c) && c < k ==> ConsoleStage(ts, k, u, c))
  }

  lemma NewPlaceCleared(job: Job, u: Tree, u': Tree, q: Path)
    requires Sensible(job) && Moves(job) && Rollback(job, u, None) == Ok(u') && q == job.to && !(job.from <= job.to)
    ensures q !in u'
  {
    hide Moved;
    MovedAt(u, job.to, job.from, q);
  }

  /** One rolled-back job keeps what the jobs before it need. */
  lemma NeededStay(ts: seq<Tree>, j: nat, u: Tree, u': Tree, i: nat, q: Path)
    requires Run(ts) && WellFormed(ts[0]) && j + 1 < |ts| && i < j < CLEANUP && !SetsAside(i) && Needs(i, q)
    requires At(u, q) == At(ts[j + 1], q) && Rollback(JobAt(j), u, None) == Ok(u')
    ensures At(u', q) == At(ts[j], q)
  {
    hide JobAt, Needs, Rollback, Untouched;
    NeededSpared(i, j, q);
    if Spared(JobAt(j), q) {
      RollbackFrame(JobAt(j), u, u', None, q);
      RunFrame(ts, j, j + 1, q);
    } else {
      NewPlaceFree(ts, j);
      MoveFacts(j);
      NewPlaceCleared(JobAt(j), u, u', q);
    }
  }

  lemma AsideSpared(c: nat, j: nat)
    requires SetsAside(c) && c < j < CLEANUP
    ensures Spared(JobAt(j), JobAt(c).to)
    ensures j != Maker(c) ==> Spared(JobAt(j), Home(c))
    ensures j != Maker(c) && j != c + 8 ==> Spared(JobAt(j), JobAt(c).from)
  {
    var job := JobAt(j);
    ApartSpared(job, JobAt(c).to);
    if j != Maker(c) {
      ApartSpared(job, Home(c));
      if j != c + 8 {
        ApartSpared(job, JobAt(c).from);
      }
    }
  }

  lemma SparedStays(ts: seq<Tree>, j: nat, u: Tree, u': Tree, q: Path)
    requires Run(ts) && WellFormed(ts[0]) && j + 1 < |ts| && j < CLEANUP
    requires Rollback(JobAt(j), u, None) == Ok(u') && Spared(JobAt(j), q)
    ensures At(u', q) == At(u, q) && At(ts[j], q) == At(ts[j + 1], q)
  {
    hide JobAt, Rollback, Untouched;
    RollbackFrame(JobAt(j), u, u', None, q);
    RunFrame(ts, j, j + 1, q);
  }

  lemma HomeStays(ts: seq<Tree>, j: nat, u: Tree, u': Tree, c: nat)
    requires Run(ts) && WellFormed(ts[0]) && |ts| <= CLEANUP + 1 && j + 1 < |ts| && SetsAside(c) && c < j
    requires ConsoleStage(ts, j + 1, u, c) && Rollback(JobAt(j), u, None) == Ok(u')
    ensures ConsoleStage(ts, j, u', c)
  {
    hide JobAt, Rollback, Untouched, Spared;
    ConsoleFacts(c);
    AsideSpared(c, j);
    SparedStays(ts, j, u, u', JobAt(c).to);
    if j == Maker(c) {
      RollbackRemovesDir(JobAt(j), u, u', None, Home(c));
    } else {
      SparedStays(ts, j, u, u', Home(c));
      if HomeStands(c, j, |ts| - 1) {
        if j == c + 8 {
          NewPlaceFree(ts, j);
          MoveFacts(j);
          NewPlaceCleared(JobAt(j), u, u', JobAt(c).from);
        } else {
          SparedStays(ts, j, u, u', JobAt(c).from);
        }
      }
    }
  }

  lemma StageStep(ts: seq<Tree>, j: nat, u: Tree, u': Tree)
    requires Run(ts) && WellFormed(ts[0]) && |ts| <= CLEANUP + 1 && j + 1 < |ts|
    requires Stage(ts, j + 1, u) && Rollback(JobAt(j), u, None) == Ok(u')
    ensures Stage(ts, j, u')
  {
    hide JobAt, Needs, Rollback, ConsoleStage, Run;
    forall i, q | 0 <= i < j && !SetsAside(i) && Needs(i, q) ensures At(u', q) == At(ts[j], q) {
      NeededStay(ts, j, u, u', i, q);
    }
    forall c: nat | SetsAside(c) && c < j ensures ConsoleStage(ts, j, u', c) {
      HomeStays(ts, j, u, u', c);
    }
  }

  // ---- Whether a job can be rolled back ----

  lemma MoveBackOk(job: Job, u: Tree)
    requires Sensible(job) && Moves(job) && !(job.to <= job.from)
    requires job.to in u && job.from !in u && IsDir(u, Parent(job.from))
    ensures Rollback(job, u, None).Ok?
  {
    hide Moved;
  }

  /** What a move leaves where its rollback looks. */
  lemma AfterMove(ts: seq<Tree>, i: nat)
    requires Run(ts) && WellFormed(ts[0]) && i + 1 < |ts| && i < CLEANUP && Moves(JobAt(i))
    ensures var job := JobAt(i);
            && job.from !in ts[i + 1]
            && (job.from in ts[i] ==> job.to in ts[i + 1] && IsDir(ts[i + 1], Parent(job.from)))
            && (job.from !in ts[i] ==> job.MoveIfExists? && ts[i + 1] == ts[i])
            && !(job.to <= job.from)
  {
    hide JobAt, Moved, Rename, Untouched;
    var job := JobAt(i);
    RunSound(ts, i);
    assert Step(i, ts[i], ts[i + 1]);
    StepUndisturbed(i, ts[i], ts[i + 1]);
    MovePathsApart(i);
    if job.from in ts[i] || job.MoveFile? {
      RenameMoves(ts[i], job.from, job.to);
      MovedAt(ts[i], job.from, job.to, job.from);
      MovedThere(ts[i], job.from, job.to);
      RunFrame(ts, i, i + 1, Parent(job.from));
    }
  }

  lemma MovePathsApart(i: nat)
    requires i < CLEANUP && Moves(JobAt(i))
    ensures var job := JobAt(i);
            !(job.to <= job.from) && Untouched(job, Parent(job.from))
  {
    var job := JobAt(i);
    assert Diverge(job.from, job.to);
    DivergePrefix(job.to, job.from, []);
    assert job.from + [] == job.from;
    assert Parent(job.from) <= job.from;
  }

  lemma PlainRollbackOk(ts: seq<Tree>, i: nat, u: Tree)
    requires Run(ts) && WellFormed(ts[0]) && i + 1 < |ts| && i < CLEANUP && Stage(ts, i + 1, u)
    requires !SetsAside(i) && i != 14 && i != 15
    ensures Rollback(JobAt(i), u, None).Ok?
  {
    hide JobAt, ConsoleStage, Moved, Rename, CreateDirAll;
    var job := JobAt(i);
    NoMaker(i);
    if Moves(job) {
      hide Rollback;
      assert Needs(i, job.from) && Needs(i, job.to) && Needs(i, Parent(job.from));
      AfterMove(ts, i);
      if job.from in ts[i] {
        MoveBackOk(job, u);
      } else {
        StayedAway(ts, i, u);
      }
    } else {
      assert Needs(i, job.dir);
      RunSound(ts, i);
      ParentsThere(i, ts[i]);
      assert Step(i, ts[i], ts[i + 1]);
      StepUndisturbed(i, ts[i], ts[i + 1]);
      CreateAdds(ts[i], job.dir);
    }
  }

  lemma NoMaker(i: nat)
    requires i < CLEANUP && i != 14 && i != 15
    ensures Moves(JobAt(i)) || JobAt(i).Mkdir?
    ensures JobAt(i).MoveIfExists? && !SetsAside(i) ==> i in {5, 16, 17}
    ensures JobAt(5).from == [OpenConsoleExe]
  {
  }

  /** A file that was not there to be moved. */
  lemma StayedAway(ts: seq<Tree>, i: nat, u: Tree)
    requires Run(ts) && WellFormed(ts[0]) && i + 1 < |ts| && i < CLEANUP && Stage(ts, i + 1, u)
    requires i in {5, 16, 17} && JobAt(i).from !in ts[i] && ts[i + 1] == ts[i]
    ensures Rollback(JobAt(i), u, None).Ok?
  {
    hide JobAt, ConsoleStage, Moved, Rename;
    var job := JobAt(i);
    NoMaker(i);
    MovePathsKind(i);
    assert Needs(i, job.from) && Needs(i, job.to) && Needs(i, Parent(job.from));
    if i == 5 {
      MovePathsApart(i);
      RunSound(ts, 5);
      assert Parent(job.from) == [];
      if job.to in u {
        MoveBackOk(job, u);
      }
    } else {
      NewPlaceFree(ts, i);
    }
  }

  lemma MovePathsKind(i: nat)
    requires i in {5, 16, 17}
    ensures JobAt(i).MoveIfExists?
  {
  }

  /** The job that made sure of a console's directory can be rolled back unless that is a file. */
  lemma MakerRollbackIff(ts: seq<Tree>, c: nat, u: Tree)
    requires SetsAside(c) && Run(ts) && WellFormed(ts[0]) && Maker(c) + 1 < |ts| && Stage(ts, Maker(c) + 1, u)
    ensures Rollback(JobAt(Maker(c)), u, None).Ok? <==> !IsFile(ts[0], Home(c))
  {
    hide JobAt, ConsoleStage, CreateDirAll, Run;
    var i := Maker(c);
    var job := JobAt(i);
    ConsoleFacts(c);
    assert Needs(i, job.dir);
    RunSound(ts, i);
    ParentsThere(i, ts[i]);
    assert Step(i, ts[i], ts[i + 1]) by {
      RunStep(ts, i);
    }
    StepUndisturbed(i, ts[i], ts[i + 1]);
    HomeKept(ts, c);
    if job.check in ts[i] {
      CreateAdds(ts[i], job.dir);
      CreateOkIff(ts[i], job.dir);
    }
  }

  lemma RunStep(ts: seq<Tree>, i: nat)
    requires Run(ts) && i + 1 < |ts|
    ensures Step(i, ts[i], ts[i + 1])
  {
  }

  lemma HomeKept(ts: seq<Tree>, c: nat)
    requires SetsAside(c) && Run(ts) && WellFormed(ts[0])
    ensures forall i :: 0 <= i <= Maker(c) && i < |ts| ==> At(ts[i], Home(c)) == At(ts[0], Home(c))
  {
    hide JobAt, Untouched, Run;
    forall k | 0 <= k < Maker(c) ensures Untouched(JobAt(k), Home(c)) {
      HomeUntouched(c, k);
    }
    forall i | 0 <= i <= Maker(c) && i < |ts| ensures At(ts[i], Home(c)) == At(ts[0], Home(c)) {
      RunFrame(ts, 0, i, Home(c));
    }
  }

  lemma HomeUntouched(c: nat, k: nat)
    requires SetsAside(c) && k < Maker(c)
    ensures Untouched(JobAt(k), Home(c))
  {
    var job := JobAt(k);
    ApartSpared(job, Home(c));
  }

  /** What the console's job finds: as at the start. */
  lemma AsideKept(ts: seq<Tree>, c: nat)
    requires SetsAside(c) && Run(ts) && WellFormed(ts[0]) && c < |ts|
    ensures At(ts[c], JobAt(c).from) == At(ts[0], JobAt(c).from) && At(ts[c], JobAt(c).to) == At(ts[0], JobAt(c).to)
  {
    hide JobAt, Decides, Run;
    ConsoleFacts(c);
    MoveFacts(c);
    DecidersKept(ts, c, JobAt(c).from);
    DecidersKept(ts, c, JobAt(c).to);
  }

  /** A console that is in `old` can be put back exactly when its directory still stands. */
  lemma AsideRollbackIff(ts: seq<Tree>, c: nat, u: Tree)
    requires SetsAside(c) && Run(ts) && WellFormed(ts[0]) && c + 1 < |ts| <= CLEANUP + 1 && Stage(ts, c + 1, u)
    ensures Rollback(JobAt(c), u, None).Ok? <==>
              (JobAt(c).from in ts[0] || JobAt(c).to in ts[0] ==> |ts| - 1 <= Maker(c) && IsDir(ts[0], Home(c)))
  {
    hide JobAt, Run, Moved;
    var job, n := JobAt(c), |ts| - 1;
    ConsoleFacts(c);
    AsideKept(ts, c);
    AfterMove(ts, c);
    HomeKept(ts, c);
    assert ConsoleStage(ts, c + 1, u, c);
    assert job.to in u <==> job.from in ts[0] || job.to in ts[0];
    if job.to in u {
      if n <= Maker(c) && IsDir(ts[0], Home(c)) {
        MoveBackOk(job, u);
      } else {
        assert !IsDir(u, Home(c));
      }
    }
  }

  // ---- The whole rollback ----

  /** The condition as it concerns job `i`. */
  predicate CanUndo(t: Tree, n: nat, i: nat) {
    && (SetsAside(i) && (JobAt(i).from in t || JobAt(i).to in t) ==> n <= Maker(i) && IsDir(t, Home(i)))
    && (i == 14 ==> !IsFile(t, [X64]))
    && (i == 15 ==> !IsFile(t, [Arm64]))
  }

  predicate CanUndoBelow(t: Tree, n: nat, k: nat) {
    forall i :: 0 <= i < k ==> CanUndo(t, n, i)
  }

  lemma CanUndoIff(ts: seq<Tree>, i: nat, u: Tree)
    requires Run(ts) && WellFormed(ts[0]) && i + 1 < |ts| <= CLEANUP + 1 && Stage(ts, i + 1, u)
    ensures Rollback(JobAt(i), u, None).Ok? <==> CanUndo(ts[0], |ts| - 1, i)
  {
    hide JobAt, Rollback, Stage, Run;
    if SetsAside(i) {
      AsideRollbackIff(ts, i, u);
    } else if i == 14 {
      MakerRollbackIff(ts, 8, u);
    } else if i == 15 {
      MakerRollbackIff(ts, 9, u);
    } else {
      PlainRollbackOk(ts, i, u);
    }
  }

  lemma {:induction false} UnwindIff(ts: seq<Tree>, k: nat, u: Tree)
    requires Run(ts) && WellFormed(ts[0]) && k < |ts| <= CLEANUP + 1 && Stage(ts, k, u)
    ensures Unwind(u, k, UNDISTURBED).complete <==> CanUndoBelow(ts[0], |ts| - 1, k)
    decreases k
  {
    hide JobAt, Rollback, Stage, Run, CanUndo;
    if k > 0 {
      CanUndoIff(ts, k - 1, u);
      var r := Rollback(JobAt(k - 1), u, None);
      if r.Ok? {
        StageStep(ts, k - 1, u, r.value);
        UnwindIff(ts, k - 1, r.value);
      }
    }
  }

  lemma StageAtEnd(ts: seq<Tree>)
    requires 1 <= |ts| <= CLEANUP + 1
    ensures Stage(ts, |ts| - 1, ts[|ts| - 1])
  {
  }

  /**
   * After any run of jobs before the clean-up, an undisturbed rollback completes if and only if, for
   * both consoles: the console's directory is no file, once its job is done; and a console that was
   * there, or was left in `old` before, finds that directory, which its own job's rollback removes.
   */
  lemma RollbackCompletesIff(ts: seq<Tree>)
    requires Run(ts) && WellFormed(ts[0]) && |ts| <= CLEANUP + 1
    ensures var n := |ts| - 1;
            Unwind(ts[n], n, UNDISTURBED).complete <==> CanUnwind(ts[0], n, 8) && CanUnwind(ts[0], n, 9)
  {
    hide JobAt, Step, Unwind, Stage;
    StageAtEnd(ts);
    UnwindIff(ts, |ts| - 1, ts[|ts| - 1]);
    ConditionsAgree(ts[0], |ts| - 1);
  }

  lemma ConditionsAgree(t: Tree, n: nat)
    requires n <= CLEANUP
    ensures CanUndoBelow(t, n, n) <==> CanUnwind(t, n, 8) && CanUnwind(t, n, 9)
  {
    hide JobAt;
    if CanUndoBelow(t, n, n) {
      assert n > 8 ==> CanUndo(t, n, 8);
      assert n > 9 ==> CanUndo(t, n, 9);
      assert n > 14 ==> CanUndo(t, n, 14);
      assert n > 15 ==> CanUndo(t, n, 15);
    }
  }

  // ---- The driver ----

  predicate CanUnwindBoth(t: Tree, n: nat) {
    CanUnwind(t, n, 8) && CanUnwind(t, n, 9)
  }

  /** An update that stops before the clean-up, for whatever reason, reports a successful rollback only
      under this condition on the tree it started from, and under it always if no rollback is disturbed. */
  lemma RolledBackIff(env: Env, t: Tree)
    requires Sleeps(env) && WellFormed(t)
    requires Forward(env, t, 0).posted && 0 < Forward(env, t, 0).done <= CLEANUP
    ensures var n, outcome := Forward(env, t, 0).done, Perform(env, t).0;
            && (outcome == RolledBack ==> CanUnwindBoth(t, n))
            && ((forall i :: env.undoFault(i) == None) ==> (outcome == RolledBack <==> CanUnwindBoth(t, n)))
  {
    hide Forward, Unwind, JobAt, CanUnwind;
    var ts := ForwardRun(env, t);
    var n := |ts| - 1;
    RollbackCompletesIff(ts);
    if Unwind(ts[n], n, env.undoFault).complete {
      CompleteUndisturbed(ts[n], n, env.undoFault);
    }
    if forall i :: env.undoFault(i) == None {
      NoFaults(ts[n], n, env.undoFault);
    }
  }

  /** How an undisturbed update ends, from the initial tree alone. */
  lemma UndisturbedOutcome(env: Env, t: Tree, n: nat)
    requires Sleeps(env) && Undisturbed(env) && WellFormed(t) && StopsAt(t, n)
    ensures Perform(env, t).0 == if n == JOB_COUNT then Completed
                                 else if n == 0 then NothingToRollBack
                                 else if CanUnwindBoth(t, n) then RolledBack
                                 else RollbackFailed
  {
    hide Forward, Unwind, CanUnwindBoth, Possible;
    UndisturbedStops(env, t, n);
    if 0 < n < JOB_COUNT {
      RolledBackIff(env, t);
    }
  }
}
