/** What a run of the jobs does to a tree, and when rolling a run back restores it. */
module UpdateRuns {
  import opened Wrappers
  import opened FileTree
  import opened Jobs

  /** The trees a run passes through: `ts[0]` is where it starts, and each next tree is what the
      next job made of the one before, under some fault in the clean-up jobs. */
  ghost predicate Run(ts: seq<Tree>) {
    && 1 <= |ts| <= JOB_COUNT + 1
    && forall i :: 0 <= i < |ts| - 1 ==> Step(i, ts[i], ts[i + 1])
  }

  ghost predicate Step(i: nat, t: Tree, t': Tree)
    requires i < JOB_COUNT
  {
    exists fault :: Apply(JobAt(i), t, fault) == Ok(t')
  }

  /** Before the clean-up a job that succeeds was not disturbed. */
  lemma StepUndisturbed(i: nat, t: Tree, t': Tree)
    requires i < CLEANUP && Step(i, t, t')
    ensures Apply(JobAt(i), t, None) == Ok(t')
  {
    hide JobAt;
    var fault :| Apply(JobAt(i), t, fault) == Ok(t');
  }

  // ---- What every run keeps ----

  /** Once the first job is done, `old` is a directory until the last job. */
  ghost predicate Sound(i: nat, t: Tree) {
    WellFormed(t) && (1 <= i < JOB_COUNT ==> IsDir(t, [Old]))
  }

  lemma ParentsThere(i: nat, t: Tree)
    requires i < JOB_COUNT && Sound(i, t)
    ensures ParentThere(JobAt(i), t)
  {
    if JobAt(i).Mkdir? {
      assert i in {0, 2, 6, 7};
      assert Parent([Old]) == [] && Parent([Old, Bin]) == [Old];
      assert Parent([Old, X64]) == [Old] && Parent([Old, Arm64]) == [Old];
    } else if JobAt(i).MkdirIfExists? {
      assert i in {14, 15};
      assert Parent([X64]) == [] && Parent([Arm64]) == [];
    }
  }

  lemma OldUntouched(i: nat)
    requires 1 <= i < JOB_COUNT - 1
    ensures Untouched(JobAt(i), [Old])
  {
    var q: Path := [Old];
    match JobAt(i)
    case MoveFile(from, to) =>
      assert from[0] != q[0] && (to[0] != q[0] || |to| > 1);
    case MoveIfExists(from, to) =>
      assert from[0] != q[0] && (to[0] != q[0] || |to| > 1);
    case Mkdir(dir) => assert |dir| > 1;
    case MkdirIfExists(dir, _) => assert dir[0] != q[0];
    case RmdirNofail(dir) => assert dir[0] != q[0];
  }

  lemma StepSound(i: nat, t: Tree, t': Tree)
    requires i < JOB_COUNT && Sound(i, t) && Step(i, t, t')
    ensures Sound(i + 1, t')
  {
    hide Moved;
    var fault :| Apply(JobAt(i), t, fault) == Ok(t');
    ParentsThere(i, t);
    ApplyWellFormed(JobAt(i), t, t', fault);
    if i == 0 {
      CreateAdds(t, [Old]);
    } else if i < JOB_COUNT - 1 {
      OldUntouched(i);
      ApplyFrame(JobAt(i), t, t', fault, [Old]);
    }
  }

  lemma {:induction false} RunSound(ts: seq<Tree>, i: nat)
    requires Run(ts) && WellFormed(ts[0]) && i < |ts|
    ensures Sound(i, ts[i])
  {
    if i > 0 {
      RunSound(ts, i - 1);
      StepSound(i - 1, ts[i - 1], ts[i]);
    }
  }

  /** A path that no job from `i` to `j` touches keeps what is there. */
  lemma {:induction false} RunFrame(ts: seq<Tree>, i: nat, j: nat, q: Path)
    requires Run(ts) && WellFormed(ts[0]) && i <= j < |ts|
    requires forall k :: i <= k < j ==> Untouched(JobAt(k), q)
    ensures At(ts[j], q) == At(ts[i], q)
  {
    if i < j {
      RunFrame(ts, i, j - 1, q);
      RunSound(ts, j - 1);
      ParentsThere(j - 1, ts[j - 1]);
      assert Step(j - 1, ts[j - 1], ts[j]);
      var fault :| Apply(JobAt(j - 1), ts[j - 1], fault) == Ok(ts[j]);
      ApplyFrame(JobAt(j - 1), ts[j - 1], ts[j], fault, q);
    }
  }

  // ---- Free targets ----

  /** The job that moves away what an installing job then replaces. */
  function VacatedBy(j: nat): Option<nat> {
    match j
    case 11 => Some(1)
    case 12 => Some(3)
    case 13 => Some(4)
    case 18 => Some(10)
    case _ => None
  }

  /** The target of job `j` is free, or will be by the time it is needed. */
  ghost predicate TargetFree(i: nat, j: nat, t: Tree)
    requires j < CLEANUP
  {
    Target(JobAt(j)) !in t || (VacatedBy(j).Some? && i <= VacatedBy(j).value)
  }

  /** No job puts anything where a later job needs room. */
  lemma TargetsApart(i: nat, j: nat)
    requires i < j < CLEANUP
    ensures if Moves(JobAt(i)) then !(Target(JobAt(i)) <= Target(JobAt(j))) else Target(JobAt(i)) != Target(JobAt(j))
    ensures VacatedBy(j) == Some(i) ==> JobAt(i).MoveFile? && JobAt(i).from == Target(JobAt(j))
  {
    var p, q := Target(JobAt(i)), Target(JobAt(j));
    if |p| == |q| {
      assert p[0] != q[0] || (|p| > 1 && p[1] != q[1]) || (|p| > 2 && p[2] != q[2]);
    } else if |p| < |q| && Moves(JobAt(i)) {
      assert p[0] != q[0] || (|p| > 1 && p[1] != q[1]);
    }
  }

  /** A job leaves a free path free unless it puts something there, and frees what it moves. */
  lemma FreeStays(job: Job, t: Tree, t': Tree, q: Path)
    requires WellFormed(t) && Sensible(job) && ParentThere(job, t) && !job.RmdirNofail?
    requires Apply(job, t, None) == Ok(t')
    requires if Moves(job) then !(Target(job) <= q) else Target(job) != q
    ensures q !in t ==> q !in t'
    ensures job.MoveFile? && job.from == q ==> q !in t'
  {
    hide Moved, Rename;
    match job
    case Mkdir(dir) => CreateAdds(t, dir);
    case MkdirIfExists(dir, check) =>
      if check in t {
        CreateAdds(t, dir);
      }
    case MoveFile(from, to) =>
      assert Rename(t, from, to) == Ok(t');
      RenameMoves(t, from, to);
      MovedAt(t, from, to, q);
    case MoveIfExists(from, to) =>
      if from in t {
        assert Rename(t, from, to) == Ok(t');
        RenameMoves(t, from, to);
        MovedAt(t, from, to, q);
      }
  }

  lemma RenameMoves(t: Tree, a: Path, b: Path)
    requires b != [] && Rename(t, a, b).Ok?
    ensures a in t && Rename(t, a, b) == Ok(Moved(t, a, b))
  {
  }

  lemma TargetFreeStep(i: nat, j: nat, t: Tree, t': Tree)
    requires i < j < CLEANUP && Sound(i, t) && Step(i, t, t') && TargetFree(i, j, t)
    ensures TargetFree(i + 1, j, t')
  {
    hide JobAt, Apply, VacatedBy, Target, ParentThere, WellFormed;
    StepUndisturbed(i, t, t');
    ParentsThere(i, t);
    TargetsApart(i, j);
    FreeStays(JobAt(i), t, t', Target(JobAt(j)));
  }

  /** The condition under which rolling back the first `n` jobs is exact. */
  predicate Clean(t: Tree, n: nat) {
    && (n >= 1 ==> [Old] !in t)
    && (n >= 15 ==> [X64] !in t)
    && (n >= 16 ==> [Arm64] !in t)
  }

  lemma CleanTargetFree(t: Tree, n: nat, j: nat)
    requires WellFormed(t) && Clean(t, n) && j < n <= CLEANUP
    ensures TargetFree(0, j, t)
  {
    var q := Target(JobAt(j));
    if j <= 10 {
      assert [Old] <= q;
      NothingBelow(t, [Old], q);
    } else if j == 16 {
      NothingBelow(t, [X64], q);
    } else if j == 17 {
      NothingBelow(t, [Arm64], q);
    }
  }

  lemma {:induction false} RunTargetFree(ts: seq<Tree>, i: nat, j: nat)
    requires Run(ts) && WellFormed(ts[0]) && i <= j < CLEANUP && i < |ts| && TargetFree(0, j, ts[0])
    ensures TargetFree(i, j, ts[i])
  {
    hide JobAt, TargetFree, Sound, Step;
    if i > 0 {
      RunTargetFree(ts, i - 1, j);
      RunSound(ts, i - 1);
      TargetFreeStep(i - 1, j, ts[i - 1], ts[i]);
    }
  }

  // ---- Rolling back ----

  /** How a rollback ends: the tree it leaves and whether every job was rolled back. */
  datatype Unwound = Unwound(tree: Tree, complete: bool)

  /** Rolls back the jobs below `n`, last one first; the first failure ends it. */
  function Unwind(t: Tree, n: nat, faults: nat -> Option<Fault>): Unwound
    requires n <= JOB_COUNT
    decreases n
  {
    if n == 0 then Unwound(t, true) else
      match Rollback(JobAt(n - 1), t, faults(n - 1))
      case Err(_) => Unwound(t, false)
      case Ok(t') => Unwind(t', n - 1, faults)
  }

  const UNDISTURBED: nat -> Option<Fault> := _ => None

  /** A rollback that completes was not disturbed. */
  lemma {:induction false} CompleteUndisturbed(t: Tree, n: nat, faults: nat -> Option<Fault>)
    requires n <= JOB_COUNT && Unwind(t, n, faults).complete
    ensures Unwind(t, n, UNDISTURBED) == Unwind(t, n, faults)
    decreases n
  {
    hide JobAt, RemoveDirAll, Rename;
    if n > 0 {
      CompleteUndisturbed(Rollback(JobAt(n - 1), t, faults(n - 1)).value, n - 1, faults);
    }
  }

  /** From a clean start, the jobs roll back through the very trees they went through. */
  lemma {:induction false} UnwindRestores(ts: seq<Tree>, n: nat)
    requires Run(ts) && WellFormed(ts[0]) && |ts| <= CLEANUP + 1 && Clean(ts[0], |ts| - 1)
    requires n < |ts|
    ensures Unwind(ts[n], n, UNDISTURBED) == Unwound(ts[0], true)
  {
    hide JobAt, Rollback, Apply, Clean, Target;
    if n > 0 {
      var i := n - 1;
      RunSound(ts, i);
      ParentsThere(i, ts[i]);
      CleanTargetFree(ts[0], |ts| - 1, i);
      RunTargetFree(ts, i, i);
      NotSelfVacated(i);
      assert Step(i, ts[i], ts[i + 1]);
      StepUndisturbed(i, ts[i], ts[i + 1]);
      RollbackInverts(JobAt(i), ts[i], ts[i + 1]);
      UnwindRestores(ts, i);
    }
  }

  lemma NotSelfVacated(i: nat)
    ensures VacatedBy(i).Some? ==> VacatedBy(i).value < i
  {
  }

  /** A rollback of job `i` puts nothing at `q`. */
  predicate LeavesAbsent(job: Job, q: Path) {
    Moves(job) ==> !(job.from <= q)
  }

  lemma AbsentStays(job: Job, t: Tree, t': Tree, fault: Option<Fault>, q: Path)
    requires Sensible(job) && Rollback(job, t, fault) == Ok(t') && q !in t && LeavesAbsent(job, q)
    ensures q !in t'
  {
    hide Moved;
    match job
    case MoveFile(from, to) => MovedAt(t, to, from, q);
    case MoveIfExists(from, to) => MovedAt(t, to, from, q);
    case _ =>
  }

  lemma TopLeavesAbsent(i: nat, q: Path)
    requires i < CLEANUP && q in {[Old], [X64], [Arm64]}
    ensures LeavesAbsent(JobAt(i), q)
  {
    var job := JobAt(i);
    if Moves(job) && |job.from| == 1 {
      assert job.from[0] != q[0];
    }
  }

  lemma {:induction false} UnwindLeavesAbsent(t: Tree, n: nat, faults: nat -> Option<Fault>, q: Path)
    requires n <= CLEANUP && q in {[Old], [X64], [Arm64]} && q !in t && Unwind(t, n, faults).complete
    ensures q !in Unwind(t, n, faults).tree
    decreases n
  {
    hide JobAt, Rollback;
    if n > 0 {
      var t' := Rollback(JobAt(n - 1), t, faults(n - 1)).value;
      TopLeavesAbsent(n - 1, q);
      AbsentStays(JobAt(n - 1), t, t', faults(n - 1), q);
      UnwindLeavesAbsent(t', n - 1, faults, q);
    }
  }

  predicate MakesDir(job: Job, q: Path) {
    (job.Mkdir? || job.MkdirIfExists?) && job.dir == q
  }

  lemma RollbackRemovesDir(job: Job, t: Tree, t': Tree, fault: Option<Fault>, q: Path)
    requires Sensible(job) && MakesDir(job, q) && Rollback(job, t, fault) == Ok(t')
    ensures q !in t'
  {
  }

  /** Rolling back past the job that made a directory leaves the directory absent. */
  lemma {:induction false} UnwindRemoves(t: Tree, n: nat, faults: nat -> Option<Fault>, k: nat, q: Path)
    requires k < n <= CLEANUP && q in {[Old], [X64], [Arm64]} && Unwind(t, n, faults).complete
    requires MakesDir(JobAt(k), q)
    ensures q !in Unwind(t, n, faults).tree
    decreases n
  {
    hide JobAt, Rollback, MakesDir;
    var t' := Rollback(JobAt(n - 1), t, faults(n - 1)).value;
    if k == n - 1 {
      RollbackRemovesDir(JobAt(k), t, t', faults(k), q);
      UnwindLeavesAbsent(t', n - 1, faults, q);
    } else {
      UnwindRemoves(t', n - 1, faults, k, q);
    }
  }

  /** Rolling back the first jobs restores the tree if and only if what the rollback deletes was
      not there before: `old` once the first job ran, `x64` and `arm64` once theirs did. */
  lemma RollbackExact(ts: seq<Tree>)
    requires Run(ts) && WellFormed(ts[0]) && |ts| <= CLEANUP + 1
    ensures var n := |ts| - 1;
            Unwind(ts[n], n, UNDISTURBED) == Unwound(ts[0], true) <==> Clean(ts[0], n)
  {
    hide Unwind;
    var n := |ts| - 1;
    if Clean(ts[0], n) {
      UnwindRestores(ts, n);
    } else if Unwind(ts[n], n, UNDISTURBED) == Unwound(ts[0], true) {
      if [Old] in ts[0] {
        UnwindRemoves(ts[n], n, UNDISTURBED, 0, [Old]);
      } else if n >= 15 && [X64] in ts[0] {
        UnwindRemoves(ts[n], n, UNDISTURBED, 14, [X64]);
      } else {
        UnwindRemoves(ts[n], n, UNDISTURBED, 15, [Arm64]);
      }
    }
  }
}
