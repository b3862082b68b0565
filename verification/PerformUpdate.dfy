/** The update driver: jobs in order with retries and a time limit, and a rollback in reverse. */
module PerformUpdate {
  import opened Wrappers
  import opened FileTree
  import opened Jobs
  import opened UpdateRuns
  import opened UpdateResults

  const RETRY_SLEEP_MS := 50
  const LIMIT_SECS := 2

  /** What the outside decides: how many milliseconds job `i` has been at it when attempt `k` is
      about to start, which attempts fail, whether the progress message can be posted, and which
      rollbacks fail. */
  datatype Env = Env(
    elapsed: (nat, nat) -> nat,
    fault: (nat, nat) -> Option<Fault>,
    posts: nat -> bool,
    undoFault: nat -> Option<Fault>)

  /** Between two attempts the driver sleeps. */
  ghost predicate Sleeps(env: Env) {
    forall i, k :: SleptBetween(env, i, k)
  }

  ghost predicate SleptBetween(env: Env, i: nat, k: nat) {
    env.elapsed(i, k) + RETRY_SLEEP_MS <= env.elapsed(i, k + 1)
  }

  /** `elapsed().as_secs() > 2`, which cuts off the fraction. */
  predicate TimedOut(ms: nat) {
    ms / 1000 > LIMIT_SECS
  }

  datatype JobEnd = Applied(tree: Tree, attempts: nat) | GaveUp(attempts: nat)

  /** The attempts at job `i` from the `k`-th on. Only an I/O error other than a missing file is
      worth another attempt. */
  ghost function RunJob(env: Env, i: nat, t: Tree, k: nat): JobEnd
    requires Sleeps(env) && i < JOB_COUNT
    decreases if TimedOut(env.elapsed(i, k)) then 0 else 3000 - env.elapsed(i, k)
  {
    assert SleptBetween(env, i, k);
    if TimedOut(env.elapsed(i, k)) then GaveUp(k)
    else
      match Apply(JobAt(i), t, env.fault(i, k))
      case Ok(t') => Applied(t', k + 1)
      case Err(e) => if e == OtherIo then RunJob(env, i, t, k + 1) else GaveUp(k + 1)
  }

  /** How far the jobs got: the tree, how many were applied, and whether every message was posted. */
  datatype Progress = Progress(tree: Tree, done: nat, posted: bool)

  ghost function Forward(env: Env, t: Tree, i: nat): (p: Progress)
    requires Sleeps(env) && i <= JOB_COUNT
    ensures i <= p.done <= JOB_COUNT
    decreases JOB_COUNT - i
  {
    if i == JOB_COUNT then Progress(t, i, true) else
      match RunJob(env, i, t, 0)
      case GaveUp(_) => Progress(t, i, true)
      case Applied(t', _) => if env.posts(i) then Forward(env, t', i + 1) else Progress(t', i + 1, false)
  }

  datatype Outcome = Completed | PostFailed | NothingToRollBack | RolledBack | RollbackFailed

  /** The driver's result and the tree it leaves. */
  ghost function Perform(env: Env, t: Tree): (Outcome, Tree)
    requires Sleeps(env)
  {
    var p := Forward(env, t, 0);
    if !p.posted then (PostFailed, p.tree)
    else if p.done == JOB_COUNT then (Completed, p.tree)
    else if p.done == 0 then (NothingToRollBack, p.tree)
    else
      var u := Unwind(p.tree, p.done, env.undoFault);
      (if u.complete then RolledBack else RollbackFailed, u.tree)
  }

  // ---- Time ----

  lemma {:induction false} ElapsedGrows(env: Env, i: nat, k: nat)
    requires Sleeps(env)
    ensures env.elapsed(i, k) >= RETRY_SLEEP_MS * k
  {
    if k > 0 {
      ElapsedGrows(env, i, k - 1);
      assert SleptBetween(env, i, k - 1);
    }
  }

  /** No job is attempted more than 60 times. */
  lemma {:induction false} AttemptsBounded(env: Env, i: nat, t: Tree, k: nat)
    requires Sleeps(env) && i < JOB_COUNT && k <= 60
    ensures RunJob(env, i, t, k).attempts <= 60
    decreases 60 - k
  {
    hide JobAt, Apply;
    ElapsedGrows(env, i, k);
    if k < 60 {
      AttemptsBounded(env, i, t, k + 1);
    }
  }

  /** Time is up from the third second on: the fraction is cut off. */
  lemma TimedOutAt(ms: nat)
    ensures TimedOut(ms) <==> ms >= 3000
  {
  }

  /** Every attempt fails and nothing but the sleeps takes time. */
  const HOPELESS := Env((i, k) => 50 * k, (i, k) => Some(Fault(OtherIo, {})), i => true, i => None)

  /** The bound is reached. */
  lemma BoundReached(t: Tree)
    ensures Sleeps(HOPELESS) && RunJob(HOPELESS, 0, t, 0) == GaveUp(60)
  {
    hide JobAt;
    forall i, k ensures SleptBetween(HOPELESS, i, k) {
    }
    Hopeless(t, 0);
  }

  lemma {:induction false} Hopeless(t: Tree, k: nat)
    requires Sleeps(HOPELESS) && k <= 60
    ensures RunJob(HOPELESS, 0, t, k) == GaveUp(60)
    decreases 60 - k
  {
    assert JobAt(0).Mkdir?;
    if k < 60 {
      Hopeless(t, k + 1);
    }
  }

  // ---- One job ----

  /** Attempt `j` at job `i` starts in time and fails in a way worth another attempt. */
  ghost predicate Retried(env: Env, i: nat, t: Tree, j: nat)
    requires i < JOB_COUNT
  {
    env.elapsed(i, j) < 3000 && Apply(JobAt(i), t, env.fault(i, j)) == Err(OtherIo)
  }

  /** The attempts before `n` were all retried, and attempt `n` starts in time and ends in `r`. */
  ghost predicate EndsAt(env: Env, i: nat, t: Tree, k: nat, n: nat, r: Result<Tree, Error>)
    requires i < JOB_COUNT
  {
    && k <= n && (forall j :: k <= j < n ==> Retried(env, i, t, j))
    && env.elapsed(i, n) < 3000 && Apply(JobAt(i), t, env.fault(i, n)) == r
  }

  /** A job is applied by the first attempt that works, if every attempt before failed with an I/O error
      other than a missing file and all started in time. It is given up at the first error of another
      kind, or when time is up. */
  lemma {:induction false} RunJobEnds(env: Env, i: nat, t: Tree, k: nat)
    requires Sleeps(env) && i < JOB_COUNT
    ensures match RunJob(env, i, t, k)
            case Applied(u, n) => n > k && EndsAt(env, i, t, k, n - 1, Ok(u))
            case GaveUp(n) =>
              || (n >= k && env.elapsed(i, n) >= 3000 && forall j :: k <= j < n ==> Retried(env, i, t, j))
              || (n > k && exists e :: e != OtherIo && EndsAt(env, i, t, k, n - 1, Err(e)))
    decreases if TimedOut(env.elapsed(i, k)) then 0 else 3000 - env.elapsed(i, k)
  {
    hide JobAt, Apply;
    assert SleptBetween(env, i, k);
    if !TimedOut(env.elapsed(i, k)) {
      match Apply(JobAt(i), t, env.fault(i, k)) {
        case Ok(u) => assert EndsAt(env, i, t, k, k, Ok(u));
        case Err(e) =>
          if e == OtherIo {
            assert Retried(env, i, t, k);
            RunJobEnds(env, i, t, k + 1);
            RetryFirst(env, i, t, k);
          } else {
            assert EndsAt(env, i, t, k, k, Err(e));
          }
      }
    }
  }

  lemma RetryFirst(env: Env, i: nat, t: Tree, k: nat)
    requires i < JOB_COUNT && Retried(env, i, t, k)
    ensures forall n, r :: EndsAt(env, i, t, k + 1, n, r) ==> EndsAt(env, i, t, k, n, r)
  {
    hide JobAt, Apply;
  }

  // ---- The trees on the way ----

  /** Job `i` if nothing disturbs it. */
  ghost predicate CalmStep(env: Env, i: nat, t: Tree, u: Tree)
    requires i < JOB_COUNT
  {
    (forall k :: env.fault(i, k) == None) ==> Apply(JobAt(i), t, None) == Ok(u)
  }

  lemma {:induction false} RunJobSteps(env: Env, i: nat, t: Tree, k: nat)
    requires Sleeps(env) && i < JOB_COUNT && RunJob(env, i, t, k).Applied?
    ensures Step(i, t, RunJob(env, i, t, k).tree) && CalmStep(env, i, t, RunJob(env, i, t, k).tree)
    decreases if TimedOut(env.elapsed(i, k)) then 0 else 3000 - env.elapsed(i, k)
  {
    hide JobAt;
    assert SleptBetween(env, i, k);
    var r := Apply(JobAt(i), t, env.fault(i, k));
    if r.Err? {
      RunJobSteps(env, i, t, k + 1);
    }
  }

  /** Any number of trees from job `i` on, each made from the one before. */
  ghost predicate Trail(i: nat, ts: seq<Tree>) {
    1 <= |ts| && i + |ts| <= JOB_COUNT + 1 && forall j :: 0 <= j < |ts| - 1 ==> Step(i + j, ts[j], ts[j + 1])
  }

  lemma {:induction false} ForwardTrail(env: Env, t: Tree, i: nat) returns (ts: seq<Tree>)
    requires Sleeps(env) && i <= JOB_COUNT
    ensures Trail(i, ts) && ts[0] == t
    ensures ts[|ts| - 1] == Forward(env, t, i).tree && i + |ts| - 1 == Forward(env, t, i).done
    ensures forall j :: 0 <= j < |ts| - 1 ==> CalmStep(env, i + j, ts[j], ts[j + 1])
    decreases JOB_COUNT - i
  {
    hide JobAt, RunJob, Step, CalmStep;
    ts := [t];
    if i < JOB_COUNT && RunJob(env, i, t, 0).Applied? {
      var t' := RunJob(env, i, t, 0).tree;
      RunJobSteps(env, i, t, 0);
      var rest := [t'];
      if env.posts(i) {
        rest := ForwardTrail(env, t', i + 1);
      }
      ts := [t] + rest;
      forall j | 0 <= j < |ts| - 1 ensures Step(i + j, ts[j], ts[j + 1]) && CalmStep(env, i + j, ts[j], ts[j + 1]) {
        if j > 0 {
          assert Step(i + 1 + (j - 1), rest[j - 1], rest[j]) && CalmStep(env, i + 1 + (j - 1), rest[j - 1], rest[j]);
        }
      }
    }
  }

  /** The jobs that were applied form a run from the initial tree. */
  lemma ForwardRun(env: Env, t: Tree) returns (ts: seq<Tree>)
    requires Sleeps(env)
    ensures Run(ts) && ts[0] == t
    ensures ts[|ts| - 1] == Forward(env, t, 0).tree && |ts| - 1 == Forward(env, t, 0).done
    ensures forall j :: 0 <= j < |ts| - 1 ==> CalmStep(env, j, ts[j], ts[j + 1])
  {
    hide JobAt, Forward, Step, CalmStep;
    ts := ForwardTrail(env, t, 0);
    forall j | 0 <= j < |ts| - 1 ensures Step(j, ts[j], ts[j + 1]) && CalmStep(env, j, ts[j], ts[j + 1]) {
      assert Step(0 + j, ts[j], ts[j + 1]) && CalmStep(env, 0 + j, ts[j], ts[j + 1]);
    }
  }

  /** The jobs go on until one is given up or a message cannot be posted, and not beyond. */
  lemma {:induction false} ForwardEnds(env: Env, t: Tree, i: nat)
    requires Sleeps(env) && i <= JOB_COUNT
    ensures var p := Forward(env, t, i);
            && (p.posted ==> (forall j :: i <= j < p.done ==> env.posts(j))
                             && (p.done < 22 ==> RunJob(env, p.done, p.tree, 0).GaveUp?))
            && (!p.posted ==> i < p.done && !env.posts(p.done - 1) && forall j :: i <= j < p.done - 1 ==> env.posts(j))
    decreases JOB_COUNT - i
  {
    hide JobAt, RunJob;
    if i < JOB_COUNT && RunJob(env, i, t, 0).Applied? && env.posts(i) {
      ForwardEnds(env, RunJob(env, i, t, 0).tree, i + 1);
    }
  }

  // ---- Main results ----

  /** Every message is posted and the clean-up jobs get their first attempt in time. */
  ghost predicate Prompt(env: Env) {
    (forall i :: env.posts(i)) && forall i :: i >= CLEANUP ==> !TimedOut(env.elapsed(i, 0))
  }

  lemma {:induction false} CleanupFinishes(env: Env, t: Tree, i: nat)
    requires Sleeps(env) && Prompt(env) && i <= JOB_COUNT
    ensures var p := Forward(env, t, i); p.posted && (p.done == JOB_COUNT || p.done < CLEANUP)
    decreases JOB_COUNT - i
  {
    hide JobAt;
    if i < JOB_COUNT {
      assert i >= CLEANUP ==> JobAt(i).RmdirNofail?;
      if RunJob(env, i, t, 0).Applied? {
        CleanupFinishes(env, RunJob(env, i, t, 0).tree, i + 1);
      }
    }
  }

  /** If messages are posted and the clean-up jobs start in time, no rollback reaches a clean-up job; a
      rollback that does reach one fails. */
  lemma CleanupNotRolledBack(env: Env, t: Tree)
    requires Sleeps(env)
    ensures Prompt(env) ==> Forward(env, t, 0).done == JOB_COUNT || Forward(env, t, 0).done < CLEANUP
    ensures Forward(env, t, 0).posted && CLEANUP < Forward(env, t, 0).done < JOB_COUNT ==>
              Perform(env, t).0 == RollbackFailed
  {
    hide JobAt, Forward;
    if Prompt(env) {
      CleanupFinishes(env, t, 0);
    }
    var n := Forward(env, t, 0).done;
    if CLEANUP < n < JOB_COUNT {
      assert JobAt(n - 1).RmdirNofail?;
    }
  }

  /** An update that stops after `n` jobs ends with exactly the tree it started from, if and only if
      the start was clean for `n` and no rollback was disturbed into failing. */
  lemma FailureRestoresExactly(env: Env, t: Tree)
    requires Sleeps(env) && WellFormed(t)
    requires var p := Forward(env, t, 0); p.posted && p.done <= CLEANUP
    ensures var n := Forward(env, t, 0).done;
            var (outcome, tree) := Perform(env, t);
            && (outcome in {RolledBack, NothingToRollBack} ==> (tree == t <==> Clean(t, n)))
            && ((forall i :: env.undoFault(i) == None) ==>
                  (outcome in {RolledBack, NothingToRollBack} && tree == t <==> Clean(t, n)))
  {
    hide JobAt, Forward, Unwind, Clean, Run;
    var ts := ForwardRun(env, t);
    var n := |ts| - 1;
    RollbackExact(ts);
    UnwindNothing(ts[n], env.undoFault);
    UnwindNothing(ts[n], UNDISTURBED);
    CleanNothing(t);
    if Unwind(ts[n], n, env.undoFault).complete {
      CompleteUndisturbed(ts[n], n, env.undoFault);
    }
    if forall i :: env.undoFault(i) == None {
      NoFaults(ts[n], n, env.undoFault);
    }
  }

  lemma UnwindNothing(t: Tree, faults: nat -> Option<Fault>)
    ensures Unwind(t, 0, faults) == Unwound(t, true)
  {
  }

  lemma CleanNothing(t: Tree)
    ensures Clean(t, 0)
  {
  }

  lemma {:induction false} NoFaults(t: Tree, n: nat, faults: nat -> Option<Fault>)
    requires n <= JOB_COUNT && forall i :: faults(i) == None
    ensures Unwind(t, n, faults) == Unwind(t, n, UNDISTURBED)
    decreases n
  {
    hide JobAt, Rollback;
    if n > 0 && Rollback(JobAt(n - 1), t, None).Ok? {
      NoFaults(Rollback(JobAt(n - 1), t, None).value, n - 1, faults);
    }
  }

  /** All or nothing: without `old`, `x64` and `arm64` at the start, and with no rollback disturbed,
      the update either completes or leaves the tree as it was. */
  lemma AllOrNothing(env: Env, t: Tree)
    requires Sleeps(env) && Prompt(env) && (forall i :: env.undoFault(i) == None)
    requires WellFormed(t) && Clean(t, CLEANUP)
    ensures Perform(env, t).0 == Completed
            || (Perform(env, t).0 in {RolledBack, NothingToRollBack} && Perform(env, t).1 == t)
  {
    hide JobAt, Forward, Unwind;
    CleanupFinishes(env, t, 0);
    if Forward(env, t, 0).done != JOB_COUNT {
      FailureRestoresExactly(env, t);
    }
  }

  /** A completed update has every new file in its place, with what lies below it, and has left unknown
      names alone. */
  lemma SuccessInstalls(env: Env, t: Tree, r: Path, q: Path)
    requires Sleeps(env) && WellFormed(t) && Perform(env, t).0 == Completed
    ensures At(Perform(env, t).1, [Z3rmExe] + r) == At(t, [Install, Z3rmExe] + r)
    ensures At(Perform(env, t).1, [Bin, Z3rmExe] + r) == At(t, [Install, Bin, Z3rmExe] + r)
    ensures At(Perform(env, t).1, [Bin, Z3rm] + r) == At(t, [Install, Bin, Z3rm] + r)
    ensures At(Perform(env, t).1, [X64, OpenConsoleExe] + r) == At(t, [Install, X64, OpenConsoleExe] + r)
    ensures At(Perform(env, t).1, [Arm64, OpenConsoleExe] + r) == At(t, [Install, Arm64, OpenConsoleExe] + r)
    ensures At(Perform(env, t).1, [ConptyDll] + r) == At(t, [Install, ConptyDll] + r)
    ensures q != [] && q[0].Other? ==> At(Perform(env, t).1, q) == At(t, q)
  {
    hide JobAt, Forward, Unwind;
    var ts := ForwardRun(env, t);
    InstalledFiles(ts, r);
    if q != [] && q[0].Other? {
      OthersUnchanged(ts, JOB_COUNT, q);
    }
  }

  // ---- The driver as it runs ----

  class Updater {
    var tree: Tree

    constructor (t: Tree)
      ensures tree == t
    {
      tree := t;
    }

    /** The inner loop: tries job `i` until it works, runs out of time or fails for good. */
    method TryJob(env: Env, i: nat) returns (applied: bool, attempts: nat)
      requires Sleeps(env) && i < JOB_COUNT
      modifies this
      ensures attempts <= 60
      ensures match RunJob(env, i, old(tree), 0)
              case Applied(t, n) => applied && tree == t && attempts == n
              case GaveUp(n) => !applied && tree == old(tree) && attempts == n
    {
      hide JobAt, Apply;
      AttemptsBounded(env, i, tree, 0);
      attempts := 0;
      while true
        invariant tree == old(tree)
        invariant RunJob(env, i, tree, attempts) == RunJob(env, i, old(tree), 0)
        decreases if TimedOut(env.elapsed(i, attempts)) then 0 else 1 + 3000 - env.elapsed(i, attempts)
      {
        assert SleptBetween(env, i, attempts);
        if TimedOut(env.elapsed(i, attempts)) {
          return false, attempts;
        }
        var r := Apply(JobAt(i), tree, env.fault(i, attempts));
        attempts := attempts + 1;
        match r {
          case Ok(t) =>
            tree := t;
            return true, attempts;
          case Err(e) =>
            if e != OtherIo {
              return false, attempts;
            }
        }
      }
    }

    /** `perform_update` */
    method PerformUpdate(env: Env) returns (outcome: Outcome)
      requires Sleeps(env)
      modifies this
      ensures (outcome, tree) == Perform(env, old(tree))
    {
      hide JobAt, RunJob, Rollback;
      var done := 0;
      var i := 0;
      var running := true;
      while running && i < JOB_COUNT
        invariant 0 <= done <= i <= JOB_COUNT
        invariant running ==> done == i && Forward(env, tree, i) == Forward(env, old(tree), 0)
        invariant !running ==> Forward(env, old(tree), 0) == Progress(tree, done, true)
        decreases JOB_COUNT - i, running
      {
        var applied, _ := TryJob(env, i);
        if applied {
          done := i + 1;
          if !env.posts(i) {
            return PostFailed;
          }
          i := i + 1;
        } else {
          running := false;
        }
      }
      if done == JOB_COUNT {
        return Completed;
      }
      if done == 0 {
        return NothingToRollBack;
      }
      ghost var stopped := tree;
      var job := done;
      while job > 0
        invariant 0 <= job <= done
        invariant Unwind(tree, job, env.undoFault) == Unwind(stopped, done, env.undoFault)
      {
        var r := Rollback(JobAt(job - 1), tree, env.undoFault(job - 1));
        if r.Err? {
          return RollbackFailed;
        }
        tree := r.value;
        job := job - 1;
      }
      return RolledBack;
    }
  }
}
