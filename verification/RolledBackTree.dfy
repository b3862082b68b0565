/** What a completed rollback leaves, path by path, from any tree. */
module RolledBackTree {
  import opened Wrappers
  import opened FileTree
  import opened Jobs
  import opened UpdateRuns
  import opened UpdateResults
  import opened UpdateCompletes
  import opened PerformUpdate
  import opened RollbackCompletes

  /** The jobs that set a console aside if there is one. */
  predicate Consoles(c: nat) {
    c == 5 || SetsAside(c)
  }

  function ConsolePath(c: nat): Path
    requires Consoles(c)
  {
    if c == 5 then [OpenConsoleExe] else if c == 8 then [X64, OpenConsoleExe] else [Arm64, OpenConsoleExe]
  }

  /** What is at `q` after the first `n` jobs were applied to `t` and rolled back: `old` is gone, and the
      directories of the consoles once their jobs were done; a console that was only in `old` has come
      out of it; everything else is as it was. */
  function AfterRollback(t: Tree, n: nat, q: Path): Option<Node> {
    if n >= 1 && [Old] <= q then None
    else if n >= 15 && [X64] <= q then None
    else if n >= 16 && [Arm64] <= q then None
    else if exists c :: c in {5, 8, 9} && n > c && ConsolePath(c) <= q && ConsolePath(c) !in t then At(t, [Old] + q)
    else At(t, q)
  }

  lemma ConsoleJob(c: nat)
    requires Consoles(c)
    ensures JobAt(c) == MoveIfExists(ConsolePath(c), [Old] + ConsolePath(c))
  {
  }

  // ---- Which paths a rolled-back job may leave different ----

  /** Rolling back job `j` may leave `q` other than it was before the job. */
  predicate Taints(j: nat, q: Path)
    requires j < CLEANUP
  {
    var job := JobAt(j);
    if Moves(job) then j < 11 && (job.to <= q || (Consoles(j) && job.from <= q)) else job.dir <= q
  }

  predicate Tainted(k: nat, n: nat, q: Path)
    requires n <= CLEANUP
  {
    exists j :: k <= j < n && Taints(j, q)
  }

  /** Before the jobs below `k` are rolled back, every untainted path is as it was after job `k`. */
  ghost predicate Agrees(ts: seq<Tree>, k: nat, u: Tree)
    requires k < |ts| <= CLEANUP + 1
  {
    forall q :: !Tainted(k, |ts| - 1, q) ==> At(u, q) == At(ts[k], q)
  }

  lemma RollbackWellFormed(job: Job, u: Tree, u': Tree)
    requires WellFormed(u) && Sensible(job) && Rollback(job, u, None) == Ok(u')
    ensures WellFormed(u')
  {
    hide Moved;
    match job
    case Mkdir(dir) => WithoutWellFormed(u, dir);
    case MkdirIfExists(dir, _) => WithoutWellFormed(u, dir);
    case MoveFile(from, to) => MoveWellFormed(u, to, from);
    case MoveIfExists(from, to) =>
      if to in u {
        MoveWellFormed(u, to, from);
      }
  }

  /** Where a job moves something is tainted by no later job. */
  lemma TargetUntainted(i: nat, j: nat, r: Path)
    requires i < j < CLEANUP && Moves(JobAt(i))
    ensures !Taints(j, JobAt(i).to + r)
  {
    hide JobAt, Diverge;
    TargetDiverges(i, j);
    var to, job := JobAt(i).to, JobAt(j);
    if Moves(job) {
      if j < 11 {
        DivergePrefix(job.to, to, r);
        if Consoles(j) {
          DivergePrefix(job.from, to, r);
        }
      }
    } else {
      DivergePrefix(job.dir, to, r);
    }
  }

  lemma TargetDiverges(i: nat, j: nat)
    requires i < j < CLEANUP && Moves(JobAt(i))
    ensures var job := JobAt(j);
            if Moves(job) then j < 11 ==> Diverge(job.to, JobAt(i).to) && (Consoles(j) ==> Diverge(job.from, JobAt(i).to))
            else Diverge(job.dir, JobAt(i).to)
  {
  }

  lemma UntaintedStep(j: nat, n: nat, q: Path)
    requires j < n <= CLEANUP && !Tainted(j, n, q)
    ensures !Taints(j, q) && !Tainted(j + 1, n, q)
  {
    hide Taints;
  }

  lemma TargetAgrees(ts: seq<Tree>, j: nat, u: Tree, r: Path)
    requires j + 1 < |ts| <= CLEANUP + 1 && Moves(JobAt(j)) && Agrees(ts, j + 1, u)
    ensures At(u, JobAt(j).to + r) == At(ts[j + 1], JobAt(j).to + r)
  {
    hide JobAt, Taints;
    forall i | j + 1 <= i < |ts| - 1 ensures !Taints(i, JobAt(j).to + r) {
      TargetUntainted(j, i, r);
    }
  }

  lemma SourceThere(ts: seq<Tree>, j: nat, r: Path)
    requires Run(ts) && WellFormed(ts[0]) && j + 1 < |ts| && j < CLEANUP && Moves(JobAt(j)) && JobAt(j).from in ts[j]
    ensures At(ts[j + 1], JobAt(j).to + r) == At(ts[j], JobAt(j).from + r)
  {
    hide JobAt, Moved, Rename;
    var job := JobAt(j);
    assert Step(j, ts[j], ts[j + 1]);
    StepUndisturbed(j, ts[j], ts[j + 1]);
    RenameMoves(ts[j], job.from, job.to);
    MovedAt(ts[j], job.from, job.to, job.to + r);
    assert (job.to + r)[|job.to|..] == r;
  }

  /** Rolling back a move that was made brings back what was at its source. */
  lemma MoveUndone(ts: seq<Tree>, j: nat, u: Tree, u': Tree, q: Path)
    requires Run(ts) && WellFormed(ts[0]) && j + 1 < |ts| <= CLEANUP + 1 && Moves(JobAt(j)) && JobAt(j).from in ts[j]
    requires Agrees(ts, j + 1, u) && Rollback(JobAt(j), u, None) == Ok(u')
    ensures JobAt(j).from <= q ==> At(u', q) == At(ts[j], q)
    ensures JobAt(j).to <= q ==> q !in u'
  {
    hide JobAt, Moved, Rename, Agrees;
    var job := JobAt(j);
    MovePathsApart(j);
    MoveFacts(j);
    TargetAgrees(ts, j, u, []);
    SourceThere(ts, j, []);
    assert job.to + [] == job.to && job.from + [] == job.from;
    RenameMoves(u, job.to, job.from);
    MovedAt(u, job.to, job.from, q);
    if job.from <= q {
      var r := q[|job.from|..];
      assert job.from + r == q;
      TargetAgrees(ts, j, u, r);
      SourceThere(ts, j, r);
    }
    if job.to <= q {
      BranchesApart(j, q);
    }
  }

  lemma BranchesApart(j: nat, q: Path)
    requires j < CLEANUP && Moves(JobAt(j)) && JobAt(j).to <= q
    ensures !(JobAt(j).from <= q)
  {
    var job := JobAt(j);
    assert Diverge(job.from, job.to);
    DivergePrefix(job.from, job.to, q[|job.to|..]);
    assert job.to + q[|job.to|..] == q;
  }

  lemma NeitherSpared(j: nat, q: Path)
    requires j < CLEANUP && Moves(JobAt(j)) && !(JobAt(j).from <= q) && !(JobAt(j).to <= q)
    ensures Spared(JobAt(j), q)
  {
  }

  /** A move that was not made, because there was nothing to move, leaves nothing to roll back. */
  lemma NothingUndone(ts: seq<Tree>, j: nat, u: Tree, u': Tree)
    requires Run(ts) && WellFormed(ts[0]) && j + 1 < |ts| <= CLEANUP + 1 && 11 <= j && Moves(JobAt(j)) && JobAt(j).from !in ts[j]
    requires Agrees(ts, j + 1, u) && Rollback(JobAt(j), u, None) == Ok(u')
    ensures u' == u && ts[j + 1] == ts[j]
  {
    hide JobAt, Moved, Rename, Agrees;
    AfterMove(ts, j);
    NewPlaceFree(ts, j);
    TargetAgrees(ts, j, u, []);
    assert JobAt(j).to + [] == JobAt(j).to;
  }

  lemma AgreesAt(ts: seq<Tree>, j: nat, u: Tree, u': Tree, q: Path)
    requires Run(ts) && WellFormed(ts[0]) && j + 1 < |ts| <= CLEANUP + 1
    requires Agrees(ts, j + 1, u) && Rollback(JobAt(j), u, None) == Ok(u') && !Tainted(j, |ts| - 1, q)
    ensures At(u', q) == At(ts[j], q)
  {
    var job := JobAt(j);
    UntaintedStep(j, |ts| - 1, q);
    assert At(u, q) == At(ts[j + 1], q);
    assert if Moves(job) then j >= 11 || (!(job.to <= q) && (Consoles(j) ==> !(job.from <= q))) else !(job.dir <= q);
    hide JobAt, Agrees, Tainted, Taints, Rollback, Untouched;
    if !Moves(job) {
      DirSpared(j, q);
      SparedStays(ts, j, u, u', q);
    } else if !(job.from <= q) && !(job.to <= q) {
      NeitherSpared(j, q);
      SparedStays(ts, j, u, u', q);
    } else if job.from in ts[j] {
      MoveUndone(ts, j, u, u', q);
      if job.to <= q {
        NewPlaceFree(ts, j);
        RunSound(ts, j);
        NothingBelow(ts[j], job.to, q);
      }
    } else {
      MoveKind(ts, j);
      NothingUndone(ts, j, u, u');
    }
  }

  lemma DirSpared(j: nat, q: Path)
    requires j < CLEANUP && !Moves(JobAt(j)) && !(JobAt(j).dir <= q)
    ensures Spared(JobAt(j), q)
  {
  }

  /** Only a console, or a new file, can be missing when its job comes. */
  lemma MoveKind(ts: seq<Tree>, j: nat)
    requires Run(ts) && WellFormed(ts[0]) && j + 1 < |ts| && j < CLEANUP && Moves(JobAt(j)) && JobAt(j).from !in ts[j]
    ensures Consoles(j) || j >= 11
  {
    AfterMove(ts, j);
  }

  lemma AgreesStep(ts: seq<Tree>, j: nat, u: Tree, u': Tree)
    requires Run(ts) && WellFormed(ts[0]) && j + 1 < |ts| <= CLEANUP + 1
    requires Agrees(ts, j + 1, u) && Rollback(JobAt(j), u, None) == Ok(u')
    ensures Agrees(ts, j, u')
  {
    hide JobAt, Tainted, Rollback, Run;
    forall q | !Tainted(j, |ts| - 1, q) ensures At(u', q) == At(ts[j], q) {
      AgreesAt(ts, j, u, u', q);
    }
  }

  // ---- The consoles ----

  lemma ConsolePathsClear(c: nat, k: nat)
    requires Consoles(c) && k < c
    ensures Clear(JobAt(k), ConsolePath(c)) && Clear(JobAt(k), [Old] + ConsolePath(c))
    ensures !Moves(JobAt(k)) ==> Diverge(JobAt(k).dir, ConsolePath(c))
  {
    assert [Old] + ConsolePath(5) == [Old, OpenConsoleExe];
    assert [Old] + ConsolePath(8) == [Old, X64, OpenConsoleExe];
    assert [Old] + ConsolePath(9) == [Old, Arm64, OpenConsoleExe];
  }

  /** Its job finds a console, and what is below it, as at the start. */
  lemma ConsoleFound(ts: seq<Tree>, c: nat, r: Path)
    requires Consoles(c) && Run(ts) && WellFormed(ts[0]) && c < |ts|
    ensures At(ts[c], ConsolePath(c) + r) == At(ts[0], ConsolePath(c) + r)
    ensures At(ts[c], [Old] + ConsolePath(c) + r) == At(ts[0], [Old] + ConsolePath(c) + r)
  {
    hide JobAt, Untouched, Clear, Run, ConsolePath;
    forall k | 0 <= k < c
      ensures Untouched(JobAt(k), ConsolePath(c) + r) && Untouched(JobAt(k), [Old] + ConsolePath(c) + r)
    {
      ConsolePathsClear(c, k);
      ClearUntouched(JobAt(k), ConsolePath(c), r);
      ClearUntouched(JobAt(k), [Old] + ConsolePath(c), r);
    }
    RunFrame(ts, 0, c, ConsolePath(c) + r);
    RunFrame(ts, 0, c, [Old] + ConsolePath(c) + r);
  }

  lemma ConsoleSpared(c: nat, k: nat, r: Path)
    requires Consoles(c) && k < c
    ensures Spared(JobAt(k), ConsolePath(c) + r)
  {
    hide JobAt, Clear, ConsolePath, Diverge;
    ConsolePathsClear(c, k);
    ClearUntouched(JobAt(k), ConsolePath(c), r);
    if !Moves(JobAt(k)) {
      DivergePrefix(JobAt(k).dir, ConsolePath(c), r);
    }
  }

  /** The console's place is not in a directory that the rollback has removed before. */
  predicate PlaceStands(c: nat, n: nat)
    requires Consoles(c)
  {
    SetsAside(c) ==> n <= Maker(c)
  }

  lemma PlaceUntainted(c: nat, n: nat, r: Path)
    requires Consoles(c) && n <= CLEANUP && PlaceStands(c, n)
    ensures !Tainted(c + 1, n, ConsolePath(c) + r)
  {
    hide JobAt, ConsolePath, Diverge;
    forall j | c + 1 <= j < n ensures !Taints(j, ConsolePath(c) + r) {
      PlaceDiverges(c, j);
      var job := JobAt(j);
      if !Moves(job) {
        DivergePrefix(job.dir, ConsolePath(c), r);
      } else if j < 11 {
        DivergePrefix(job.to, ConsolePath(c), r);
        if Consoles(j) {
          DivergePrefix(job.from, ConsolePath(c), r);
        }
      }
    }
  }

  lemma PlaceDiverges(c: nat, j: nat)
    requires Consoles(c) && c < j < CLEANUP && (SetsAside(c) ==> j < Maker(c))
    ensures var job := JobAt(j);
            if Moves(job) then j < 11 ==> Diverge(job.to, ConsolePath(c)) && (Consoles(j) ==> Diverge(job.from, ConsolePath(c)))
            else Diverge(job.dir, ConsolePath(c))
  {
  }

  /** What rolling back a console's job leaves at its place: the console that was there, or else the one
      that was left in `old`. */
  lemma ConsoleBack(ts: seq<Tree>, c: nat, u: Tree, u': Tree, r: Path)
    requires Consoles(c) && Run(ts) && WellFormed(ts[0]) && c + 1 < |ts| <= CLEANUP + 1 && PlaceStands(c, |ts| - 1)
    requires Agrees(ts, c + 1, u) && Rollback(JobAt(c), u, None) == Ok(u')
    ensures var p := ConsolePath(c);
            At(u', p + r) == if p in ts[0] then At(ts[0], p + r) else At(ts[0], [Old] + p + r)
  {
    hide JobAt, Moved, Rename, ConsolePath, Tainted, Run;
    var p := ConsolePath(c);
    ConsoleJob(c);
    ConsoleFound(ts, c, []);
    ConsoleFound(ts, c, r);
    assert p + [] == p && [Old] + p + [] == [Old] + p;
    if p in ts[0] {
      MoveUndone(ts, c, u, u', p + r);
    } else {
      AfterMove(ts, c);
      TargetAgrees(ts, c, u, []);
      TargetAgrees(ts, c, u, r);
      if [Old] + p in u {
        RenameMoves(u, [Old] + p, p);
        MovedAt(u, [Old] + p, p, p + r);
        assert (p + r)[|p|..] == r;
      } else {
        PlaceUntainted(c, |ts| - 1, r);
        NothingBelow(ts[0], p, p + r);
        NothingBelow(ts[0], [Old] + p, [Old] + p + r);
      }
    }
  }

  // ---- The whole rollback ----

  lemma {:induction false} UnwindSpares(u: Tree, k: nat, q: Path)
    requires k <= CLEANUP && Unwind(u, k, UNDISTURBED).complete
    requires forall j :: 0 <= j < k ==> Spared(JobAt(j), q)
    ensures At(Unwind(u, k, UNDISTURBED).tree, q) == At(u, q)
    decreases k
  {
    hide JobAt, Rollback, Spared;
    if k > 0 {
      var u' := Rollback(JobAt(k - 1), u, None).value;
      SparedBack(JobAt(k - 1), u, u', q);
      UnwindSpares(u', k - 1, q);
    }
  }

  lemma SparedBack(job: Job, u: Tree, u': Tree, q: Path)
    requires Sensible(job) && Rollback(job, u, None) == Ok(u') && Spared(job, q)
    ensures At(u', q) == At(u, q)
  {
    hide Rollback, Untouched;
    RollbackFrame(job, u, u', None, q);
  }

  /** Untainted paths end as they started, and consoles as said above. */
  lemma {:induction false} UnwindLeaves(ts: seq<Tree>, k: nat, u: Tree, q: Path)
    requires Run(ts) && WellFormed(ts[0]) && k < |ts| <= CLEANUP + 1 && Agrees(ts, k, u) && WellFormed(u)
    requires Unwind(u, k, UNDISTURBED).complete
    ensures var end := Unwind(u, k, UNDISTURBED).tree;
            && WellFormed(end)
            && (!Tainted(0, |ts| - 1, q) ==> At(end, q) == At(ts[0], q))
    decreases k
  {
    hide JobAt, Rollback, Agrees, WellFormed, Run;
    if k == 0 {
      AgreesAtStart(ts, u, q);
    } else {
      var u' := Rollback(JobAt(k - 1), u, None).value;
      RollbackWellFormed(JobAt(k - 1), u, u');
      AgreesStep(ts, k - 1, u, u');
      UnwindLeaves(ts, k - 1, u', q);
    }
  }

  lemma AgreesAtStart(ts: seq<Tree>, u: Tree, q: Path)
    requires 0 < |ts| <= CLEANUP + 1 && Agrees(ts, 0, u)
    ensures !Tainted(0, |ts| - 1, q) ==> At(u, q) == At(ts[0], q)
  {
  }

  lemma {:induction false} ConsoleLeaves(ts: seq<Tree>, k: nat, u: Tree, c: nat, r: Path)
    requires Consoles(c) && Run(ts) && WellFormed(ts[0]) && c < k < |ts| <= CLEANUP + 1 && PlaceStands(c, |ts| - 1)
    requires Agrees(ts, k, u) && Unwind(u, k, UNDISTURBED).complete
    ensures var p := ConsolePath(c);
            At(Unwind(u, k, UNDISTURBED).tree, p + r)
            == if p in ts[0] then At(ts[0], p + r) else At(ts[0], [Old] + p + r)
    decreases k
  {
    hide JobAt, Rollback, Agrees, Spared, Run, ConsolePath;
    var u' := Rollback(JobAt(k - 1), u, None).value;
    if k - 1 == c {
      ConsoleBack(ts, c, u, u', r);
      forall j | 0 <= j < c ensures Spared(JobAt(j), ConsolePath(c) + r) {
        ConsoleSpared(c, j, r);
      }
      UnwindSpares(u', c, ConsolePath(c) + r);
    } else {
      AgreesStep(ts, k - 1, u, u');
      ConsoleLeaves(ts, k - 1, u', c, r);
    }
  }

  lemma TaintedWhere(n: nat, q: Path)
    requires n <= CLEANUP && Tainted(0, n, q)
    ensures || (n >= 1 && [Old] <= q)
            || (n >= 15 && [X64] <= q)
            || (n >= 16 && [Arm64] <= q)
            || exists c :: c in {5, 8, 9} && n > c && ConsolePath(c) <= q
  {
    var j :| 0 <= j < n && Taints(j, q);
    var job := JobAt(j);
    if Moves(job) {
      assert job.to[0] == Old;
      assert Consoles(j) ==> job.from == ConsolePath(j);
    } else {
      assert job.dir[0] == Old || job.dir == [X64] || job.dir == [Arm64];
    }
  }

  lemma RemovedBelow(ts: seq<Tree>, k: nat, dir: Path, q: Path)
    requires Run(ts) && WellFormed(ts[0]) && k + 1 < |ts| <= CLEANUP + 1 && dir in {[Old], [X64], [Arm64]} && dir <= q
    requires MakesDir(JobAt(k), dir) && Unwind(ts[|ts| - 1], |ts| - 1, UNDISTURBED).complete
    ensures q !in Unwind(ts[|ts| - 1], |ts| - 1, UNDISTURBED).tree
  {
    hide JobAt, Unwind, Run, Agrees;
    var n := |ts| - 1;
    UnwindRemoves(ts[n], n, UNDISTURBED, k, dir);
    AgreesAtEnd(ts);
    RunSound(ts, n);
    UnwindLeaves(ts, n, ts[n], q);
    NothingBelow(Unwind(ts[n], n, UNDISTURBED).tree, dir, q);
  }

  lemma AgreesAtEnd(ts: seq<Tree>)
    requires 0 < |ts| <= CLEANUP + 1
    ensures Agrees(ts, |ts| - 1, ts[|ts| - 1])
  {
  }

  lemma DirMakers()
    ensures MakesDir(JobAt(0), [Old]) && MakesDir(JobAt(14), [X64]) && MakesDir(JobAt(15), [Arm64])
  {
  }

  /** A rollback that completes leaves exactly this tree, whatever the tree was. */
  lemma RollbackLeaves(ts: seq<Tree>, q: Path)
    requires Run(ts) && WellFormed(ts[0]) && |ts| <= CLEANUP + 1
    requires Unwind(ts[|ts| - 1], |ts| - 1, UNDISTURBED).complete
    ensures At(Unwind(ts[|ts| - 1], |ts| - 1, UNDISTURBED).tree, q) == AfterRollback(ts[0], |ts| - 1, q)
  {
    hide JobAt, Unwind, Step, Agrees, Tainted, ConsolePath, WellFormed;
    var n, t := |ts| - 1, ts[0];
    DirMakers();
    AgreesAtEnd(ts);
    if n >= 1 && [Old] <= q {
      RemovedBelow(ts, 0, [Old], q);
    } else if n >= 15 && [X64] <= q {
      RemovedBelow(ts, 14, [X64], q);
    } else if n >= 16 && [Arm64] <= q {
      RemovedBelow(ts, 15, [Arm64], q);
    } else if exists c :: c in {5, 8, 9} && n > c && ConsolePath(c) <= q {
      var c :| c in {5, 8, 9} && n > c && ConsolePath(c) <= q;
      ConsoleLeft(ts, c, q);
    } else {
      if Tainted(0, n, q) {
        TaintedWhere(n, q);
      }
      RunSound(ts, n);
      UnwindLeaves(ts, n, ts[n], q);
    }
  }

  lemma ConsoleLeft(ts: seq<Tree>, c: nat, q: Path)
    requires Run(ts) && WellFormed(ts[0]) && |ts| <= CLEANUP + 1 && c in {5, 8, 9} && |ts| - 1 > c && ConsolePath(c) <= q
    requires !([Old] <= q) && !(|ts| - 1 >= 15 && [X64] <= q) && !(|ts| - 1 >= 16 && [Arm64] <= q)
    requires Unwind(ts[|ts| - 1], |ts| - 1, UNDISTURBED).complete
    ensures At(Unwind(ts[|ts| - 1], |ts| - 1, UNDISTURBED).tree, q) == AfterRollback(ts[0], |ts| - 1, q)
  {
    hide JobAt, Unwind, Run, Agrees;
    var n, p := |ts| - 1, ConsolePath(c);
    var r := q[|p|..];
    assert p + r == q && [Old] + p + r == [Old] + q;
    AgreesAtEnd(ts);
    assert PlaceStands(c, n);
    ConsoleLeaves(ts, n, ts[n], c, r);
    OneConsole(c, q);
  }

  lemma OneConsole(c: nat, q: Path)
    requires c in {5, 8, 9} && ConsolePath(c) <= q
    ensures forall d :: d in {5, 8, 9} && ConsolePath(d) <= q ==> d == c
  {
    forall d | d in {5, 8, 9} && ConsolePath(d) <= q ensures d == c {
      assert ConsolePath(d)[0] == q[0] == ConsolePath(c)[0];
    }
  }

  /** An update that reports a successful rollback has left exactly this tree. */
  lemma RolledBackLeaves(env: Env, t: Tree, q: Path)
    requires Sleeps(env) && WellFormed(t) && Perform(env, t).0 == RolledBack
    ensures At(Perform(env, t).1, q) == AfterRollback(t, Forward(env, t, 0).done, q)
  {
    hide Forward, Unwind, JobAt, AfterRollback;
    CleanupNotRolledBack(env, t);
    var ts := ForwardRun(env, t);
    var n := |ts| - 1;
    CompleteUndisturbed(ts[n], n, env.undoFault);
    RollbackLeaves(ts, q);
  }
}
