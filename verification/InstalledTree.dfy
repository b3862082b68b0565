/** What an update leaves, path by path and with the paths written out. */
module InstalledTree {
  import opened Wrappers
  import opened FileTree
  import opened Jobs
  import opened UpdateRuns
  import opened UpdateResults
  import opened UpdateCompletes
  import opened PerformUpdate
  import opened RollbackCompletes
  import opened RolledBackTree

  // ---- The old files while the new ones come in ----

  /** A file that job `j` sets aside is where the job put it until the clean-up. */
  predicate Aside(j: nat) {
    j in {1, 3, 4, 10}
  }

  lemma AsideClear(j: nat, k: nat)
    requires Aside(j) && k < CLEANUP
    ensures JobAt(j).MoveFile?
    ensures k < j ==> Clear(JobAt(k), JobAt(j).from)
    ensures j < k ==> Clear(JobAt(k), JobAt(j).to)
  {
  }

  lemma SetAside(ts: seq<Tree>, j: nat, i: nat, r: Path)
    requires Aside(j) && Run(ts) && WellFormed(ts[0]) && j < i < |ts| && i <= CLEANUP
    ensures JobAt(j).MoveFile? && At(ts[i], JobAt(j).to + r) == At(ts[0], JobAt(j).from + r)
  {
    hide JobAt, Clear, Untouched, Run, Moved, Rename;
    AsideClear(j, 0);
    forall k | 0 <= k < j ensures Untouched(JobAt(k), JobAt(j).from + r) {
      AsideClear(j, k);
      ClearUntouched(JobAt(k), JobAt(j).from, r);
    }
    RunFrame(ts, 0, j, JobAt(j).from + r);
    forall k | j + 1 <= k < i ensures Untouched(JobAt(k), JobAt(j).to + r) {
      AsideClear(j, k);
      ClearUntouched(JobAt(k), JobAt(j).to, r);
    }
    RunFrame(ts, j + 1, i, JobAt(j).to + r);
    FoundByMove(ts, j);
    SourceThere(ts, j, r);
  }

  lemma FoundByMove(ts: seq<Tree>, j: nat)
    requires Run(ts) && j + 1 < |ts| && j < CLEANUP && JobAt(j).MoveFile?
    ensures JobAt(j).from in ts[j]
  {
    hide JobAt, Moved;
    assert Step(j, ts[j], ts[j + 1]);
    StepUndisturbed(j, ts[j], ts[j + 1]);
  }

  lemma AsideJobs()
    ensures JobAt(1) == MoveFile([Z3rmExe], [Old, Z3rmExe]) && JobAt(3) == MoveFile([Bin, Z3rmExe], [Old, Bin, Z3rmExe])
    ensures JobAt(4) == MoveFile([Bin, Z3rm], [Old, Bin, Z3rm]) && JobAt(10) == MoveFile([ConptyDll], [Old, ConptyDll])
  {
  }

  /** Between the eleventh job and the clean-up, every old file that is replaced lies under `old`. */
  lemma OldFilesAside(ts: seq<Tree>, i: nat, r: Path)
    requires Run(ts) && WellFormed(ts[0]) && 11 <= i < |ts| && i <= CLEANUP
    ensures At(ts[i], [Old, Z3rmExe] + r) == At(ts[0], [Z3rmExe] + r)
    ensures At(ts[i], [Old, Bin, Z3rmExe] + r) == At(ts[0], [Bin, Z3rmExe] + r)
    ensures At(ts[i], [Old, Bin, Z3rm] + r) == At(ts[0], [Bin, Z3rm] + r)
    ensures At(ts[i], [Old, ConptyDll] + r) == At(ts[0], [ConptyDll] + r)
  {
    hide JobAt, Run;
    AsideJobs();
    SetAside(ts, 1, i, r);
    SetAside(ts, 3, i, r);
    SetAside(ts, 4, i, r);
    SetAside(ts, 10, i, r);
  }

  lemma ConsoleClear(c: nat, k: nat)
    requires Consoles(c) && c < k < CLEANUP
    ensures Clear(JobAt(k), [Old] + ConsolePath(c))
  {
    assert [Old] + ConsolePath(5) == [Old, OpenConsoleExe];
    assert [Old] + ConsolePath(8) == [Old, X64, OpenConsoleExe];
    assert [Old] + ConsolePath(9) == [Old, Arm64, OpenConsoleExe];
  }

  lemma ConsoleAside(ts: seq<Tree>, c: nat, i: nat, r: Path)
    requires Consoles(c) && Run(ts) && WellFormed(ts[0]) && c < i < |ts| && i <= CLEANUP
    ensures var p := ConsolePath(c);
            At(ts[i], [Old] + p + r) == if p in ts[0] then At(ts[0], p + r) else At(ts[0], [Old] + p + r)
  {
    hide JobAt, Clear, Untouched, Run, Moved, Rename, ConsolePath;
    var p := ConsolePath(c);
    ConsoleJob(c);
    ConsoleFound(ts, c, []);
    ConsoleFound(ts, c, r);
    assert p + [] == p;
    forall k | c + 1 <= k < i ensures Untouched(JobAt(k), [Old] + p + r) {
      ConsoleClear(c, k);
      ClearUntouched(JobAt(k), [Old] + p, r);
    }
    RunFrame(ts, c + 1, i, [Old] + p + r);
    if p in ts[0] {
      SourceThere(ts, c, r);
    } else {
      AfterMove(ts, c);
    }
  }

  /** And so does every old console that was there; one that was not leaves what `old` held. */
  lemma OldConsolesAside(ts: seq<Tree>, i: nat, r: Path)
    requires Run(ts) && WellFormed(ts[0]) && 11 <= i < |ts| && i <= CLEANUP
    ensures At(ts[i], [Old, OpenConsoleExe] + r)
         == if [OpenConsoleExe] in ts[0] then At(ts[0], [OpenConsoleExe] + r) else At(ts[0], [Old, OpenConsoleExe] + r)
    ensures At(ts[i], [Old, X64, OpenConsoleExe] + r)
         == if [X64, OpenConsoleExe] in ts[0] then At(ts[0], [X64, OpenConsoleExe] + r)
            else At(ts[0], [Old, X64, OpenConsoleExe] + r)
    ensures At(ts[i], [Old, Arm64, OpenConsoleExe] + r)
         == if [Arm64, OpenConsoleExe] in ts[0] then At(ts[0], [Arm64, OpenConsoleExe] + r)
            else At(ts[0], [Old, Arm64, OpenConsoleExe] + r)
  {
    hide Run;
    ConsoleAside(ts, 5, i, r);
    ConsoleAside(ts, 8, i, r);
    ConsoleAside(ts, 9, i, r);
    assert [Old] + [OpenConsoleExe] == [Old, OpenConsoleExe];
    assert [Old] + [X64, OpenConsoleExe] == [Old, X64, OpenConsoleExe];
    assert [Old] + [Arm64, OpenConsoleExe] == [Old, Arm64, OpenConsoleExe];
  }

  // ---- A finished update ----

  /** At or below the top-level name, or the name in it. */
  predicate Top(q: Path, a: Name) {
    |q| >= 1 && q[0] == a
  }

  predicate Sub(q: Path, a: Name, b: Name) {
    |q| >= 2 && q[0] == a && q[1] == b
  }

  /** The places of the new files. */
  predicate NewPlace(q: Path) {
    || Top(q, Z3rmExe) || Top(q, ConptyDll) || Sub(q, Bin, Z3rmExe) || Sub(q, Bin, Z3rm)
    || Sub(q, X64, OpenConsoleExe) || Sub(q, Arm64, OpenConsoleExe)
  }

  /** What is at `q` after all jobs: at a new file's place what `install` had for it; no console at the
      top; the directories of the new consoles; nothing of `old`, `install` and the directory `updates`;
      everything else as it was. */
  function AfterUpdate(t: Tree, q: Path): Option<Node> {
    if NewPlace(q) then At(t, [Install] + q)
    else if Top(q, OpenConsoleExe) then None
    else if (q == [X64] && [Install, X64] in t) || (q == [Arm64] && [Install, Arm64] in t) then Some(Dir)
    else if Top(q, Old) || Top(q, Install) then None
    else if Top(q, Updates) && IsDir(t, [Updates]) then None
    else At(t, q)
  }

  lemma TopPlace(ts: seq<Tree>, a: Name, r: Path)
    requires Run(ts) && WellFormed(ts[0]) && |ts| == 23 && (a == Z3rmExe || a == ConptyDll)
    ensures At(ts[22], [a] + r) == At(ts[0], [Install, a] + r)
  {
    hide Run;
    InstalledFiles(ts, r);
  }

  lemma SubPlace(ts: seq<Tree>, a: Name, b: Name, r: Path)
    requires Run(ts) && WellFormed(ts[0]) && |ts| == 23
    requires (a, b) in {(Bin, Z3rmExe), (Bin, Z3rm), (X64, OpenConsoleExe), (Arm64, OpenConsoleExe)}
    ensures At(ts[22], [a, b] + r) == At(ts[0], [Install, a, b] + r)
  {
    hide Run;
    InstalledFiles(ts, r);
  }

  lemma TopSplit(q: Path)
    requires |q| >= 1
    ensures q == [q[0]] + q[1..] && [Install] + q == [Install, q[0]] + q[1..]
  {
  }

  lemma SubSplit(q: Path)
    requires |q| >= 2
    ensures q == [q[0], q[1]] + q[2..] && [Install] + q == [Install, q[0], q[1]] + q[2..]
  {
  }

  lemma NewPlaceAfter(ts: seq<Tree>, q: Path)
    requires Run(ts) && WellFormed(ts[0]) && |ts| == 23 && NewPlace(q)
    ensures At(ts[22], q) == At(ts[0], [Install] + q)
  {
    hide Run, WellFormed;
    if Top(q, Z3rmExe) || Top(q, ConptyDll) {
      TopSplit(q);
      TopPlace(ts, q[0], q[1..]);
    } else {
      SubSplit(q);
      SubPlace(ts, q[0], q[1], q[2..]);
    }
  }

  lemma TopConsoleGone(ts: seq<Tree>, q: Path)
    requires Run(ts) && WellFormed(ts[0]) && |ts| == 23 && Top(q, OpenConsoleExe)
    ensures At(ts[22], q) == None
  {
    hide Run, Moved;
    AfterMove(ts, 5);
    assert JobAt(5).from == [OpenConsoleExe];
    RunSound(ts, 6);
    assert [OpenConsoleExe] <= q;
    NothingBelow(ts[6], [OpenConsoleExe], q);
    forall k | 6 <= k < 22 ensures Untouched(JobAt(k), q) {
      TopConsoleUntouched(k, q);
    }
    RunFrame(ts, 6, 22, q);
  }

  lemma TopConsoleUntouched(k: nat, q: Path)
    requires 6 <= k < 22 && Top(q, OpenConsoleExe)
    ensures Untouched(JobAt(k), q)
  {
    var job := JobAt(k);
    if Moves(job) {
      assert job.from[0] != q[0] && job.to[0] != q[0];
    } else {
      assert job.dir[0] != q[0];
    }
  }

  lemma DirMaker(k: nat)
    requires k in {14, 15}
    ensures JobAt(k) == MkdirIfExists(if k == 14 then [X64] else [Arm64], if k == 14 then [Install, X64] else [Install, Arm64])
  {
  }

  lemma DirUntouched(k: nat, i: nat)
    requires k in {14, 15} && i < 22 && i != k
    ensures Untouched(JobAt(i), JobAt(k).dir) && (i < k ==> Untouched(JobAt(i), JobAt(k).check))
  {
    var dir, check, job := JobAt(k).dir, JobAt(k).check, JobAt(i);
    if Moves(job) {
      assert Apart(job.from, dir) && Apart(job.to, dir);
      assert i < k ==> Apart(job.from, check) && Apart(job.to, check);
    } else if job.RmdirNofail? {
      assert Diverge(job.dir, dir);
    } else {
      assert Diverge(job.dir, dir) || |job.dir| != |dir|;
      assert Diverge(job.dir, check) || |job.dir| != |check|;
    }
  }

  /** The directory of a console is made if the update brings one, and else left as it was. */
  lemma ConsoleDirAfter(ts: seq<Tree>, k: nat)
    requires Run(ts) && WellFormed(ts[0]) && |ts| == 23 && k in {14, 15}
    ensures JobAt(k).MkdirIfExists?
    ensures At(ts[22], JobAt(k).dir) == if JobAt(k).check in ts[0] then Some(Dir) else At(ts[0], JobAt(k).dir)
  {
    hide JobAt, Run, Untouched, CreateDirAll;
    DirMaker(k);
    var dir, check := JobAt(k).dir, JobAt(k).check;
    forall i | 0 <= i < k ensures Untouched(JobAt(i), dir) && Untouched(JobAt(i), check) {
      DirUntouched(k, i);
    }
    RunFrame(ts, 0, k, dir);
    RunFrame(ts, 0, k, check);
    forall i | k + 1 <= i < 22 ensures Untouched(JobAt(i), dir) {
      DirUntouched(k, i);
    }
    RunFrame(ts, k + 1, 22, dir);
    RunSound(ts, k);
    ParentsThere(k, ts[k]);
    RunStep(ts, k);
    StepUndisturbed(k, ts[k], ts[k + 1]);
    if check in ts[0] {
      CreateAdds(ts[k], dir);
    }
  }

  lemma UpdatesUntouched(k: nat, q: Path)
    requires k < 22 && k != 19 && Top(q, Updates)
    ensures Untouched(JobAt(k), q)
  {
    var job := JobAt(k);
    if Moves(job) {
      assert job.from[0] != q[0] && job.to[0] != q[0];
    } else {
      assert job.dir[0] != q[0];
    }
  }

  /** The clean-up ran undisturbed. */
  ghost predicate CleanedUndisturbed(ts: seq<Tree>)
    requires |ts| == 23
  {
    forall i :: 19 <= i < 22 ==> Apply(JobAt(i), ts[i], None) == Ok(ts[i + 1])
  }

  lemma UpdatesAfter(ts: seq<Tree>, q: Path)
    requires Run(ts) && WellFormed(ts[0]) && |ts| == 23 && CleanedUndisturbed(ts) && Top(q, Updates)
    ensures At(ts[22], q) == if IsDir(ts[0], [Updates]) then None else At(ts[0], q)
  {
    hide Run, Untouched, JobAt, Apply, WellFormed, Top;
    forall k | 0 <= k < 19 ensures Untouched(JobAt(k), q) && Untouched(JobAt(k), [Updates]) {
      UpdatesUntouched(k, q);
      UpdatesUntouched(k, [Updates]);
    }
    RunFrame(ts, 0, 19, q);
    RunFrame(ts, 0, 19, [Updates]);
    forall k | 20 <= k < 22 ensures Untouched(JobAt(k), q) {
      UpdatesUntouched(k, q);
    }
    RunFrame(ts, 20, 22, q);
    UpdatesRemoved(ts[19], ts[20], q);
  }

  lemma UpdatesRemoved(t: Tree, u: Tree, q: Path)
    requires Apply(JobAt(19), t, None) == Ok(u) && Top(q, Updates)
    ensures At(u, q) == if IsDir(t, [Updates]) then None else At(t, q)
  {
    assert JobAt(19) == RmdirNofail([Updates]) && [Updates] <= q;
  }

  /** A path that no job is about. */
  predicate Elsewhere(q: Path) {
    && !NewPlace(q) && !Top(q, OpenConsoleExe) && q != [X64] && q != [Arm64]
    && !Top(q, Old) && !Top(q, Install) && !Top(q, Updates)
  }

  lemma UnderMeans(p: Path, q: Path)
    ensures |p| == 1 && p <= q ==> Top(q, p[0])
    ensures |p| == 2 && p <= q ==> Sub(q, p[0], p[1])
    ensures |p| >= 1 && p <= q ==> Top(q, p[0])
  {
  }

  lemma ElsewhereUntouched(k: nat, q: Path)
    requires k < 22 && Elsewhere(q)
    ensures Untouched(JobAt(k), q)
  {
    var job := JobAt(k);
    if Moves(job) {
      UnderMeans(job.from, q);
      UnderMeans(job.to, q);
    } else {
      UnderMeans(job.dir, q);
    }
  }

  /** A finished update whose clean-up was not disturbed leaves exactly this tree. */
  lemma UpdateLeaves(ts: seq<Tree>, q: Path)
    requires Run(ts) && WellFormed(ts[0]) && |ts| == 23 && CleanedUndisturbed(ts)
    ensures At(ts[22], q) == AfterUpdate(ts[0], q)
  {
    hide Run, Untouched, JobAt, WellFormed, NewPlace, CleanedUndisturbed;
    if NewPlace(q) {
      NewPlaceAfter(ts, q);
    } else if Top(q, OpenConsoleExe) {
      TopConsoleGone(ts, q);
    } else if q == [X64] || q == [Arm64] {
      var k := if q == [X64] then 14 else 15;
      DirMaker(k);
      ConsoleDirAfter(ts, k);
    } else if Top(q, Old) || Top(q, Install) {
      CleanedAway(ts, q);
    } else if Top(q, Updates) {
      UpdatesAfter(ts, q);
    } else {
      ElsewhereAfter(ts, q);
    }
  }

  lemma ElsewhereAfter(ts: seq<Tree>, q: Path)
    requires Run(ts) && WellFormed(ts[0]) && |ts| == 23 && Elsewhere(q)
    ensures At(ts[22], q) == At(ts[0], q)
  {
    hide Run, Untouched, JobAt, Elsewhere;
    forall k | 0 <= k < 22 ensures Untouched(JobAt(k), q) {
      ElsewhereUntouched(k, q);
    }
    RunFrame(ts, 0, 22, q);
  }

  lemma CleanedAway(ts: seq<Tree>, q: Path)
    requires Run(ts) && WellFormed(ts[0]) && |ts| == 23 && CleanedUndisturbed(ts) && (Top(q, Old) || Top(q, Install))
    ensures At(ts[22], q) == None
  {
    hide Run, JobAt, Apply;
    assert [Old] <= q || [Install] <= q;
    CleanedUp(ts, q);
  }

  /** A completed update whose clean-up jobs were not disturbed has left exactly this tree. */
  lemma CompletedLeaves(env: Env, t: Tree, q: Path)
    requires Sleeps(env) && WellFormed(t) && Perform(env, t).0 == Completed
    requires forall i, k :: i >= 19 ==> env.fault(i, k) == None
    ensures At(Perform(env, t).1, q) == AfterUpdate(t, q)
  {
    hide Forward, Unwind, JobAt, AfterUpdate, Apply;
    var ts := ForwardRun(env, t);
    forall i | 19 <= i < 22 ensures Apply(JobAt(i), ts[i], None) == Ok(ts[i + 1]) {
      assert CalmStep(env, i, ts[i], ts[i + 1]);
    }
    UpdateLeaves(ts, q);
  }

  /** A file that is missing ends the update at the first attempt. */
  lemma MissingFileGivesUp(env: Env, t: Tree, i: nat, p: Path)
    requires Sleeps(env) && env.elapsed(i, 0) < 3000 && env.fault(i, 0) == None && p !in t
    requires (i, p) in {(1, [Z3rmExe]), (3, [Bin, Z3rmExe]), (4, [Bin, Z3rm]), (10, [ConptyDll]), (11, [Install, Z3rmExe]),
                        (12, [Install, Bin, Z3rmExe]), (13, [Install, Bin, Z3rm]), (18, [Install, ConptyDll])}
    ensures RunJob(env, i, t, 0) == GaveUp(1)
  {
    TimedOutAt(env.elapsed(i, 0));
    assert JobAt(i).MoveFile? && JobAt(i).from == p;
  }

  /** A file in the place of `old` keeps the first job busy until time is up. */
  lemma {:induction false} FileInTheWayRetries(env: Env, t: Tree, k: nat)
    requires Sleeps(env) && IsFile(t, [Old]) && forall j :: env.fault(0, j) == None
    ensures var r := RunJob(env, 0, t, k); r.GaveUp? && env.elapsed(0, r.attempts) >= 3000
    decreases if TimedOut(env.elapsed(0, k)) then 0 else 3000 - env.elapsed(0, k)
  {
    assert SleptBetween(env, 0, k);
    assert JobAt(0) == Mkdir([Old]);
    if !TimedOut(env.elapsed(0, k)) {
      FileInTheWayRetries(env, t, k + 1);
    }
  }

  /** What the jobs that set the old files aside need. */
  predicate OldFilesReady(t: Tree) {
    && !IsFile(t, [Old]) && !IsFile(t, [Old, Bin]) && !IsFile(t, [Old, X64]) && !IsFile(t, [Old, Arm64])
    && [Z3rmExe] in t && Replaceable(t, [Z3rmExe], [Old, Z3rmExe])
    && [Bin, Z3rmExe] in t && Replaceable(t, [Bin, Z3rmExe], [Old, Bin, Z3rmExe])
    && [Bin, Z3rm] in t && Replaceable(t, [Bin, Z3rm], [Old, Bin, Z3rm])
    && [ConptyDll] in t && Replaceable(t, [ConptyDll], [Old, ConptyDll])
  }

  predicate OldConsolesReady(t: Tree) {
    && ([OpenConsoleExe] in t ==> Replaceable(t, [OpenConsoleExe], [Old, OpenConsoleExe]))
    && ([X64, OpenConsoleExe] in t ==> Replaceable(t, [X64, OpenConsoleExe], [Old, X64, OpenConsoleExe]))
    && ([Arm64, OpenConsoleExe] in t ==> Replaceable(t, [Arm64, OpenConsoleExe], [Old, Arm64, OpenConsoleExe]))
  }

  predicate NewFilesReady(t: Tree) {
    && [Install, Z3rmExe] in t && [Install, Bin, Z3rmExe] in t && [Install, Bin, Z3rm] in t && [Install, ConptyDll] in t
    && ([Install, X64] in t ==> !IsFile(t, [X64])) && ([Install, Arm64] in t ==> !IsFile(t, [Arm64]))
  }

  lemma OldFilesPossible(t: Tree)
    ensures (forall i :: i in {0, 1, 2, 3, 4, 6, 7, 10} ==> Possible(i, t)) <==> OldFilesReady(t)
  {
    hide Replaceable;
    assert Possible(0, t) <==> !IsFile(t, [Old]);
    assert Possible(1, t) <==> [Z3rmExe] in t && Replaceable(t, [Z3rmExe], [Old, Z3rmExe]);
    assert Possible(2, t) <==> !IsFile(t, [Old, Bin]);
    assert Possible(3, t) <==> [Bin, Z3rmExe] in t && Replaceable(t, [Bin, Z3rmExe], [Old, Bin, Z3rmExe]);
    assert Possible(4, t) <==> [Bin, Z3rm] in t && Replaceable(t, [Bin, Z3rm], [Old, Bin, Z3rm]);
    assert Possible(6, t) <==> !IsFile(t, [Old, X64]);
    assert Possible(7, t) <==> !IsFile(t, [Old, Arm64]);
    assert Possible(10, t) <==> [ConptyDll] in t && Replaceable(t, [ConptyDll], [Old, ConptyDll]);
  }

  lemma OldConsolesPossible(t: Tree)
    ensures (forall i :: i in {5, 8, 9} ==> Possible(i, t)) <==> OldConsolesReady(t)
  {
    hide Replaceable;
    assert Possible(5, t) <==> ([OpenConsoleExe] in t ==> Replaceable(t, [OpenConsoleExe], [Old, OpenConsoleExe]));
    assert Possible(8, t)
      <==> ([X64, OpenConsoleExe] in t ==> Replaceable(t, [X64, OpenConsoleExe], [Old, X64, OpenConsoleExe]));
    assert Possible(9, t)
      <==> ([Arm64, OpenConsoleExe] in t ==> Replaceable(t, [Arm64, OpenConsoleExe], [Old, Arm64, OpenConsoleExe]));
  }

  lemma NewFilesPossible(t: Tree)
    ensures (forall i :: 11 <= i < 19 ==> Possible(i, t)) <==> NewFilesReady(t)
  {
    hide Replaceable;
    assert Possible(11, t) <==> [Install, Z3rmExe] in t;
    assert Possible(12, t) <==> [Install, Bin, Z3rmExe] in t;
    assert Possible(13, t) <==> [Install, Bin, Z3rm] in t;
    assert Possible(14, t) <==> ([Install, X64] in t ==> !IsFile(t, [X64]));
    assert Possible(15, t) <==> ([Install, Arm64] in t ==> !IsFile(t, [Arm64]));
    assert Possible(16, t) && Possible(17, t);
    assert Possible(18, t) <==> [Install, ConptyDll] in t;
  }

  /** What an update needs to complete, by name: the four old files with their places in `old` free or
      to be replaced, the same for each console that is there, and the four new files. */
  lemma ReadyMeans(t: Tree)
    ensures Ready(t) <==> OldFilesReady(t) && OldConsolesReady(t) && NewFilesReady(t)
  {
    hide Possible, OldFilesReady, OldConsolesReady, NewFilesReady;
    OldFilesPossible(t);
    OldConsolesPossible(t);
    NewFilesPossible(t);
  }
}
