/** What a run preserves and what a finished run leaves behind. */
module UpdateResults {
  import opened Wrappers
  import opened FileTree
  import opened Jobs
  import opened UpdateRuns

  // ---- A rollback that cannot succeed ----

  lemma RollbackFrame(job: Job, t: Tree, t': Tree, fault: Option<Fault>, q: Path)
    requires Sensible(job) && Rollback(job, t, fault) == Ok(t')
    requires Untouched(job, q) && ((job.Mkdir? || job.MkdirIfExists?) ==> !(job.dir <= q))
    ensures At(t', q) == At(t, q)
  {
    hide Moved;
    match job
    case MoveFile(from, to) => MovedAt(t, to, from, q);
    case MoveIfExists(from, to) => MovedAt(t, to, from, q);
    case _ =>
  }

  const KEPT_CONSOLE: Path := [Old, X64, OpenConsoleExe]

  lemma ConsoleUntouched(i: nat)
    requires 9 <= i < CLEANUP
    ensures var job := JobAt(i);
            Untouched(job, KEPT_CONSOLE) && ((job.Mkdir? || job.MkdirIfExists?) ==> !(job.dir <= KEPT_CONSOLE))
  {
    var job := JobAt(i);
    if Moves(job) {
      assert job.from[0] != KEPT_CONSOLE[0];
      assert job.to[0] != KEPT_CONSOLE[0] || job.to[1] != KEPT_CONSOLE[1];
    } else {
      assert job.dir[0] != KEPT_CONSOLE[0];
    }
  }

  lemma ConsoleStays(t: Tree, fault: Option<Fault>)
    requires KEPT_CONSOLE in t && [X64] !in t
    ensures Rollback(JobAt(8), t, fault).Err?
  {
    assert Parent([X64, OpenConsoleExe]) == [X64];
  }

  /** With the old console set aside and `x64` gone, rolling back cannot put the console back. */
  lemma {:induction false} UnwindGetsStuck(t: Tree, n: nat, faults: nat -> Option<Fault>)
    requires 9 <= n <= CLEANUP && KEPT_CONSOLE in t && ([X64] !in t || n >= 15)
    ensures !Unwind(t, n, faults).complete
    decreases n
  {
    hide JobAt, Rollback, Untouched;
    var i := n - 1;
    var r := Rollback(JobAt(i), t, faults(i));
    if i == 8 {
      ConsoleStays(t, faults(8));
    } else if r.Ok? {
      ConsoleUntouched(i);
      RollbackFrame(JobAt(i), t, r.value, faults(i), KEPT_CONSOLE);
      if i == 14 {
        JobFourteen();
        RollbackRemovesDir(JobAt(14), t, r.value, faults(14), [X64]);
      } else if [X64] !in t {
        TopLeavesAbsent(i, [X64]);
        AbsentStays(JobAt(i), t, r.value, faults(i), [X64]);
      }
      UnwindGetsStuck(r.value, i, faults);
    }
  }

  lemma JobFourteen()
    ensures MakesDir(JobAt(14), [X64])
  {
  }

  lemma ConsoleSetAside(ts: seq<Tree>)
    requires Run(ts) && WellFormed(ts[0]) && |ts| >= 10 && [X64, OpenConsoleExe] in ts[0]
    ensures KEPT_CONSOLE in ts[9]
  {
    hide Moved, Rename;
    var a: Path := [X64, OpenConsoleExe];
    ConsoleWaits(ts);
    RunFrame(ts, 0, 8, a);
    assert At(ts[8], a) == At(ts[0], a);
    assert Step(8, ts[8], ts[9]);
    StepUndisturbed(8, ts[8], ts[9]);
    RenameMoves(ts[8], a, KEPT_CONSOLE);
    MovedThere(ts[8], a, KEPT_CONSOLE);
  }

  /** An installed `x64\\OpenConsole.exe` makes every rollback from the second half of the update
      fail: the rollback deletes `x64` before it gets to moving the console back into it. */
  lemma ConsoleBlocksRollback(ts: seq<Tree>, faults: nat -> Option<Fault>)
    requires Run(ts) && WellFormed(ts[0]) && 16 <= |ts| <= CLEANUP + 1
    requires [X64, OpenConsoleExe] in ts[0]
    ensures !Unwind(ts[|ts| - 1], |ts| - 1, faults).complete
  {
    hide Unwind, JobAt;
    ConsoleSetAside(ts);
    ConsoleWaits(ts);
    RunFrame(ts, 9, |ts| - 1, KEPT_CONSOLE);
    assert At(ts[|ts| - 1], KEPT_CONSOLE) == At(ts[9], KEPT_CONSOLE);
    UnwindGetsStuck(ts[|ts| - 1], |ts| - 1, faults);
  }

  lemma ConsoleWaits(ts: seq<Tree>)
    ensures forall k :: 0 <= k < 8 ==> Untouched(JobAt(k), [X64, OpenConsoleExe])
    ensures forall k :: 9 <= k < CLEANUP ==> Untouched(JobAt(k), KEPT_CONSOLE)
  {
    var a: Path := [X64, OpenConsoleExe];
    forall k | 0 <= k < 8 ensures Untouched(JobAt(k), a) {
      var job := JobAt(k);
      if Moves(job) {
        assert job.from[0] != a[0] && job.to[0] != a[0];
      } else {
        assert job.dir[0] != a[0];
      }
    }
    forall k | 9 <= k < CLEANUP ensures Untouched(JobAt(k), KEPT_CONSOLE) {
      ConsoleUntouched(k);
    }
  }

  // ---- No file is lost ----

  /** Where the files with content `c` are. */
  function FilesWith(t: Tree, c: int): set<Path> {
    set p | p in t && t[p] == File(c)
  }

  function Relocate(a: Path, b: Path, p: Path): Path {
    if a <= p then b + p[|a|..] else p
  }

  function RelocateAll(a: Path, b: Path, s: set<Path>): set<Path> {
    set p | p in s :: Relocate(a, b, p)
  }

  lemma {:induction false} RelocateSize(a: Path, b: Path, s: set<Path>)
    requires forall p :: p in s ==> !(b <= p)
    ensures |RelocateAll(a, b, s)| == |s|
  {
    if s == {} {
      assert RelocateAll(a, b, s) == {};
    } else {
      var p :| p in s;
      var rest := s - {p};
      RelocateSize(a, b, rest);
      assert RelocateAll(a, b, s) == RelocateAll(a, b, rest) + {Relocate(a, b, p)};
      if Relocate(a, b, p) in RelocateAll(a, b, rest) {
        var q :| q in rest && Relocate(a, b, q) == Relocate(a, b, p);
        RelocateInjective(a, b, p, q);
        assert false;
      }
    }
  }

  lemma RelocateInjective(a: Path, b: Path, p: Path, q: Path)
    requires !(b <= p) && !(b <= q) && Relocate(a, b, p) == Relocate(a, b, q)
    ensures p == q
  {
    if a <= p && a <= q {
      assert p == a + p[|a|..] && q == a + q[|a|..];
      assert (b + p[|a|..])[|b|..] == p[|a|..] && (b + q[|a|..])[|b|..] == q[|a|..];
    }
  }

  lemma MoveKeepsFiles(t: Tree, a: Path, b: Path, c: int)
    requires WellFormed(t) && a != [] && b != [] && Rename(t, a, b).Ok? && b !in t
    ensures |FilesWith(Moved(t, a, b), c)| == |FilesWith(t, c)|
  {
    var s := FilesWith(t, c);
    forall p | p in t ensures !(b <= p) {
      if b <= p {
        NothingBelow(t, b, p);
      }
    }
    forall r ensures r in FilesWith(Moved(t, a, b), c) <==> r in RelocateAll(a, b, s) {
      RelocatedFile(t, a, b, c, r);
    }
    RelocateSize(a, b, s);
    assert FilesWith(Moved(t, a, b), c) == RelocateAll(a, b, s);
  }

  lemma RelocatedFile(t: Tree, a: Path, b: Path, c: int, r: Path)
    requires forall p :: p in t ==> !(b <= p)
    ensures At(Moved(t, a, b), r) == Some(File(c)) <==> r in RelocateAll(a, b, FilesWith(t, c))
  {
    hide Moved;
    var s := FilesWith(t, c);
    MovedAt(t, a, b, r);
    if b <= r {
      var q := a + r[|b|..];
      assert q[|a|..] == r[|b|..];
      assert Relocate(a, b, q) == r;
      if r in RelocateAll(a, b, s) {
        var p :| p in s && Relocate(a, b, p) == r;
        assert a <= p && p == a + p[|a|..];
        assert (b + p[|a|..])[|b|..] == p[|a|..];
        assert p == q;
      }
    } else {
      if r in RelocateAll(a, b, s) {
        var p :| p in s && Relocate(a, b, p) == r;
        assert a <= p ==> b <= r;
      }
      if r in s && !(a <= r) {
        assert Relocate(a, b, r) == r;
      }
    }
  }

  lemma DirKeepsFiles(t: Tree, p: Path, c: int)
    requires p !in t || t[p] == Dir
    ensures FilesWith(t[p := Dir], c) == FilesWith(t, c)
  {
  }

  lemma JobKeepsFiles(job: Job, t: Tree, t': Tree, c: int)
    requires WellFormed(t) && Sensible(job) && ParentThere(job, t) && !job.RmdirNofail?
    requires Apply(job, t, None) == Ok(t') && Target(job) !in t
    ensures |FilesWith(t', c)| == |FilesWith(t, c)|
  {
    hide Moved, FilesWith;
    match job
    case Mkdir(dir) =>
      CreateAdds(t, dir);
      DirKeepsFiles(t, dir, c);
    case MkdirIfExists(dir, check) =>
      if check in t {
        CreateAdds(t, dir);
        DirKeepsFiles(t, dir, c);
      }
    case MoveFile(from, to) => MoveKeepsFiles(t, from, to, c);
    case MoveIfExists(from, to) =>
      if from in t {
        MoveKeepsFiles(t, from, to, c);
      }
  }

  /** From a clean start, every tree before the clean-up holds exactly the files of the first one:
      for every content, as many files with that content. */
  lemma {:induction false} FilesConserved(ts: seq<Tree>, i: nat, c: int)
    requires Run(ts) && WellFormed(ts[0]) && |ts| <= CLEANUP + 1 && Clean(ts[0], |ts| - 1)
    requires i < |ts|
    ensures |FilesWith(ts[i], c)| == |FilesWith(ts[0], c)|
  {
    hide JobAt, Clean, FilesWith, Apply, Target;
    if i > 0 {
      var k := i - 1;
      FilesConserved(ts, k, c);
      RunSound(ts, k);
      ParentsThere(k, ts[k]);
      CleanTargetFree(ts[0], |ts| - 1, k);
      RunTargetFree(ts, k, k);
      NotSelfVacated(k);
      assert Step(k, ts[k], ts[k + 1]);
      StepUndisturbed(k, ts[k], ts[k + 1]);
      JobKeepsFiles(JobAt(k), ts[k], ts[k + 1], c);
    }
  }

  // ---- A finished update ----

  /** Two paths part ways within their common length. */
  predicate Diverge(x: Path, y: Path) {
    || (|x| > 0 && |y| > 0 && x[0] != y[0])
    || (|x| > 1 && |y| > 1 && x[1] != y[1])
    || (|x| > 2 && |y| > 2 && x[2] != y[2])
  }

  /** The jobs that bring in a new file. */
  predicate Installs(j: nat) {
    j in {11, 12, 13, 16, 17, 18}
  }

  function From(j: nat): Path
    requires Installs(j)
  {
    JobAt(j).from
  }

  function To(j: nat): Path
    requires Installs(j)
  {
    JobAt(j).to
  }

  predicate Clear(job: Job, p: Path) {
    match job
    case Mkdir(dir) => Diverge(dir, p) || |dir| < |p|
    case MkdirIfExists(dir, _) => Diverge(dir, p) || |dir| < |p|
    case MoveFile(from, to) => Diverge(from, p) && Diverge(to, p)
    case MoveIfExists(from, to) => Diverge(from, p) && Diverge(to, p)
    case RmdirNofail(dir) => Diverge(dir, p)
  }

  lemma DivergePrefix(x: Path, y: Path, r: Path)
    requires Diverge(x, y)
    ensures !(x <= y + r) && x != y + r
  {
  }

  lemma ClearUntouched(job: Job, p: Path, r: Path)
    requires Clear(job, p)
    ensures Untouched(job, p + r)
  {
    hide Diverge;
    match job
    case Mkdir(dir) =>
      if Diverge(dir, p) {
        DivergePrefix(dir, p, r);
      }
    case MkdirIfExists(dir, _) =>
      if Diverge(dir, p) {
        DivergePrefix(dir, p, r);
      }
    case MoveFile(from, to) =>
      DivergePrefix(from, p, r);
      DivergePrefix(to, p, r);
    case MoveIfExists(from, to) =>
      DivergePrefix(from, p, r);
      DivergePrefix(to, p, r);
    case RmdirNofail(dir) => DivergePrefix(dir, p, r);
  }

  /** A new file is not touched before its job. */
  lemma SourceClear(j: nat, k: nat)
    requires Installs(j) && k < j
    ensures Clear(JobAt(k), From(j))
  {
  }

  /** The place of a new file is not touched after its job. */
  lemma PlaceClear(j: nat, k: nat)
    requires Installs(j) && j < k < JOB_COUNT
    ensures Clear(JobAt(k), To(j))
  {
  }

  lemma InstallFrames(ts: seq<Tree>, j: nat, r: Path)
    requires Run(ts) && WellFormed(ts[0]) && |ts| == JOB_COUNT + 1 && Installs(j)
    ensures At(ts[j], From(j) + r) == At(ts[0], From(j) + r)
    ensures At(ts[JOB_COUNT], To(j) + r) == At(ts[j + 1], To(j) + r)
  {
    hide JobAt, Clear, Untouched;
    forall k | 0 <= k < j ensures Untouched(JobAt(k), From(j) + r) {
      SourceClear(j, k);
      ClearUntouched(JobAt(k), From(j), r);
    }
    RunFrame(ts, 0, j, From(j) + r);
    forall k | j + 1 <= k < JOB_COUNT ensures Untouched(JobAt(k), To(j) + r) {
      PlaceClear(j, k);
      ClearUntouched(JobAt(k), To(j), r);
    }
    RunFrame(ts, j + 1, JOB_COUNT, To(j) + r);
  }

  /** The places of the two consoles are empty by the time the new ones come in. */
  lemma ConsolePlaceEmpty(ts: seq<Tree>, j: nat, r: Path)
    requires Run(ts) && WellFormed(ts[0]) && j in {16, 17} && j < |ts|
    ensures At(ts[j], To(j) + r) == None
  {
    hide Moved, Rename;
    var k := j - 8;
    var a, b := JobAt(k).from, JobAt(k).to;
    assert a == To(j);
    RunSound(ts, k);
    assert Step(k, ts[k], ts[k + 1]);
    StepUndisturbed(k, ts[k], ts[k + 1]);
    DivergePrefix(b, a, r);
    if a in ts[k] {
      RenameMoves(ts[k], a, b);
      MovedAt(ts[k], a, b, a + r);
    } else {
      NothingBelow(ts[k], a, a + r);
    }
    forall i | k + 1 <= i < j ensures Untouched(JobAt(i), a + r) {
      ConsolePlaceClear(j, i);
      ClearUntouched(JobAt(i), a, r);
    }
    RunFrame(ts, k + 1, j, a + r);
  }

  lemma ConsolePlaceClear(j: nat, k: nat)
    requires j in {16, 17} && j - 8 < k < j
    ensures Clear(JobAt(k), To(j))
  {
  }

  /** The job of a new file brings over whatever was at its source. */
  lemma InstallStep(ts: seq<Tree>, j: nat, r: Path)
    requires Run(ts) && WellFormed(ts[0]) && |ts| == JOB_COUNT + 1 && Installs(j)
    ensures At(ts[j + 1], To(j) + r) == At(ts[j], From(j) + r)
  {
    hide JobAt, Moved, Rename;
    var a, b := From(j), To(j);
    assert Step(j, ts[j], ts[j + 1]);
    StepUndisturbed(j, ts[j], ts[j + 1]);
    InstallKind(j);
    if a in ts[j] || JobAt(j).MoveFile? {
      RenameMoves(ts[j], a, b);
      MovedAt(ts[j], a, b, b + r);
      assert (b + r)[|b|..] == r;
    } else {
      RunSound(ts, j);
      NothingBelow(ts[j], a, a + r);
      ConsolePlaceEmpty(ts, j, r);
    }
  }

  lemma InstallKind(j: nat)
    requires Installs(j)
    ensures JobAt(j).MoveFile? || (JobAt(j).MoveIfExists? && j in {16, 17})
  {
  }

  /** A finished update has, at the place of every new file, exactly what was at its source in the
      `install` directory at the start, whatever else the tree held. */
  lemma NewFilesInstalled(ts: seq<Tree>, j: nat, r: Path)
    requires Run(ts) && WellFormed(ts[0]) && |ts| == JOB_COUNT + 1 && Installs(j)
    ensures At(ts[JOB_COUNT], To(j) + r) == At(ts[0], From(j) + r)
  {
    hide JobAt;
    InstallFrames(ts, j, r);
    InstallStep(ts, j, r);
  }

  lemma NewFileJobs()
    ensures From(11) == [Install, Z3rmExe] && To(11) == [Z3rmExe]
    ensures From(12) == [Install, Bin, Z3rmExe] && To(12) == [Bin, Z3rmExe]
    ensures From(13) == [Install, Bin, Z3rm] && To(13) == [Bin, Z3rm]
    ensures From(16) == [Install, X64, OpenConsoleExe] && To(16) == [X64, OpenConsoleExe]
    ensures From(17) == [Install, Arm64, OpenConsoleExe] && To(17) == [Arm64, OpenConsoleExe]
    ensures From(18) == [Install, ConptyDll] && To(18) == [ConptyDll]
  {
  }

  /** Where each new file goes. */
  lemma InstalledFiles(ts: seq<Tree>, r: Path)
    requires Run(ts) && WellFormed(ts[0]) && |ts| == 23
    ensures At(ts[22], [Z3rmExe] + r) == At(ts[0], [Install, Z3rmExe] + r)
    ensures At(ts[22], [Bin, Z3rmExe] + r) == At(ts[0], [Install, Bin, Z3rmExe] + r)
    ensures At(ts[22], [Bin, Z3rm] + r) == At(ts[0], [Install, Bin, Z3rm] + r)
    ensures At(ts[22], [X64, OpenConsoleExe] + r) == At(ts[0], [Install, X64, OpenConsoleExe] + r)
    ensures At(ts[22], [Arm64, OpenConsoleExe] + r) == At(ts[0], [Install, Arm64, OpenConsoleExe] + r)
    ensures At(ts[22], [ConptyDll] + r) == At(ts[0], [Install, ConptyDll] + r)
  {
    hide From, To, Run;
    NewFileJobs();
    NewFilesInstalled(ts, 11, r);
    NewFilesInstalled(ts, 12, r);
    NewFilesInstalled(ts, 13, r);
    NewFilesInstalled(ts, 16, r);
    NewFilesInstalled(ts, 17, r);
    NewFilesInstalled(ts, 18, r);
  }

  /** Names the updater does not know keep what is below them. */
  lemma OthersUnchanged(ts: seq<Tree>, i: nat, q: Path)
    requires Run(ts) && WellFormed(ts[0]) && i < |ts| && q != [] && q[0].Other?
    ensures At(ts[i], q) == At(ts[0], q)
  {
    forall k | 0 <= k < i ensures Untouched(JobAt(k), q) {
      OtherUntouched(k, q);
    }
    RunFrame(ts, 0, i, q);
  }

  lemma OtherUntouched(k: nat, q: Path)
    requires k < JOB_COUNT && q != [] && q[0].Other?
    ensures Untouched(JobAt(k), q)
  {
    var job := JobAt(k);
    if Moves(job) {
      assert !job.from[0].Other? && !job.to[0].Other?;
    } else {
      assert !job.dir[0].Other?;
    }
  }

  /** An undisturbed clean-up leaves nothing of `old` and `install`. */
  lemma CleanedUp(ts: seq<Tree>, q: Path)
    requires Run(ts) && WellFormed(ts[0]) && |ts| == JOB_COUNT + 1
    requires forall i :: CLEANUP <= i < JOB_COUNT ==> Apply(JobAt(i), ts[i], None) == Ok(ts[i + 1])
    requires [Old] <= q || [Install] <= q
    ensures q !in ts[JOB_COUNT]
  {
    hide Apply, Run;
    RunSound(ts, 21);
    RmdirRemoves([Old], ts[21], ts[22], q);
    if [Install] <= q {
      InstallThere(ts);
      RmdirRemoves([Install], ts[20], ts[21], q);
    }
  }

  lemma RmdirRemoves(dir: Path, t: Tree, t': Tree, q: Path)
    requires dir != [] && IsDir(t, dir) && Apply(RmdirNofail(dir), t, None) == Ok(t')
    ensures dir <= q || q !in t ==> q !in t'
  {
  }

  lemma InstallThere(ts: seq<Tree>)
    requires Run(ts) && WellFormed(ts[0]) && |ts| == JOB_COUNT + 1
    ensures IsDir(ts[20], [Install])
  {
    hide Moved;
    RunSound(ts, 11);
    assert Step(11, ts[11], ts[12]);
    StepUndisturbed(11, ts[11], ts[12]);
    AncestorsExist(ts[11], [Install], [Install, Z3rmExe]);
    forall k | 11 <= k < 20 ensures Untouched(JobAt(k), [Install]) {
      InstallDirUntouched(k);
    }
    RunFrame(ts, 11, 20, [Install]);
  }

  lemma InstallDirUntouched(k: nat)
    requires 11 <= k < 20
    ensures Untouched(JobAt(k), [Install])
  {
    var job, q := JobAt(k), [Install];
    if Moves(job) {
      assert |job.from| > 1 && job.to[0] != q[0];
    } else {
      assert job.dir[0] != q[0];
    }
  }
}
