/** The update jobs: what each does to the tree, and how it is taken back. */
module Jobs {
  import opened Wrappers
  import opened FileTree

  datatype Job =
    | Mkdir(dir: Path)
    | MkdirIfExists(dir: Path, check: Path)
    | MoveFile(from: Path, to: Path)
    | MoveIfExists(from: Path, to: Path)
    | RmdirNofail(dir: Path)

  /** A failure from outside: a locked file, say. A recursive removal that fails has removed what
      lies at or below `gone`; every other failed call has changed nothing. */
  datatype Fault = Fault(error: Error, gone: set<Path>)

  function RemoveSome(t: Tree, p: Path, gone: set<Path>): Tree {
    map q | q in t && !(p <= q && exists g :: g in gone && g <= q) :: t[q]
  }

  /** A call that fails when the environment says so. */
  function Try(fault: Option<Fault>, call: Result<Tree, Error>): Result<Tree, Error> {
    if fault.Some? then Err(fault.value.error) else call
  }

  function Apply(job: Job, t: Tree, fault: Option<Fault>): Result<Tree, Error>
    requires Sensible(job)
  {
    match job
    case Mkdir(dir) => Try(fault, CreateDirAll(t, dir))
    case MkdirIfExists(dir, check) => if check in t then Try(fault, CreateDirAll(t, dir)) else Ok(t)
    case MoveFile(from, to) => Try(fault, Rename(t, from, to))
    case MoveIfExists(from, to) => if from in t then Try(fault, Rename(t, from, to)) else Ok(t)
    case RmdirNofail(dir) =>
      if fault.Some? then Ok(RemoveSome(t, dir, fault.value.gone))
      else
        var r := RemoveDirAll(t, dir);
        if r.Ok? then r else Ok(t)
  }

  function Rollback(job: Job, t: Tree, fault: Option<Fault>): Result<Tree, Error>
    requires Sensible(job)
  {
    match job
    case Mkdir(dir) => Try(fault, RemoveDirAll(t, dir))
    case MkdirIfExists(dir, _) => if dir in t then Try(fault, RemoveDirAll(t, dir)) else Ok(t)
    case MoveFile(from, to) => Try(fault, Rename(t, to, from))
    case MoveIfExists(from, to) => if to in t then Try(fault, Rename(t, to, from)) else Ok(t)
    case RmdirNofail(_) => Err(NotIo)
  }

  /** No job is about the application directory itself. */
  predicate Sensible(job: Job) {
    match job
    case Mkdir(dir) => dir != []
    case MkdirIfExists(dir, _) => dir != []
    case MoveFile(from, to) => from != [] && to != []
    case MoveIfExists(from, to) => from != [] && to != []
    case RmdirNofail(dir) => dir != []
  }

  const JOB_COUNT: nat := 22

  /** The first of the clean-up jobs, which cannot be rolled back. */
  const CLEANUP: nat := 19

  function JobAt(i: nat): (job: Job)
    requires i < JOB_COUNT
    ensures Sensible(job)
    ensures job.RmdirNofail? <==> i >= CLEANUP
  {
    match i
    // Move old files
    case 0 => Mkdir([Old])
    case 1 => MoveFile([Z3rmExe], [Old, Z3rmExe])
    case 2 => Mkdir([Old, Bin])
    case 3 => MoveFile([Bin, Z3rmExe], [Old, Bin, Z3rmExe])
    case 4 => MoveFile([Bin, Z3rm], [Old, Bin, Z3rm])
    case 5 => MoveIfExists([OpenConsoleExe], [Old, OpenConsoleExe])
    case 6 => Mkdir([Old, X64])
    case 7 => Mkdir([Old, Arm64])
    case 8 => MoveIfExists([X64, OpenConsoleExe], [Old, X64, OpenConsoleExe])
    case 9 => MoveIfExists([Arm64, OpenConsoleExe], [Old, Arm64, OpenConsoleExe])
    case 10 => MoveFile([ConptyDll], [Old, ConptyDll])
    // Copy new files
    case 11 => MoveFile([Install, Z3rmExe], [Z3rmExe])
    case 12 => MoveFile([Install, Bin, Z3rmExe], [Bin, Z3rmExe])
    case 13 => MoveFile([Install, Bin, Z3rm], [Bin, Z3rm])
    case 14 => MkdirIfExists([X64], [Install, X64])
    case 15 => MkdirIfExists([Arm64], [Install, Arm64])
    case 16 => MoveIfExists([Install, X64, OpenConsoleExe], [X64, OpenConsoleExe])
    case 17 => MoveIfExists([Install, Arm64, OpenConsoleExe], [Arm64, OpenConsoleExe])
    case 18 => MoveFile([Install, ConptyDll], [ConptyDll])
    // Clean up
    case 19 => RmdirNofail([Updates])
    case 20 => RmdirNofail([Install])
    case _ => RmdirNofail([Old])
  }

  // ---- One job ----

  /** Where a job puts something. */
  function Target(job: Job): Path {
    match job
    case Mkdir(dir) => dir
    case MkdirIfExists(dir, _) => dir
    case MoveFile(_, to) => to
    case MoveIfExists(_, to) => to
    case RmdirNofail(dir) => dir
  }

  predicate Moves(job: Job) {
    job.MoveFile? || job.MoveIfExists?
  }

  /** A job that creates a directory finds the parent there. */
  predicate ParentThere(job: Job, t: Tree)
    requires Sensible(job)
  {
    (job.Mkdir? || job.MkdirIfExists?) ==> IsDir(t, Parent(job.dir))
  }

  /** Rolling a job back restores the tree it was applied to, when its target was free then. */
  lemma RollbackInverts(job: Job, t: Tree, t': Tree)
    requires WellFormed(t) && Sensible(job) && ParentThere(job, t) && !job.RmdirNofail?
    requires Apply(job, t, None) == Ok(t') && Target(job) !in t
    ensures Rollback(job, t', None) == Ok(t)
  {
    match job
    case Mkdir(dir) =>
      CreateAdds(t, dir);
      CreateRemove(t, dir);
    case MkdirIfExists(dir, check) =>
      if check in t {
        CreateAdds(t, dir);
        CreateRemove(t, dir);
      }
    case MoveFile(from, to) =>
      MoveBack(t, from, to);
      MovedThere(t, from, to);
    case MoveIfExists(from, to) =>
      if from in t {
        MoveBack(t, from, to);
        MovedThere(t, from, to);
      }
  }

  lemma MovedThere(t: Tree, a: Path, b: Path)
    requires a in t
    ensures b in Moved(t, a, b)
  {
    MovedAt(t, a, b, b);
    assert a + b[|b|..] == a;
  }

  /** Whether a job leaves the path `q` alone. */
  predicate Untouched(job: Job, q: Path) {
    match job
    case Mkdir(dir) => q != dir
    case MkdirIfExists(dir, _) => q != dir
    case MoveFile(from, to) => !(from <= q) && !(to <= q)
    case MoveIfExists(from, to) => !(from <= q) && !(to <= q)
    case RmdirNofail(dir) => !(dir <= q)
  }

  lemma ApplyFrame(job: Job, t: Tree, t': Tree, fault: Option<Fault>, q: Path)
    requires WellFormed(t) && Sensible(job) && ParentThere(job, t)
    requires Apply(job, t, fault) == Ok(t') && Untouched(job, q)
    ensures At(t', q) == At(t, q)
  {
    hide Moved;
    match job
    case Mkdir(dir) => CreateAdds(t, dir);
    case MkdirIfExists(dir, check) =>
      if check in t {
        CreateAdds(t, dir);
      }
    case MoveFile(from, to) => MovedAt(t, from, to, q);
    case MoveIfExists(from, to) => MovedAt(t, from, to, q);
    case RmdirNofail(dir) =>
  }

  lemma ApplyWellFormed(job: Job, t: Tree, t': Tree, fault: Option<Fault>)
    requires WellFormed(t) && Sensible(job) && ParentThere(job, t)
    requires Apply(job, t, fault) == Ok(t')
    ensures WellFormed(t')
  {
    hide Moved;
    match job
    case Mkdir(dir) => CreateAdds(t, dir);
    case MkdirIfExists(dir, check) =>
      if check in t {
        CreateAdds(t, dir);
      }
    case MoveFile(from, to) => MoveWellFormed(t, from, to);
    case MoveIfExists(from, to) =>
      if from in t {
        MoveWellFormed(t, from, to);
      }
    case RmdirNofail(dir) =>
      if fault.Some? {
        RemoveSomeWellFormed(t, dir, fault.value.gone);
      } else {
        WithoutWellFormed(t, dir);
      }
  }

  lemma RemoveSomeWellFormed(t: Tree, p: Path, gone: set<Path>)
    requires WellFormed(t) && p != []
    ensures WellFormed(RemoveSome(t, p, gone))
  {
  }
}
