/** A directory tree as the updater sees it, with the file-system calls it makes. */
module FileTree {
  import opened Wrappers

  /** The names the updater uses, and every other name. */
  datatype Name =
    | Old | Install | Updates | Bin | X64 | Arm64
    | Z3rmExe | Z3rm | OpenConsoleExe | ConptyDll
    | Other(name: string)

  /** A path relative to the application directory, which is the empty path. */
  type Path = seq<Name>

  datatype Node = Dir | File(content: int)

  type Tree = map<Path, Node>

  /** A missing file, any other I/O error, or an error that is not an I/O error. */
  datatype Error = NotFound | OtherIo | NotIo

  function Parent(p: Path): Path
    requires p != []
  {
    p[..|p| - 1]
  }

  predicate IsDir(t: Tree, p: Path) {
    p in t && t[p] == Dir
  }

  /** Everything lies in a directory. */
  ghost predicate WellFormed(t: Tree) {
    IsDir(t, []) && forall p :: p in t && p != [] ==> IsDir(t, Parent(p))
  }

  function At(t: Tree, p: Path): Option<Node> {
    if p in t then Some(t[p]) else None
  }

  // ---- Calls ----

  /** `p` or one of its ancestors is a file. */
  predicate Blocked(t: Tree, p: Path) {
    (p in t && t[p].File?) || (p != [] && Blocked(t, Parent(p)))
  }

  function AddDirs(t: Tree, p: Path): Tree {
    if p == [] then t[p := Dir] else AddDirs(t, Parent(p))[p := Dir]
  }

  function CreateDirAll(t: Tree, p: Path): Result<Tree, Error> {
    if Blocked(t, p) then Err(OtherIo) else Ok(AddDirs(t, p))
  }

  function Without(t: Tree, p: Path): Tree {
    map q | q in t && !(p <= q) :: t[q]
  }

  function RemoveDirAll(t: Tree, p: Path): Result<Tree, Error> {
    if p !in t then Err(NotFound)
    else if t[p].File? then Err(OtherIo)
    else Ok(Without(t, p))
  }

  function PathsAfterMove(t: Tree, a: Path, b: Path): set<Path> {
    (set q | q in t && !(a <= q) && !(b <= q)) + (set q | q in t && a <= q :: b + q[|a|..])
  }

  /** The tree with whatever is at and below `a` moved to `b`, in place of what was there. */
  function Moved(t: Tree, a: Path, b: Path): Tree {
    map r | r in PathsAfterMove(t, a, b) :: if b <= r then Source(t, a, b, r) else t[r]
  }

  function Source(t: Tree, a: Path, b: Path, r: Path): Node
    requires r in PathsAfterMove(t, a, b) && b <= r
  {
    assert exists q :: q in t && a <= q && r == b + q[|a|..];
    assert forall q | q in t && a <= q && r == b + q[|a|..] :: q == a + r[|b|..];
    t[a + r[|b|..]]
  }

  /** `rename`: a file replaces a file; nothing replaces a directory, and a directory replaces
      nothing that exists. */
  function Rename(t: Tree, a: Path, b: Path): Result<Tree, Error>
    requires b != []
  {
    if a !in t || !IsDir(t, Parent(b)) then Err(NotFound)
    else if a <= b || (b in t && (t[b].Dir? || t[a].Dir?)) then Err(OtherIo)
    else Ok(Moved(t, a, b))
  }

  // ---- Laws ----

  lemma {:induction false} AncestorsExist(t: Tree, a: Path, p: Path)
    requires WellFormed(t) && p in t && a <= p
    ensures a in t && (a != p ==> t[a] == Dir)
    decreases |p|
  {
    if a != p {
      assert a <= Parent(p);
      AncestorsExist(t, a, Parent(p));
    }
  }

  /** Below a path that is absent or a file there is nothing. */
  lemma NothingBelow(t: Tree, b: Path, p: Path)
    requires WellFormed(t) && b <= p && !IsDir(t, b)
    ensures p in t ==> p == b
  {
    if p in t {
      AncestorsExist(t, b, p);
    }
  }

  lemma MovedAt(t: Tree, a: Path, b: Path, r: Path)
    ensures At(Moved(t, a, b), r)
         == if b <= r then At(t, a + r[|b|..]) else if a <= r then None else At(t, r)
  {
    if b <= r {
      var q := a + r[|b|..];
      assert q[|a|..] == r[|b|..] && b + q[|a|..] == r;
      if r in Moved(t, a, b) {
        var q' :| q' in t && a <= q' && r == b + q'[|a|..];
        assert q' == a + q'[|a|..] == q;
      }
    }
  }

  lemma MovedParent(t: Tree, a: Path, b: Path, p: Path)
    requires WellFormed(t) && a != [] && b != [] && Rename(t, a, b).Ok?
    requires p in Moved(t, a, b) && p != []
    ensures IsDir(Moved(t, a, b), Parent(p))
  {
    hide Moved;
    NotPrefix(t, a, b);
    MovedAt(t, a, b, p);
    MovedAt(t, a, b, Parent(p));
    if b <= p {
      if p != b {
        var q := a + p[|b|..];
        assert b <= Parent(p) && Parent(q) == a + Parent(p)[|b|..];
      }
    } else {
      assert !(a <= p) && !(a <= Parent(p)) && !(b <= Parent(p));
    }
  }

  /** A move keeps the tree well formed. */
  lemma MoveWellFormed(t: Tree, a: Path, b: Path)
    requires WellFormed(t) && a != [] && b != [] && Rename(t, a, b).Ok?
    ensures WellFormed(Moved(t, a, b))
  {
    hide Moved;
    MovedAt(t, a, b, []);
    forall p | p in Moved(t, a, b) && p != [] ensures IsDir(Moved(t, a, b), Parent(p)) {
      MovedParent(t, a, b, p);
    }
  }

  lemma NotPrefix(t: Tree, a: Path, b: Path)
    requires WellFormed(t) && a != [] && b != [] && Rename(t, a, b).Ok?
    ensures !(a <= b) && !(b <= a) && !(a <= Parent(b)) && !(b <= Parent(a))
  {
    if b <= a {
      AncestorsExist(t, b, a);
    }
  }

  /** A move to a free place is undone by moving back. */
  lemma MoveBack(t: Tree, a: Path, b: Path)
    requires WellFormed(t) && a != [] && b != [] && Rename(t, a, b).Ok? && b !in t
    ensures Rename(Moved(t, a, b), b, a) == Ok(t)
  {
    var t' := Moved(t, a, b);
    NotPrefix(t, a, b);
    MovedAt(t, a, b, b);
    MovedAt(t, a, b, a);
    MovedAt(t, a, b, Parent(a));
    assert a + b[|b|..] == a;
    var back := Moved(t', b, a);
    forall r ensures At(back, r) == At(t, r) {
      MovedAt(t', b, a, r);
      if a <= r {
        var q := b + r[|a|..];
        MovedAt(t, a, b, q);
        assert q[|b|..] == r[|a|..] && a + q[|b|..] == r;
      } else if b <= r {
        NothingBelow(t, b, r);
      } else {
        MovedAt(t, a, b, r);
      }
    }
    SameAt(back, t);
  }

  lemma SameAt(t: Tree, u: Tree)
    requires forall r :: At(t, r) == At(u, r)
    ensures t == u
  {
    forall r ensures r in t <==> r in u {
      assert At(t, r) == At(u, r);
    }
    forall r | r in t ensures t[r] == u[r] {
      assert At(t, r) == At(u, r);
    }
  }

  lemma WithoutWellFormed(t: Tree, p: Path)
    requires WellFormed(t) && p != []
    ensures WellFormed(Without(t, p))
  {
    forall q | q in Without(t, p) && q != [] ensures IsDir(Without(t, p), Parent(q)) {
      assert !(p <= Parent(q));
    }
  }

  /** Creating a directory whose parent exists adds that one path. */
  lemma CreateAdds(t: Tree, p: Path)
    requires WellFormed(t) && p != [] && IsDir(t, Parent(p)) && CreateDirAll(t, p).Ok?
    ensures CreateDirAll(t, p) == Ok(t[p := Dir]) && WellFormed(t[p := Dir])
  {
    AddDirsSame(t, Parent(p));
    var t' := t[p := Dir];
    forall q | q in t' && q != [] ensures IsDir(t', Parent(q)) {
      assert q == p || q in t;
    }
  }

  lemma {:induction false} AddDirsSame(t: Tree, p: Path)
    requires WellFormed(t) && IsDir(t, p)
    ensures AddDirs(t, p) == t
    decreases |p|
  {
    if p != [] {
      AddDirsSame(t, Parent(p));
    }
  }

  /** Removing a directory that was just created in a free place is an exact undo. */
  lemma CreateRemove(t: Tree, p: Path)
    requires WellFormed(t) && p != [] && p !in t
    ensures RemoveDirAll(t[p := Dir], p) == Ok(t)
  {
    var t' := Without(t[p := Dir], p);
    forall r ensures At(t', r) == At(t, r) {
      if p <= r {
        NothingBelow(t, p, r);
      }
    }
    SameAt(t', t);
  }
}
