/** Eviction from the cache of remote-server archives. */
module RemoteCache {
  import opened Text

  datatype Archive = Archive(path: string, time: nat)

  /** The eviction order: newest first, then by path. */
  predicate Before(a: Archive, b: Archive) {
    a.time > b.time || (a.time == b.time && StrLess(a.path, b.path))
  }

  lemma BeforeTotal(a: Archive, b: Archive)
    ensures !Before(a, a)
    ensures a != b ==> (Before(a, b) <==> !Before(b, a))
  {
    StrTotal(a.path, b.path);
  }

  lemma BeforeTransitive(a: Archive, b: Archive, c: Archive)
    requires Before(a, b) && Before(b, c)
    ensures Before(a, c)
  {
    if a.time == b.time == c.time {
      StrTransitive(a.path, b.path, c.path);
    }
  }

  /** How many archives come before `c`. */
  ghost function Rank(cs: set<Archive>, c: Archive): nat {
    |set d | d in cs && Before(d, c)|
  }

  // ---- Sorting ----

  function Elements(s: seq<Archive>): set<Archive> {
    set c | c in s
  }

  ghost predicate Sorted(s: seq<Archive>) {
    forall i, j :: 0 <= i < j < |s| ==> Before(s[i], s[j])
  }

  function Insert(c: Archive, s: seq<Archive>): (r: seq<Archive>)
    ensures forall x :: x in r <==> x == c || x in s
    ensures |r| == |s| + 1
  {
    if s == [] || Before(c, s[0]) then [c] + s else [s[0]] + Insert(c, s[1..])
  }

  lemma {:induction false} InsertSorted(c: Archive, s: seq<Archive>)
    requires Sorted(s) && c !in s
    ensures Sorted(Insert(c, s))
  {
    if s != [] {
      BeforeTotal(c, s[0]);
      var r := Insert(c, s);
      if Before(c, s[0]) {
        forall j | 0 <= j < |s| ensures Before(c, s[j]) {
          if j > 0 {
            BeforeTransitive(c, s[0], s[j]);
          }
        }
      } else {
        InsertSorted(c, s[1..]);
        forall j | 1 <= j < |r| ensures Before(s[0], r[j]) {
          assert r[j] in Insert(c, s[1..]);
        }
      }
    }
  }

  /** `sort_by` with the eviction order. */
  function Sort(s: seq<Archive>): (r: seq<Archive>)
    ensures forall x :: x in r <==> x in s
    ensures |r| == |s|
  {
    if s == [] then [] else Insert(s[0], Sort(s[1..]))
  }

  ghost predicate Distinct(s: seq<Archive>) {
    forall i, j :: 0 <= i < j < |s| ==> s[i].path != s[j].path
  }

  lemma {:induction false} SortSorted(s: seq<Archive>)
    requires Distinct(s)
    ensures Sorted(Sort(s))
  {
    if s != [] {
      SortSorted(s[1..]);
      InsertSorted(s[0], Sort(s[1..]));
    }
  }

  lemma {:induction false} ElementsSize(s: seq<Archive>)
    requires Sorted(s)
    ensures |Elements(s)| == |s|
  {
    if s == [] {
      assert Elements(s) == {};
    } else {
      var n := |s| - 1;
      ElementsSize(s[..n]);
      assert Elements(s) == Elements(s[..n]) + {s[n]};
      if s[n] in Elements(s[..n]) {
        var i :| 0 <= i < n && s[i] == s[n];
        BeforeTotal(s[n], s[n]);
        assert false;
      }
    }
  }

  /** In the sorted list an archive's position is its rank. */
  lemma PositionIsRank(s: seq<Archive>, i: nat)
    requires Sorted(s) && i < |s|
    ensures Rank(Elements(s), s[i]) == i
  {
    var before := set d | d in Elements(s) && Before(d, s[i]);
    forall d ensures d in before <==> d in Elements(s[..i]) {
      if d in before {
        var j :| 0 <= j < |s| && s[j] == d;
        BeforeTotal(s[i], s[j]);
        BeforeTotal(s[i], s[i]);
        assert j < i;
        assert s[..i][j] == d;
      }
      if d in Elements(s[..i]) {
        var j :| 0 <= j < i && s[j] == d;
      }
    }
    assert before == Elements(s[..i]);
    ElementsSize(s[..i]);
  }

  // ---- Clean-up ----

  /** The archives that go: those of rank `limit` and beyond, except the kept one. Nothing goes
      when the limit is 0 or not exceeded. */
  ghost predicate Evicted(cs: set<Archive>, keep: string, limit: nat, c: Archive) {
    limit > 0 && |cs| > limit && c in cs && Rank(cs, c) >= limit && c.path != keep
  }

  ghost function Survivors(cs: set<Archive>, keep: string, limit: nat): set<Archive> {
    set c | c in cs && !Evicted(cs, keep, limit, c)
  }

  /** The extension is `gz`. */
  predicate IsArchive(path: string) {
    |path| > 3 && path[|path| - 3..] == ".gz"
  }

  /** A file as the clean-up dates it: the kept one is as new as can be. */
  function Dated(files: map<string, nat>, keep: string, now: nat, path: string): Archive
    requires path in files
  {
    Archive(path, if path == keep then now else files[path])
  }

  function Archives(files: map<string, nat>, keep: string, now: nat): set<Archive> {
    set p | p in files && IsArchive(p) :: Dated(files, keep, now, p)
  }

  /** The files of the platform directory with their times; a time that cannot be read is 0. */
  class Cache {
    var files: map<string, nat>

    constructor (contents: map<string, nat>)
      ensures files == contents
    {
      files := contents;
    }

    /** The directory entries that are archives, in the order they are listed. */
    method Collect(order: seq<string>, keep: string, now: nat) returns (candidates: seq<Archive>)
      requires forall p :: p in order <==> p in files
      requires forall i, j :: 0 <= i < j < |order| ==> order[i] != order[j]
      ensures Distinct(candidates) && Elements(candidates) == Archives(files, keep, now)
    {
      candidates := [];
      for k := 0 to |order|
        invariant forall c :: c in candidates <==>
                    c.path in order[..k] && IsArchive(c.path) && c == Dated(files, keep, now, c.path)
        invariant Distinct(candidates)
      {
        var path := order[k];
        assert path in order && order[..k + 1] == order[..k] + [path];
        if IsArchive(path) {
          assert forall i :: 0 <= i < |candidates| ==> candidates[i] in candidates;
          candidates := candidates + [Dated(files, keep, now, path)];
        }
      }
      assert order[..|order|] == order;
      forall c ensures c in Elements(candidates) <==> c in Archives(files, keep, now) {
        assert c in Archives(files, keep, now) <==>
               c.path in files && IsArchive(c.path) && c == Dated(files, keep, now, c.path);
      }
    }

    /** `cleanup_remote_server_cache`; removing a path in `stuck` fails and is only logged. */
    method Cleanup(order: seq<string>, keep: string, now: nat, limit: nat, stuck: set<string>)
      requires forall p :: p in order <==> p in files
      requires forall i, j :: 0 <= i < j < |order| ==> order[i] != order[j]
      modifies this
      ensures files == CleanedUp(old(files), keep, now, limit, stuck)
    {
      ghost var cs := Archives(files, keep, now);
      if limit == 0 {
        assert forall p :: !EvictedPath(cs, keep, limit, p);
        return;
      }
      var candidates := Collect(order, keep, now);
      SortSorted(candidates);
      candidates := Sort(candidates);
      assert Elements(candidates) == cs;
      ElementsSize(candidates);
      if |candidates| <= limit {
        assert forall p :: !EvictedPath(cs, keep, limit, p);
        return;
      }
      RemoveFrom(candidates, keep, limit, stuck);
      PathsEvicted(candidates, keep, limit);
    }

    method RemoveFrom(candidates: seq<Archive>, keep: string, limit: nat, stuck: set<string>)
      modifies this
      ensures files == map p | p in old(files) && (p in stuck || !Listed(candidates, keep, limit, p)) :: old(files)[p]
    {
      for index := 0 to |candidates|
        invariant files == map p | p in old(files) && (p in stuck || !Listed(candidates[..index], keep, limit, p)) :: old(files)[p]
      {
        var path := candidates[index].path;
        ListedStep(candidates, keep, limit, index);
        if index < limit || path == keep {
          continue;
        }
        if path !in stuck {
          files := files - {path};
        }
      }
      assert candidates[..|candidates|] == candidates;
    }
  }

  ghost predicate EvictedPath(cs: set<Archive>, keep: string, limit: nat, path: string) {
    exists c: Archive :: c.path == path && Evicted(cs, keep, limit, c)
  }

  /** The directory after a clean-up. */
  ghost function CleanedUp(files: map<string, nat>, keep: string, now: nat, limit: nat, stuck: set<string>)
    : map<string, nat>
  {
    var cs := Archives(files, keep, now);
    map p | p in files && (p in stuck || !EvictedPath(cs, keep, limit, p)) :: files[p]
  }

  /** The path is at position `limit` or beyond and is not the kept one. */
  ghost predicate Listed(s: seq<Archive>, keep: string, limit: nat, path: string) {
    path != keep && exists i :: limit <= i < |s| && s[i].path == path
  }

  lemma ListedStep(s: seq<Archive>, keep: string, limit: nat, k: nat)
    requires k < |s|
    ensures forall p :: Listed(s[..k + 1], keep, limit, p) <==>
                          Listed(s[..k], keep, limit, p) || (p != keep && limit <= k && s[k].path == p)
  {
    forall p ensures Listed(s[..k + 1], keep, limit, p) <==>
                       Listed(s[..k], keep, limit, p) || (p != keep && limit <= k && s[k].path == p)
    {
      if Listed(s[..k + 1], keep, limit, p) {
        var i :| limit <= i < k + 1 && s[..k + 1][i].path == p;
        assert i < k ==> s[..k][i].path == p;
      }
      if Listed(s[..k], keep, limit, p) {
        var i :| limit <= i < k && s[..k][i].path == p;
        assert s[..k + 1][i].path == p;
      }
      if p != keep && limit <= k && s[k].path == p {
        assert s[..k + 1][k].path == p;
      }
    }
  }

  /** The positions from `limit` on are the evicted archives. */
  lemma PathsEvicted(s: seq<Archive>, keep: string, limit: nat)
    requires Sorted(s) && 0 < limit < |s|
    ensures forall p :: Listed(s, keep, limit, p) <==> EvictedPath(Elements(s), keep, limit, p)
  {
    ElementsSize(s);
    forall p ensures Listed(s, keep, limit, p) <==> EvictedPath(Elements(s), keep, limit, p) {
      if Listed(s, keep, limit, p) {
        var i :| limit <= i < |s| && s[i].path == p;
        PositionIsRank(s, i);
        assert Evicted(Elements(s), keep, limit, s[i]);
      }
      if EvictedPath(Elements(s), keep, limit, p) {
        var c: Archive :| c.path == p && Evicted(Elements(s), keep, limit, c);
        var i :| 0 <= i < |s| && s[i] == c;
        PositionIsRank(s, i);
      }
    }
  }

  // ---- How many survive ----

  lemma FirstArePrefix(s: seq<Archive>, limit: nat, i: nat)
    requires Sorted(s) && limit <= |s| && i < |s|
    ensures s[i] in Elements(s[..limit]) <==> i < limit
  {
    if i < limit {
      assert s[..limit][i] == s[i];
    } else {
      BeforeTotal(s[i], s[i]);
    }
  }

  lemma EvictedIff(s: seq<Archive>, keep: string, limit: nat, c: Archive)
    requires Sorted(s) && 0 < limit < |s| && c in s
    ensures Evicted(Elements(s), keep, limit, c) <==> c !in Elements(s[..limit]) && c.path != keep
  {
    var i :| 0 <= i < |s| && s[i] == c;
    ElementsSize(s);
    PositionIsRank(s, i);
    FirstArePrefix(s, limit, i);
  }

  /** The kept archive when it is not among the first. */
  function KeptLate(s: seq<Archive>, keep: string, limit: nat): set<Archive>
    requires limit <= |s|
  {
    set c | c in s && c.path == keep && c !in Elements(s[..limit])
  }

  lemma SurvivorsAre(s: seq<Archive>, keep: string, limit: nat)
    requires Sorted(s) && 0 < limit < |s|
    ensures Survivors(Elements(s), keep, limit) == Elements(s[..limit]) + KeptLate(s, keep, limit)
  {
    hide Evicted;
    forall c | c in s ensures Evicted(Elements(s), keep, limit, c) <==> c !in Elements(s[..limit]) && c.path != keep {
      EvictedIff(s, keep, limit, c);
    }
  }

  /** Of more than `limit` archives exactly `limit` survive, and one more if the kept one is not
      among the first. */
  lemma SurvivorCount(s: seq<Archive>, keep: string, limit: nat)
    requires Sorted(s) && 0 < limit < |s| && Distinct(s)
    ensures |Survivors(Elements(s), keep, limit)|
         == limit + if KeptLate(s, keep, limit) != {} then 1 else 0
  {
    hide Survivors;
    SurvivorsAre(s, keep, limit);
    ElementsSize(s[..limit]);
    var first, late := Elements(s[..limit]), KeptLate(s, keep, limit);
    assert first !! late;
    if late != {} {
      var k :| k in late;
      forall c | c in late ensures c == k {
        SamePath(s, c, k);
      }
      assert late == {k};
    }
  }

  lemma SamePath(s: seq<Archive>, c: Archive, d: Archive)
    requires Distinct(s) && c in s && d in s && c.path == d.path
    ensures c == d
  {
    var i :| 0 <= i < |s| && s[i] == c;
    var j :| 0 <= j < |s| && s[j] == d;
  }

  // ---- The directory after a clean-up ----

  lemma ArchiveOf(files: map<string, nat>, keep: string, now: nat, c: Archive)
    ensures c in Archives(files, keep, now) <==>
              c.path in files && IsArchive(c.path) && c == Dated(files, keep, now, c.path)
  {
  }

  /** The archives left are the survivors and those that could not be removed; other files stay. */
  lemma DirectoryAfter(files: map<string, nat>, keep: string, now: nat, limit: nat, stuck: set<string>)
    ensures var cs, after := Archives(files, keep, now), CleanedUp(files, keep, now, limit, stuck);
            && Archives(after, keep, now) == Survivors(cs, keep, limit) + (set c | c in cs && c.path in stuck)
            && (forall p :: p in after ==> p in files && after[p] == files[p])
            && (forall p :: p in files && !IsArchive(p) ==> p in after)
  {
    hide Archives, IsArchive, Evicted;
    var cs, after := Archives(files, keep, now), CleanedUp(files, keep, now, limit, stuck);
    forall c ensures c in Archives(after, keep, now) <==>
                       c in cs && (c.path in stuck || !Evicted(cs, keep, limit, c))
    {
      ArchiveOf(files, keep, now, c);
      ArchiveOf(after, keep, now, c);
      EvictedByPath(files, keep, now, limit, c);
    }
    forall p | p in files && !IsArchive(p) ensures !EvictedPath(cs, keep, limit, p) {
      if EvictedPath(cs, keep, limit, p) {
        var c: Archive :| c.path == p && Evicted(cs, keep, limit, c);
        EvictedIn(cs, keep, limit, c);
        ArchiveOf(files, keep, now, c);
      }
    }
  }

  /** What goes is older than all that stay, or as old with a later path; only the kept file is exempt. A
      file that is not named `.gz` never goes. */
  lemma OldestEvicted(files: map<string, nat>, keep: string, now: nat, limit: nat, gone: string, stays: string)
    requires gone in files && gone !in CleanedUp(files, keep, now, limit, {})
    ensures |gone| > 3 && gone[|gone| - 3..] == ".gz" && gone != keep
    ensures stays in CleanedUp(files, keep, now, limit, {}) && stays != keep
            && |stays| > 3 && stays[|stays| - 3..] == ".gz" ==>
              files[stays] > files[gone] || (files[stays] == files[gone] && exists k :: StrAhead(stays, gone, k))
  {
    hide Archives, Rank, StrAhead, CleanedUp;
    var cs := Archives(files, keep, now);
    CleanedUpAt(files, keep, now, limit, gone);
    var e: Archive :| e.path == gone && Evicted(cs, keep, limit, e);
    ArchiveOf(files, keep, now, e);
    if stays in CleanedUp(files, keep, now, limit, {}) && stays != keep && IsArchive(stays) {
      CleanedUpAt(files, keep, now, limit, stays);
      var c := Dated(files, keep, now, stays);
      ArchiveOf(files, keep, now, c);
      assert !Evicted(cs, keep, limit, c);
      RankDecides(cs, c, e);
      StrLessMeans(stays, gone);
    }
  }

  lemma CleanedUpAt(files: map<string, nat>, keep: string, now: nat, limit: nat, p: string)
    ensures p in CleanedUp(files, keep, now, limit, {})
            <==> p in files && !exists c: Archive :: c.path == p && Evicted(Archives(files, keep, now), keep, limit, c)
  {
    hide Archives, Evicted;
  }

  lemma RankDecides(cs: set<Archive>, c: Archive, e: Archive)
    requires c in cs && e in cs && Rank(cs, c) < Rank(cs, e)
    ensures Before(c, e)
  {
    hide Before;
    BeforeTotal(c, e);
    BeforeTotal(e, e);
    if !Before(c, e) {
      var es, ds := set d | d in cs && Before(d, e), set d | d in cs && Before(d, c);
      forall d | d in es ensures d in ds {
        if Before(e, c) {
          BeforeTransitive(d, e, c);
        }
      }
      SubsetSize(es, ds);
      assert false;
    }
  }

  lemma {:induction false} SubsetSize(a: set<Archive>, b: set<Archive>)
    requires a <= b
    ensures |a| <= |b|
    decreases a
  {
    if a != {} {
      var x :| x in a;
      SubsetSize(a - {x}, b - {x});
    }
  }

  lemma EvictedIn(cs: set<Archive>, keep: string, limit: nat, c: Archive)
    requires Evicted(cs, keep, limit, c)
    ensures c in cs
  {
  }

  lemma EvictedByPath(files: map<string, nat>, keep: string, now: nat, limit: nat, c: Archive)
    ensures var cs := Archives(files, keep, now);
            c in cs ==> (EvictedPath(cs, keep, limit, c.path) <==> Evicted(cs, keep, limit, c))
  {
    hide Archives, Evicted;
    var cs := Archives(files, keep, now);
    if c in cs && EvictedPath(cs, keep, limit, c.path) {
      var d: Archive :| d.path == c.path && Evicted(cs, keep, limit, d);
      EvictedIn(cs, keep, limit, d);
      ArchiveOf(files, keep, now, c);
      ArchiveOf(files, keep, now, d);
    }
  }

  lemma {:induction false} Listing(cs: set<Archive>) returns (s: seq<Archive>)
    requires forall c, d :: c in cs && d in cs && c.path == d.path ==> c == d
    ensures Elements(s) == cs && Distinct(s)
    decreases |cs|
  {
    if cs == {} {
      s := [];
    } else {
      var c :| c in cs;
      var rest := Listing(cs - {c});
      s := [c] + rest;
      forall j | 0 <= j < |rest| ensures rest[j].path != c.path {
        assert rest[j] in Elements(rest);
      }
      assert Elements(s) == {c} + Elements(rest);
    }
  }

  /** The archives of a directory in eviction order. */
  lemma SortedListing(files: map<string, nat>, keep: string, now: nat) returns (s: seq<Archive>)
    ensures Sorted(s) && Distinct(s) && Elements(s) == Archives(files, keep, now) && |s| == |Archives(files, keep, now)|
  {
    hide Archives;
    var cs := Archives(files, keep, now);
    forall c, d | c in cs && d in cs && c.path == d.path ensures c == d {
      ArchiveOf(files, keep, now, c);
      ArchiveOf(files, keep, now, d);
    }
    var listed := Listing(cs);
    SortSorted(listed);
    s := Sort(listed);
    assert Elements(s) == Elements(listed);
    ElementsSize(s);
    SortedDistinct(s, cs);
  }

  lemma SortedDistinct(s: seq<Archive>, cs: set<Archive>)
    requires Sorted(s) && Elements(s) == cs
    requires forall c, d :: c in cs && d in cs && c.path == d.path ==> c == d
    ensures Distinct(s)
  {
    forall i, j | 0 <= i < j < |s| ensures s[i].path != s[j].path {
      assert s[i] in cs && s[j] in cs;
      BeforeTotal(s[i], s[i]);
    }
  }

  /** The kept file is an archive that `limit` others come before. */
  ghost predicate KeptBehind(files: map<string, nat>, keep: string, now: nat, limit: nat) {
    && keep in files && IsArchive(keep)
    && Rank(Archives(files, keep, now), Dated(files, keep, now, keep)) >= limit
  }

  lemma LateIffBehind(files: map<string, nat>, keep: string, now: nat, limit: nat, s: seq<Archive>)
    requires Sorted(s) && Elements(s) == Archives(files, keep, now) && limit <= |s|
    ensures KeptLate(s, keep, limit) != {} <==> KeptBehind(files, keep, now, limit)
  {
    hide Archives, Rank, IsArchive;
    if KeptLate(s, keep, limit) != {} {
      var c :| c in KeptLate(s, keep, limit);
      ArchiveOf(files, keep, now, c);
      var i :| 0 <= i < |s| && s[i] == c;
      PositionIsRank(s, i);
      FirstArePrefix(s, limit, i);
    }
    if KeptBehind(files, keep, now, limit) {
      var c := Dated(files, keep, now, keep);
      ArchiveOf(files, keep, now, c);
      assert c in Elements(s);
      var i :| 0 <= i < |s| && s[i] == c;
      PositionIsRank(s, i);
      FirstArePrefix(s, limit, i);
      assert c in KeptLate(s, keep, limit);
    }
  }

  lemma AllSurvive(cs: set<Archive>, keep: string, limit: nat)
    requires limit == 0 || |cs| <= limit
    ensures Survivors(cs, keep, limit) == cs
  {
  }

  /** How many archives the directory holds after a clean-up whose removals succeed: all of them if
      the limit is 0 or not exceeded; else `limit`, and one more exactly when the kept one is behind. */
  lemma DirectoryCount(files: map<string, nat>, keep: string, now: nat, limit: nat)
    ensures var cs, left := Archives(files, keep, now), Archives(CleanedUp(files, keep, now, limit, {}), keep, now);
            |left| == if limit == 0 || |cs| <= limit then |cs|
                      else limit + if KeptBehind(files, keep, now, limit) then 1 else 0
  {
    hide Archives, Survivors, CleanedUp, KeptBehind;
    var cs, left := Archives(files, keep, now), Archives(CleanedUp(files, keep, now, limit, {}), keep, now);
    DirectoryAfter(files, keep, now, limit, {});
    assert left == Survivors(cs, keep, limit);
    if limit == 0 || |cs| <= limit {
      AllSurvive(cs, keep, limit);
    } else {
      var s := SortedListing(files, keep, now);
      SurvivorCount(s, keep, limit);
      LateIffBehind(files, keep, now, limit, s);
    }
  }

  /** If no other archive is dated now or later, the kept one comes first, and of more than `limit`
      archives exactly `limit` are left. */
  lemma DirectoryKeepsLimit(files: map<string, nat>, keep: string, now: nat, limit: nat)
    requires limit > 0 && |Archives(files, keep, now)| > limit && keep in files && IsArchive(keep)
    requires forall p :: p in files && IsArchive(p) && p != keep ==> files[p] < now
    ensures |Archives(CleanedUp(files, keep, now, limit, {}), keep, now)| == limit
  {
    hide Archives, CleanedUp, IsArchive;
    var cs, kept := Archives(files, keep, now), Dated(files, keep, now, keep);
    DirectoryCount(files, keep, now, limit);
    forall c | c in cs ensures !Before(c, kept) {
      ArchiveOf(files, keep, now, c);
      BeforeTotal(kept, kept);
    }
    assert (set d | d in cs && Before(d, kept)) == {};
  }
}
