/** Versions in the order of section 11 of Semantic Versioning 2.0.0, with build metadata as the
    last tie-breaker, and the rule that says which fetched version is an update. */
module Versions {
  import opened Wrappers
  import opened Text

  datatype Ident = Numeric(n: nat) | Alpha(s: string)

  datatype Version = Version(major: nat, minor: nat, patch: nat, pre: seq<Ident>, build: seq<string>)

  // ---- The order ----

  predicate IdentLess(a: Ident, b: Ident) {
    match (a, b)
    case (Numeric(m), Numeric(n)) => m < n
    case (Numeric(_), Alpha(_)) => true
    case (Alpha(_), Numeric(_)) => false
    case (Alpha(s), Alpha(t)) => StrLess(s, t)
  }

  predicate IdentsLess(a: seq<Ident>, b: seq<Ident>) {
    if b == [] then false
    else if a == [] then true
    else IdentLess(a[0], b[0]) || (a[0] == b[0] && IdentsLess(a[1..], b[1..]))
  }

  /** A version without a pre-release field comes after all its pre-releases. */
  predicate PreLess(a: seq<Ident>, b: seq<Ident>) {
    a != [] && (b == [] || IdentsLess(a, b))
  }

  predicate BuildLess(a: seq<string>, b: seq<string>) {
    if b == [] then false
    else if a == [] then true
    else StrLess(a[0], b[0]) || (a[0] == b[0] && BuildLess(a[1..], b[1..]))
  }

  predicate Less(a: Version, b: Version) {
    || a.major < b.major
    || (a.major == b.major
        && (|| a.minor < b.minor
            || (a.minor == b.minor
                && (|| a.patch < b.patch
                    || (a.patch == b.patch
                        && (PreLess(a.pre, b.pre) || (a.pre == b.pre && BuildLess(a.build, b.build))))))))
  }

  /** `a` and `b` agree up to `k`, where `a` ends or has the smaller identifier: numbers by value and
      before all others, which compare as strings. */
  predicate IdentsAhead(a: seq<Ident>, b: seq<Ident>, k: nat) {
    && k <= |a| && k < |b| && a[..k] == b[..k]
    && (k < |a| ==>
          if a[k].Numeric? && b[k].Numeric? then a[k].n < b[k].n
          else if a[k].Alpha? && b[k].Alpha? then StrLess(a[k].s, b[k].s)
          else a[k].Numeric?)
  }

  predicate BuildAhead(a: seq<string>, b: seq<string>, k: nat) {
    k <= |a| && k < |b| && a[..k] == b[..k] && (k < |a| ==> StrLess(a[k], b[k]))
  }

  lemma {:induction false} IdentsLessMeans(a: seq<Ident>, b: seq<Ident>)
    ensures IdentsLess(a, b) <==> exists k :: IdentsAhead(a, b, k)
  {
    hide StrLess;
    if b != [] && a != [] {
      IdentsLessMeans(a[1..], b[1..]);
      if a[0] == b[0] {
        IdentTotal(a[0], a[0]);
        forall k: nat | IdentsAhead(a[1..], b[1..], k) ensures IdentsAhead(a, b, k + 1) {
          assert a[..k + 1] == [a[0]] + a[1..][..k] && b[..k + 1] == [b[0]] + b[1..][..k];
        }
        forall k: nat | IdentsAhead(a, b, k) ensures k > 0 && IdentsAhead(a[1..], b[1..], k - 1) {
          assert a[1..][..k - 1] == a[..k][1..] && b[1..][..k - 1] == b[..k][1..];
        }
      } else {
        assert IdentLess(a[0], b[0]) <==> IdentsAhead(a, b, 0);
        forall k: nat | IdentsAhead(a, b, k) ensures k == 0 {
          SameHead(a, b, k);
        }
      }
    } else if b != [] {
      assert IdentsAhead(a, b, 0);
    }
  }

  lemma {:induction false} BuildLessMeans(a: seq<string>, b: seq<string>)
    ensures BuildLess(a, b) <==> exists k :: BuildAhead(a, b, k)
  {
    hide StrLess;
    if b != [] && a != [] {
      BuildLessMeans(a[1..], b[1..]);
      if a[0] == b[0] {
        StrTotal(a[0], a[0]);
        forall k: nat | BuildAhead(a[1..], b[1..], k) ensures BuildAhead(a, b, k + 1) {
          assert a[..k + 1] == [a[0]] + a[1..][..k] && b[..k + 1] == [b[0]] + b[1..][..k];
        }
        forall k: nat | BuildAhead(a, b, k) ensures k > 0 && BuildAhead(a[1..], b[1..], k - 1) {
          assert a[1..][..k - 1] == a[..k][1..] && b[1..][..k - 1] == b[..k][1..];
        }
      } else {
        assert StrLess(a[0], b[0]) <==> BuildAhead(a, b, 0);
        forall k: nat | BuildAhead(a, b, k) ensures k == 0 {
          SameHead(a, b, k);
        }
      }
    } else if b != [] {
      assert BuildAhead(a, b, 0);
    }
  }

  /** What decides the order: the first that differs of major, minor, patch, pre-release and build; a
      release comes after its pre-releases. */
  lemma LessMeans(a: Version, b: Version)
    ensures a.major != b.major ==> (Less(a, b) <==> a.major < b.major)
    ensures a.major == b.major && a.minor != b.minor ==> (Less(a, b) <==> a.minor < b.minor)
    ensures a.major == b.major && a.minor == b.minor && a.patch != b.patch ==> (Less(a, b) <==> a.patch < b.patch)
    ensures a.major == b.major && a.minor == b.minor && a.patch == b.patch && a.pre != b.pre ==>
              (Less(a, b) <==> a.pre != [] && (b.pre == [] || exists k :: IdentsAhead(a.pre, b.pre, k)))
    ensures a == b.(build := a.build) ==> (Less(a, b) <==> exists k :: BuildAhead(a.build, b.build, k))
  {
    hide IdentsLess, BuildLess, IdentsAhead, BuildAhead;
    IdentsLessMeans(a.pre, b.pre);
    BuildLessMeans(a.build, b.build);
    IdentsTotal(a.pre, a.pre);
  }

  lemma IdentTransitive(a: Ident, b: Ident, c: Ident)
    requires IdentLess(a, b) && IdentLess(b, c)
    ensures IdentLess(a, c)
  {
    if a.Alpha? && b.Alpha? && c.Alpha? {
      StrTransitive(a.s, b.s, c.s);
    }
  }

  lemma IdentTotal(a: Ident, b: Ident)
    ensures !IdentLess(a, a)
    ensures a != b ==> (IdentLess(a, b) <==> !IdentLess(b, a))
  {
    if a.Alpha? {
      StrTotal(a.s, if b.Alpha? then b.s else "");
    }
  }

  lemma {:induction false} IdentsTransitive(a: seq<Ident>, b: seq<Ident>, c: seq<Ident>)
    requires IdentsLess(a, b) && IdentsLess(b, c)
    ensures IdentsLess(a, c)
  {
    if a != [] {
      if a[0] == b[0] && b[0] == c[0] {
        IdentTotal(a[0], a[0]);
        IdentsTransitive(a[1..], b[1..], c[1..]);
      } else if IdentLess(a[0], b[0]) && IdentLess(b[0], c[0]) {
        IdentTransitive(a[0], b[0], c[0]);
      }
    }
  }

  lemma {:induction false} IdentsTotal(a: seq<Ident>, b: seq<Ident>)
    ensures !IdentsLess(a, a)
    ensures a != b ==> (IdentsLess(a, b) <==> !IdentsLess(b, a))
  {
    if a != [] {
      IdentTotal(a[0], if b == [] then a[0] else b[0]);
      IdentsTotal(a[1..], if b == [] then [] else b[1..]);
      if b != [] {
        IdentTotal(b[0], a[0]);
        assert a == [a[0]] + a[1..] && b == [b[0]] + b[1..];
      }
    }
  }

  lemma {:induction false} BuildTransitive(a: seq<string>, b: seq<string>, c: seq<string>)
    requires BuildLess(a, b) && BuildLess(b, c)
    ensures BuildLess(a, c)
  {
    if a != [] {
      if a[0] == b[0] && b[0] == c[0] {
        StrTotal(a[0], a[0]);
        BuildTransitive(a[1..], b[1..], c[1..]);
      } else if StrLess(a[0], b[0]) && StrLess(b[0], c[0]) {
        StrTransitive(a[0], b[0], c[0]);
      }
    }
  }

  lemma {:induction false} BuildTotal(a: seq<string>, b: seq<string>)
    ensures !BuildLess(a, a)
    ensures a != b ==> (BuildLess(a, b) <==> !BuildLess(b, a))
  {
    if a != [] {
      StrTotal(a[0], if b == [] then a[0] else b[0]);
      BuildTotal(a[1..], if b == [] then [] else b[1..]);
      if b != [] {
        StrTotal(b[0], a[0]);
        assert a == [a[0]] + a[1..] && b == [b[0]] + b[1..];
      }
    }
  }

  /** The version order is a strict total order. */
  lemma LessTransitive(a: Version, b: Version, c: Version)
    requires Less(a, b) && Less(b, c)
    ensures Less(a, c)
  {
    hide IdentsLess, BuildLess;
    if IdentsLess(a.pre, b.pre) && IdentsLess(b.pre, c.pre) {
      IdentsTransitive(a.pre, b.pre, c.pre);
    }
    if BuildLess(a.build, b.build) && BuildLess(b.build, c.build) {
      BuildTransitive(a.build, b.build, c.build);
    }
  }

  lemma LessTotal(a: Version, b: Version)
    ensures !Less(a, a)
    ensures a != b ==> (Less(a, b) <==> !Less(b, a))
  {
    hide IdentsLess, BuildLess;
    IdentsTotal(a.pre, b.pre);
    BuildTotal(a.build, b.build);
  }

  // ---- The update rule ----

  function Cleared(v: Version): Version {
    v.(pre := [], build := [])
  }

  /** The rule outside the nightly channel: strictly newer than the current version with its
      pre-release and build fields cleared. */
  function NewerNonNightly(current: Version, fetched: Version): Option<Version> {
    if Less(Cleared(current), fetched) then Some(fetched) else None
  }

  /** A version that its own cleared form does not come before. */
  predicate Steady(v: Version) {
    v.pre != [] || v.build == []
  }

  lemma SteadyMeans(v: Version)
    ensures Steady(v) <==> !Less(Cleared(v), v)
  {
  }

  /** A version above a cleared one has a cleared form that is no lower. */
  lemma ClearedBelow(a: Version, b: Version)
    requires Less(Cleared(a), b)
    ensures Cleared(a) == Cleared(b) || Less(Cleared(a), Cleared(b))
  {
  }

  /** Whatever is accepted over a version above the cleared `a` is itself above the cleared `a`. */
  lemma AcceptedStaysAbove(a: Version, current: Version, fetched: Version)
    requires Less(Cleared(a), current) && NewerNonNightly(current, fetched).Some?
    ensures Less(Cleared(a), fetched)
  {
    hide Less;
    ClearedBelow(a, current);
    if Cleared(a) != Cleared(current) {
      LessTransitive(Cleared(a), Cleared(current), fetched);
    }
  }

  /** The rule refuses some newer version exactly when the current one is a pre-release: its own
      release is never offered. */
  lemma RefusesNewer(current: Version)
    ensures (exists v :: Less(current, v) && NewerNonNightly(current, v).None?) <==> current.pre != []
  {
    var release := Cleared(current);
    if current.pre != [] {
      LessTotal(release, release);
      assert Less(current, release) && NewerNonNightly(current, release).None?;
    } else {
      forall v | Less(current, v) ensures NewerNonNightly(current, v).Some? {
        if current != release {
          SteadyMeans(current);
          LessTotal(current, release);
          LessTransitive(release, current, v);
        }
      }
    }
  }

  /** An accepted version is newer than the current one for every fetched version, exactly when the
      current one is a pre-release or has no build metadata. */
  lemma AcceptedIsNewer(current: Version, fetched: Version)
    ensures Steady(current) && NewerNonNightly(current, fetched).Some? ==> Less(current, fetched)
    ensures !Steady(current) ==> NewerNonNightly(current, current) == Some(current) && !Less(current, current)
  {
    SteadyMeans(current);
    LessTotal(current, Cleared(current));
    if Steady(current) && NewerNonNightly(current, fetched).Some? && current != Cleared(current) {
      LessTransitive(current, Cleared(current), fetched);
    }
  }
}
