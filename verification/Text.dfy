/** Splitting and joining strings at a separator character, and the order of strings. */
module Text {

  function Split(s: string, sep: char): (r: seq<string>)
    ensures |r| >= 1
    ensures forall i :: 0 <= i < |r| ==> sep !in r[i]
  {
    if s == "" then [""]
    else if s[0] == sep then [""] + Split(s[1..], sep)
    else
      var r := Split(s[1..], sep);
      [[s[0]] + r[0]] + r[1..]
  }

  function Join(parts: seq<string>, sep: char): string {
    if parts == [] then ""
    else if |parts| == 1 then parts[0]
    else parts[0] + [sep] + Join(parts[1..], sep)
  }

  lemma {:induction false} SplitFirst(a: string, rest: string, sep: char)
    requires sep !in a
    ensures Split(a + [sep] + rest, sep) == [a] + Split(rest, sep)
  {
    var s := a + [sep] + rest;
    if a == "" {
      assert s[1..] == rest;
    } else {
      assert s[1..] == a[1..] + [sep] + rest;
      SplitFirst(a[1..], rest, sep);
      assert a == [a[0]] + a[1..];
    }
  }

  lemma {:induction false} SplitNone(a: string, sep: char)
    requires sep !in a
    ensures Split(a, sep) == [a]
  {
    if a != "" {
      SplitNone(a[1..], sep);
      assert a == [a[0]] + a[1..];
    }
  }

  /** Splitting undoes joining when no part contains the separator. */
  lemma {:induction false} SplitJoin(parts: seq<string>, sep: char)
    requires parts != [] && forall i :: 0 <= i < |parts| ==> sep !in parts[i]
    ensures Split(Join(parts, sep), sep) == parts
  {
    if |parts| == 1 {
      SplitNone(parts[0], sep);
    } else {
      SplitJoin(parts[1..], sep);
      SplitFirst(parts[0], Join(parts[1..], sep), sep);
      assert parts == [parts[0]] + parts[1..];
    }
  }

  lemma {:induction false} JoinAppend(parts: seq<string>, last: string, sep: char)
    requires parts != []
    ensures Join(parts + [last], sep) == Join(parts, sep) + [sep] + last
  {
    if |parts| > 1 {
      assert (parts + [last])[1..] == parts[1..] + [last];
      JoinAppend(parts[1..], last, sep);
    }
  }

  lemma SplitHead(c: char, t: string, sep: char)
    ensures Split("", sep) == [""]
    ensures var r := Split(t, sep);
            Split([c] + t, sep) == if c == sep then [""] + r else [[c] + r[0]] + r[1..]
  {
    assert ([c] + t)[1..] == t;
  }

  /** Text in front of the first line. */
  lemma {:induction false} SplitPrefix(p: string, t: string, sep: char)
    requires sep !in p
    ensures Split(p + t, sep) == [p + Split(t, sep)[0]] + Split(t, sep)[1..]
  {
    hide Split;
    var r := Split(t, sep);
    if p == "" {
      assert p + t == t && p + r[0] == r[0];
    } else {
      var rest := p[1..];
      SplitPrefix(rest, t, sep);
      SplitHead(p[0], rest + t, sep);
      assert [p[0]] + (rest + t) == p + t;
      assert [p[0]] + (rest + r[0]) == p + r[0];
    }
  }

  lemma {:induction false} SplitConcat(a: string, b: string, sep: char)
    ensures Split(a + [sep] + b, sep) == Split(a, sep) + Split(b, sep)
  {
    hide Split;
    if a == "" {
      SplitHead(sep, b, sep);
      assert a + [sep] + b == [sep] + b;
    } else {
      var rest := a[1..];
      var ra, rb := Split(rest, sep), Split(b, sep);
      SplitConcat(rest, b, sep);
      SplitHead(a[0], rest + [sep] + b, sep);
      SplitHead(a[0], rest, sep);
      assert [a[0]] + (rest + [sep] + b) == a + [sep] + b && [a[0]] + rest == a;
      assert (ra + rb)[1..] == ra[1..] + rb;
    }
  }

  predicate StrLess(a: string, b: string) {
    if b == "" then false
    else if a == "" then true
    else a[0] < b[0] || (a[0] == b[0] && StrLess(a[1..], b[1..]))
  }

  /** `a` and `b` agree up to `k`, where `a` ends or has the smaller character. */
  predicate StrAhead(a: string, b: string, k: nat) {
    k <= |a| && k < |b| && a[..k] == b[..k] && (k == |a| || a[k] < b[k])
  }

  lemma SameHead<T>(a: seq<T>, b: seq<T>, k: nat)
    ensures 0 < k <= |a| && k <= |b| && a[..k] == b[..k] ==> a[0] == b[0]
  {
    if 0 < k <= |a| && k <= |b| && a[..k] == b[..k] {
      assert a[..k][0] == b[..k][0];
    }
  }

  /** The first difference decides, and a proper prefix comes first. */
  lemma {:induction false} StrLessMeans(a: string, b: string)
    ensures StrLess(a, b) <==> exists k :: StrAhead(a, b, k)
  {
    if b != "" && a != "" {
      StrLessMeans(a[1..], b[1..]);
      if a[0] == b[0] {
        forall k: nat | StrAhead(a[1..], b[1..], k) ensures StrAhead(a, b, k + 1) {
          assert a[..k + 1] == [a[0]] + a[1..][..k] && b[..k + 1] == [b[0]] + b[1..][..k];
        }
        forall k: nat | StrAhead(a, b, k) ensures k > 0 && StrAhead(a[1..], b[1..], k - 1) {
          assert a[1..][..k - 1] == a[..k][1..] && b[1..][..k - 1] == b[..k][1..];
        }
      } else {
        assert a[0] < b[0] ==> StrAhead(a, b, 0);
        forall k: nat | StrAhead(a, b, k) ensures k == 0 {
          SameHead(a, b, k);
        }
      }
    } else if b != "" {
      assert StrAhead(a, b, 0);
    }
  }

  lemma {:induction false} StrTransitive(a: string, b: string, c: string)
    requires StrLess(a, b) && StrLess(b, c)
    ensures StrLess(a, c)
  {
    if a != "" && a[0] == b[0] == c[0] {
      StrTransitive(a[1..], b[1..], c[1..]);
    }
  }

  lemma {:induction false} StrTotal(a: string, b: string)
    ensures !StrLess(a, a)
    ensures a != b ==> (StrLess(a, b) <==> !StrLess(b, a))
  {
    if a != "" {
      StrTotal(a[1..], if b == "" then "" else b[1..]);
      if b != "" {
        assert a == [a[0]] + a[1..] && b == [b[0]] + b[1..];
      }
    }
  }
}
