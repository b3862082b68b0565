/** The string operations the report parser uses: words, stripping, and splitting at a substring. */
module Words {
  import opened Wrappers

  predicate IsSpace(c: char) {
    c == ' ' || '\t' <= c <= '\r' || '\U{1c}' <= c <= '\U{1f}'
  }

  /** `s.lstrip()` */
  function TrimStart(s: string): string {
    if s != "" && IsSpace(s[0]) then TrimStart(s[1..]) else s
  }

  function TrimEnd(s: string): string {
    if s != "" && IsSpace(s[|s| - 1]) then TrimEnd(s[..|s| - 1]) else s
  }

  /** `s.strip()` */
  function Strip(s: string): string {
    TrimEnd(TrimStart(s))
  }

  /** A name without a blank at either end. */
  predicate Trimmed(s: string) {
    s != "" && !IsSpace(s[0]) && !IsSpace(s[|s| - 1])
  }

  lemma {:induction false} TrimEndTrims(s: string)
    ensures TrimEnd(s) <= s && (TrimEnd(s) != "" ==> !IsSpace(TrimEnd(s)[|TrimEnd(s)| - 1]))
  {
    if s != "" && IsSpace(s[|s| - 1]) {
      TrimEndTrims(s[..|s| - 1]);
    }
  }

  lemma {:induction false} TrimStartTrims(s: string)
    ensures TrimStart(s) != "" ==> !IsSpace(TrimStart(s)[0])
  {
    if s != "" && IsSpace(s[0]) {
      TrimStartTrims(s[1..]);
    }
  }

  lemma StripTrims(s: string)
    ensures Strip(s) == "" || Trimmed(Strip(s))
  {
    TrimStartTrims(s);
    TrimEndTrims(TrimStart(s));
  }

  lemma StripTrimmed(s: string)
    requires Trimmed(s)
    ensures Strip(s) == s
  {
  }

  function WordAt(s: string): string {
    if s == "" || IsSpace(s[0]) then "" else [s[0]] + WordAt(s[1..])
  }

  /** `s.split()[0]` */
  function FirstWord(s: string): Option<string> {
    var t := TrimStart(s);
    if t == "" then None else Some(WordAt(t))
  }

  lemma {:induction false} WordEnds(w: string, rest: string)
    requires forall i :: 0 <= i < |w| ==> !IsSpace(w[i])
    requires rest == "" || IsSpace(rest[0])
    ensures WordAt(w + rest) == w
  {
    if w == "" {
      assert w + rest == rest;
    } else {
      assert (w + rest)[1..] == w[1..] + rest;
      WordEnds(w[1..], rest);
    }
  }

  /** What follows the first occurrence of `pat`. */
  function After(s: string, pat: string): Option<string> {
    if pat <= s then Some(s[|pat|..])
    else if s == "" then None
    else After(s[1..], pat)
  }

  /** What precedes the first occurrence of `pat`, or everything. */
  function Before(s: string, pat: string): string {
    if s == "" || pat <= s then "" else [s[0]] + Before(s[1..], pat)
  }

  /** `s.split(pat)[1]` */
  function SecondPart(s: string, pat: string): Option<string> {
    match After(s, pat)
    case None => None
    case Some(t) => Some(Before(t, pat))
  }

  /** `pat` does not start anywhere inside the first `n` characters. */
  predicate NoneBefore(s: string, pat: string, n: nat)
    requires n <= |s|
  {
    forall i :: 0 <= i < n ==> !(pat <= s[i..])
  }

  lemma NoneByChar(s: string, pat: string, n: nat)
    requires n <= |s| && pat != "" && pat[0] !in s[..n]
    ensures NoneBefore(s, pat, n)
  {
    forall i | 0 <= i < n ensures !(pat <= s[i..]) {
      assert s[i..][0] == s[..n][i];
    }
  }

  /** Putting text around does not make an occurrence inside. */
  lemma NoneInside(p: string, a: string, pat: string, rest: string)
    requires pat != "" && pat[0] !in p && NoneBefore(a + pat, pat, |a|)
    ensures NoneBefore(p + a + pat + rest, pat, |p + a|)
  {
    var s, inner := p + a + pat + rest, a + pat;
    forall i | 0 <= i < |p + a| ensures !(pat <= s[i..]) {
      if i < |p| {
        assert s[i..][0] == p[i];
      } else {
        var j := i - |p|;
        assert s[i..] == inner[j..] + rest;
        assert !(pat <= inner[j..]);
      }
    }
  }

  lemma {:induction false} AfterFirst(a: string, pat: string, rest: string)
    requires NoneBefore(a + pat + rest, pat, |a|)
    ensures After(a + pat + rest, pat) == Some(rest)
  {
    var s := a + pat + rest;
    if a == "" {
      assert s[|pat|..] == rest && pat == s[..|pat|];
    } else {
      var t := a[1..] + pat + rest;
      assert s[1..] == t && s[0..] == s;
      assert !(pat <= s[0..]);
      forall i | 0 <= i < |a[1..]| ensures !(pat <= t[i..]) {
        assert t[i..] == s[i + 1..];
      }
      AfterFirst(a[1..], pat, rest);
    }
  }

  lemma {:induction false} AfterAbsent(s: string, pat: string)
    requires pat != "" && pat[0] !in s
    ensures After(s, pat) == None
  {
    if s != "" {
      assert s[0] in s;
      AfterAbsent(s[1..], pat);
    }
  }

  lemma {:induction false} BeforeKeeps(p: string, rest: string, pat: string)
    requires pat != "" && pat[0] !in p
    ensures Before(p + rest, pat) == p + Before(rest, pat)
  {
    if p == "" {
      assert p + rest == rest;
    } else {
      assert (p + rest)[1..] == p[1..] + rest && (p + rest)[0] == p[0];
      BeforeKeeps(p[1..], rest, pat);
    }
  }

  /** `s.rstrip(")")` */
  function DropParens(s: string): string {
    if s != "" && s[|s| - 1] == ')' then DropParens(s[..|s| - 1]) else s
  }
}
