/** The duplicate bot's comment, and the script that reads issue numbers back out of it. */
module BotComment {
  import opened Wrappers
  import opened Text
  import Decimal

  const NEWLINE := '\n'

  datatype State = Open | Closed

  datatype Match = Match(number: nat, explanation: string, rootCause: string, closedAsDuplicate: bool)

  // ---- Sorting the matches into buckets ----

  predicate HasState(states: map<nat, State>, m: Match, expected: State) {
    m.number in states && states[m.number] == expected
  }

  function FilterByState(ms: seq<Match>, states: map<nat, State>, expected: State): (r: seq<Match>)
    ensures forall m :: m in r <==> m in ms && HasState(states, m, expected)
  {
    if ms == [] then []
    else if HasState(states, ms[0], expected) then [ms[0]] + FilterByState(ms[1..], states, expected)
    else FilterByState(ms[1..], states, expected)
  }

  function Numbers(ms: seq<Match>): (r: seq<nat>)
    ensures |r| == |ms| && forall i :: 0 <= i < |ms| ==> r[i] == ms[i].number
  {
    seq(|ms|, i requires 0 <= i < |ms| => ms[i].number)
  }

  lemma {:induction false} FilterByStateAppend(ms: seq<Match>, m: Match, states: map<nat, State>, expected: State)
    ensures FilterByState(ms + [m], states, expected)
            == FilterByState(ms, states, expected) + (if HasState(states, m, expected) then [m] else [])
  {
    if ms == [] {
      assert ms + [m] == [m];
    } else {
      assert (ms + [m])[1..] == ms[1..] + [m];
      FilterByStateAppend(ms[1..], m, states, expected);
    }
  }

  /** `filter_by_state`: `kept` and `wrong` grow as the loop goes over the items. */
  method SplitByState(items: seq<Match>, states: map<nat, State>, expected: State)
    returns (kept: seq<Match>, wrong: seq<Match>)
    ensures kept == FilterByState(items, states, expected)
    ensures |kept| + |wrong| == |items|
    ensures forall m :: m in wrong ==> m in items && !HasState(states, m, expected)
  {
    hide HasState;
    kept, wrong := [], [];
    assert items[..0] == [];
    for k := 0 to |items|
      invariant kept == FilterByState(items[..k], states, expected)
      invariant |kept| + |wrong| == k
      invariant forall m :: m in wrong ==> m in items && !HasState(states, m, expected)
    {
      FilterByStateAppend(items[..k], items[k], states, expected);
      assert items[..k + 1] == items[..k] + [items[k]];
      if HasState(states, items[k], expected) {
        kept := kept + [items[k]];
      } else {
        wrong := wrong + [items[k]];
      }
    }
    assert items[..|items|] == items;
  }

  function WithoutNumbers(ms: seq<Match>, drop: seq<nat>): (r: seq<Match>)
    ensures forall m :: m in r <==> m in ms && m.number !in drop
  {
    if ms == [] then []
    else if ms[0].number in drop then WithoutNumbers(ms[1..], drop)
    else [ms[0]] + WithoutNumbers(ms[1..], drop)
  }

  datatype Buckets = Buckets(likely: seq<Match>, possible: seq<Match>, closed: seq<Match>)

  /** The post-filtering of the analysis. */
  function Bucketed(raw: Buckets, states: map<nat, State>): Buckets {
    var likely := FilterByState(raw.likely, states, Open);
    Buckets(likely,
            WithoutNumbers(FilterByState(raw.possible, states, Open), Numbers(likely)),
            FilterByState(raw.closed, states, Closed))
  }

  /** `a` is `b` with some elements left out. */
  predicate Within(a: seq<Match>, b: seq<Match>) {
    if a == [] then true
    else if b == [] then false
    else if a[0] == b[0] && Within(a[1..], b[1..]) then true
    else Within(a, b[1..])
  }

  lemma {:induction false} FilterKeeps(ms: seq<Match>, states: map<nat, State>, expected: State, m: Match)
    ensures Within(FilterByState(ms, states, expected), ms)
    ensures multiset(FilterByState(ms, states, expected))[m]
         == if m.number in states && states[m.number] == expected then multiset(ms)[m] else 0
  {
    if ms != [] {
      FilterKeeps(ms[1..], states, expected, m);
      assert ms == [ms[0]] + ms[1..];
      assert HasState(states, ms[0], expected) ==>
             FilterByState(ms, states, expected)[1..] == FilterByState(ms[1..], states, expected);
    }
  }

  lemma {:induction false} WithoutKeeps(ms: seq<Match>, drop: seq<nat>, m: Match)
    ensures Within(WithoutNumbers(ms, drop), ms)
    ensures multiset(WithoutNumbers(ms, drop))[m] == if m.number in drop then 0 else multiset(ms)[m]
  {
    if ms != [] {
      WithoutKeeps(ms[1..], drop, m);
      assert ms == [ms[0]] + ms[1..];
      assert ms[0].number !in drop ==> WithoutNumbers(ms, drop)[1..] == WithoutNumbers(ms[1..], drop);
    }
  }

  lemma {:induction false} WithinTransitive(a: seq<Match>, b: seq<Match>, c: seq<Match>)
    requires Within(a, b) && Within(b, c)
    ensures Within(a, c)
    decreases |c|
  {
    if a != [] {
      if b[0] == c[0] && Within(b[1..], c[1..]) {
        if a[0] == b[0] && Within(a[1..], b[1..]) {
          WithinTransitive(a[1..], b[1..], c[1..]);
        } else {
          WithinTransitive(a, b[1..], c[1..]);
        }
      } else {
        WithinTransitive(a, b, c[1..]);
      }
    }
  }

  /** What is left of the answer, in order and each as often as it was there: the likely and the possible
      issues that are open, the latter without the likely ones, and the closed issues that are closed. */
  lemma BucketsKeep(raw: Buckets, states: map<nat, State>, m: Match)
    ensures var b := Bucketed(raw, states);
            var state := if m.number in states then Some(states[m.number]) else None;
            var likely := exists l :: l in raw.likely && l.number == m.number;
            && Within(b.likely, raw.likely) && Within(b.possible, raw.possible) && Within(b.closed, raw.closed)
            && multiset(b.likely)[m] == (if state == Some(Open) then multiset(raw.likely)[m] else 0)
            && multiset(b.possible)[m] == (if state == Some(Open) && !likely then multiset(raw.possible)[m] else 0)
            && multiset(b.closed)[m] == (if state == Some(Closed) then multiset(raw.closed)[m] else 0)
  {
    hide FilterByState, WithoutNumbers, Within, Numbers;
    var b := Bucketed(raw, states);
    var open := FilterByState(raw.possible, states, Open);
    FilterKeeps(raw.likely, states, Open, m);
    FilterKeeps(raw.possible, states, Open, m);
    FilterKeeps(raw.closed, states, Closed, m);
    WithoutKeeps(open, Numbers(b.likely), m);
    WithinTransitive(b.possible, open, raw.possible);
    NumberOf(b.likely, m.number);
  }

  lemma {:induction false} WithoutAppend(ms: seq<Match>, m: Match, drop: seq<nat>)
    ensures WithoutNumbers(ms + [m], drop) == WithoutNumbers(ms, drop) + (if m.number in drop then [] else [m])
  {
    if ms == [] {
      assert ms + [m] == [m];
    } else {
      assert (ms + [m])[1..] == ms[1..] + [m];
      WithoutAppend(ms[1..], m, drop);
    }
  }

  /** The end of `analyze_duplicates`, from the answer of the model on. */
  method PostFilter(raw: Buckets, states: map<nat, State>) returns (b: Buckets)
    ensures b == Bucketed(raw, states)
  {
    var likely, _ := SplitByState(raw.likely, states, Open);
    var open, _ := SplitByState(raw.possible, states, Open);
    var closed, _ := SplitByState(raw.closed, states, Closed);
    var likelyNumbers := Numbers(likely);
    var possible: seq<Match> := [];
    assert open[..0] == [];
    for k := 0 to |open|
      invariant possible == WithoutNumbers(open[..k], likelyNumbers)
    {
      WithoutAppend(open[..k], open[k], likelyNumbers);
      assert open[..k + 1] == open[..k] + [open[k]];
      if open[k].number !in likelyNumbers {
        possible := possible + [open[k]];
      }
    }
    assert open[..|open|] == open;
    b := Buckets(likely, possible, closed);
  }

  /** No issue number is in two buckets, whatever the model answered. */
  lemma BucketsDisjoint(raw: Buckets, states: map<nat, State>, n: nat)
    ensures var b := Bucketed(raw, states);
            && !(n in Numbers(b.likely) && n in Numbers(b.possible))
            && !(n in Numbers(b.likely) && n in Numbers(b.closed))
            && !(n in Numbers(b.possible) && n in Numbers(b.closed))
  {
    var b := Bucketed(raw, states);
    NumberOf(b.likely, n);
    NumberOf(b.possible, n);
    NumberOf(b.closed, n);
  }

  lemma NumberOf(ms: seq<Match>, n: nat)
    ensures n in Numbers(ms) <==> exists m :: m in ms && m.number == n
  {
    if n in Numbers(ms) {
      var i :| 0 <= i < |ms| && Numbers(ms)[i] == n;
      assert ms[i] in ms;
    }
    if m :| m in ms && m.number == n {
      var i :| 0 <= i < |ms| && ms[i] == m;
      assert Numbers(ms)[i] == n;
    }
  }

  // ---- Reading the comment ----

  const BULLET := "- #"

  /** `^- #(\d+)` on one line. */
  function Suggestion(line: string): Option<nat> {
    if BULLET <= line && |line| > 3 && Decimal.IsDigit(line[3]) then
      Decimal.Parse(Decimal.LeadingDigits(line[3..]))
    else
      None
  }

  /** Which lines suggest something. */
  lemma SuggestionIff(line: string)
    ensures Suggestion(line).Some? <==> |line| > 3 && line[..3] == "- #" && '0' <= line[3] <= '9'
  {
    if BULLET <= line && |line| > 3 && Decimal.IsDigit(line[3]) {
      assert Decimal.LeadingDigits(line[3..]) != "";
    }
  }

  function Collect(lines: seq<string>): seq<nat> {
    if lines == [] then [] else
      (match Suggestion(lines[0]) case Some(n) => [n] case None => []) + Collect(lines[1..])
  }

  /** `parse_suggested_issues` */
  function ParseSuggested(body: string): seq<nat> {
    Collect(Split(body, NEWLINE))
  }

  lemma {:induction false} CollectConcat(a: seq<string>, b: seq<string>)
    ensures Collect(a + b) == Collect(a) + Collect(b)
  {
    if a == [] {
      assert a + b == b;
    } else {
      assert (a + b)[1..] == a[1..] + b;
      CollectConcat(a[1..], b);
    }
  }

  lemma ParseConcat(a: string, b: string)
    ensures ParseSuggested(a + [NEWLINE] + b) == ParseSuggested(a) + ParseSuggested(b)
  {
    SplitConcat(a, b, NEWLINE);
    CollectConcat(Split(a, NEWLINE), Split(b, NEWLINE));
  }

  /** No line of the text but the first reads like a suggestion. */
  predicate Quiet(text: string) {
    forall i :: 1 <= i < |Split(text, NEWLINE)| ==> Suggestion(Split(text, NEWLINE)[i]).None?
  }

  lemma {:induction false} CollectNothing(lines: seq<string>)
    ensures Collect(lines) == [] <==> forall i :: 0 <= i < |lines| ==> Suggestion(lines[i]).None?
  {
    if lines != [] {
      CollectNothing(lines[1..]);
      assert forall i :: 1 <= i < |lines| ==> lines[i] == lines[1..][i - 1];
    }
  }

  /** The suggestions a text holds behind its first line. */
  function Inner(text: string): (r: seq<nat>)
  {
    Collect(Split(text, NEWLINE)[1..])
  }

  lemma QuietIff(text: string)
    ensures Quiet(text) <==> Inner(text) == []
  {
    var lines := Split(text, NEWLINE);
    CollectNothing(lines[1..]);
    assert forall i :: 1 <= i < |lines| ==> lines[i] == lines[1..][i - 1];
  }

  /** Text behind the start of a line: that line's suggestion, then the text's own. */
  lemma ParsePrefixed(p: string, t: string)
    requires NEWLINE !in p
    ensures ParseSuggested(p + t) == Collect([p + Split(t, NEWLINE)[0]]) + Inner(t)
  {
    var lines := Split(t, NEWLINE);
    SplitPrefix(p, t, NEWLINE);
    CollectConcat([p + lines[0]], lines[1..]);
  }

  predicate Plain(line: string) {
    line == "" || line[0] != '-' || (|line| > 1 && line[1] == '-')
  }

  lemma PlainLine(line: string)
    requires Plain(line)
    ensures Collect([line]) == []
  {
    assert [line][1..] == [];
    assert BULLET[0] == '-' && BULLET[1] == ' ';
  }

  /** A bullet with a number suggests that number. */
  lemma BulletLine(n: nat, rest: string)
    requires rest == "" || !Decimal.IsDigit(rest[0])
    ensures Collect([BULLET + Decimal.Print(n) + rest]) == [n]
  {
    var d := Decimal.Print(n);
    var line := BULLET + d + rest;
    assert line[3..] == d + rest && line[3] == d[0];
    Decimal.LeadingOfNumber(d, rest);
    Decimal.RoundTrip(n);
    assert [line][1..] == [];
  }

  // ---- Writing the comment, line by line; free text may itself hold further lines ----

  predicate Fixed(line: string) {
    NEWLINE !in line && Plain(line)
  }

  /** A line of fixed wording. */
  type FixedLine = line: string | Fixed(line)

  /** Fixed wording that a free text follows on the same line. */
  type Label = line: string | Fixed(line) && line != "" && line[0] != '-' witness "*"

  /** The sentences and markup around the matches. */
  datatype Wording = Wording(
    likelyIntro: seq<FixedLine>,
    advice: seq<FixedLine>,
    triageIntro: seq<FixedLine>,
    possibleIntro: seq<FixedLine>,
    closedIntro: seq<FixedLine>,
    detailsEnd: seq<FixedLine>,
    footer: seq<FixedLine>,
    sharedCause: Label,
    possibleCause: Label
  )

  const DASH := " \U{2014} "

  const AS_DUPLICATE := " (closed as duplicate)"

  function Bullets(ms: seq<Match>): seq<string> {
    if ms == [] then [] else [BULLET + Decimal.Print(ms[0].number)] + Bullets(ms[1..])
  }

  function Explanation(w: Wording, m: Match): seq<string> {
    ["**#" + Decimal.Print(m.number) + ":** " + m.explanation] + [""] + [w.sharedCause + m.rootCause]
  }

  function Explanations(w: Wording, ms: seq<Match>): seq<string> {
    if ms == [] then []
    else if |ms| == 1 then Explanation(w, ms[0])
    else Explanation(w, ms[0]) + [""] + Explanations(w, ms[1..])
  }

  function LikelySection(w: Wording, ms: seq<Match>): seq<string> {
    w.likelyIntro + Bullets(ms) + w.advice + Explanations(w, ms) + w.detailsEnd
  }

  function PossibleLines(w: Wording, ms: seq<Match>): seq<string> {
    if ms == [] then []
    else
      [BULLET + Decimal.Print(ms[0].number) + DASH + ms[0].explanation]
      + [w.possibleCause + ms[0].rootCause]
      + PossibleLines(w, ms[1..])
  }

  function ClosedTag(m: Match): string {
    if m.closedAsDuplicate then AS_DUPLICATE + DASH else DASH
  }

  function ClosedLines(ms: seq<Match>): seq<string> {
    if ms == [] then []
    else [BULLET + Decimal.Print(ms[0].number) + ClosedTag(ms[0]) + ms[0].explanation] + ClosedLines(ms[1..])
  }

  function PossiblePart(w: Wording, ms: seq<Match>): seq<string> {
    if ms == [] then [] else w.possibleIntro + PossibleLines(w, ms)
  }

  function ClosedPart(w: Wording, ms: seq<Match>): seq<string> {
    if ms == [] then [] else w.closedIntro + ClosedLines(ms)
  }

  function TriageSection(w: Wording, possible: seq<Match>, closed: seq<Match>): seq<string> {
    w.triageIntro
    + PossiblePart(w, possible)
    + (if possible == [] || closed == [] then [] else [""])
    + ClosedPart(w, closed)
    + w.detailsEnd
  }

  function CommentLines(w: Wording, b: Buckets): seq<string> {
    (if b.likely == [] then [] else LikelySection(w, b.likely) + [""])
    + (if b.possible == [] && b.closed == [] then [] else TriageSection(w, b.possible, b.closed) + [""])
    + w.footer
  }

  /** `build_comment` */
  function Build(w: Wording, b: Buckets): string {
    if b.likely == [] && b.possible == [] && b.closed == [] then "" else Join(CommentLines(w, b), NEWLINE)
  }

  lemma {:induction false} BulletsShow(w: Wording, ms: seq<Match>, m: Match)
    requires m in ms
    ensures "- #" + Decimal.Print(m.number) in Bullets(ms)
    ensures "**#" + Decimal.Print(m.number) + ":** " + m.explanation in Explanations(w, ms)
    ensures w.sharedCause + m.rootCause in Explanations(w, ms)
  {
    hide Decimal.Print;
    if m != ms[0] {
      assert m in ms[1..];
      BulletsShow(w, ms[1..], m);
    }
  }

  lemma {:induction false} PossibleShows(w: Wording, ms: seq<Match>, m: Match)
    requires m in ms
    ensures "- #" + Decimal.Print(m.number) + " \U{2014} " + m.explanation in PossibleLines(w, ms)
    ensures w.possibleCause + m.rootCause in PossibleLines(w, ms)
  {
    hide Decimal.Print;
    if m != ms[0] {
      assert m in ms[1..];
      PossibleShows(w, ms[1..], m);
    }
  }

  lemma {:induction false} ClosedShows(ms: seq<Match>, m: Match)
    requires m in ms
    ensures "- #" + Decimal.Print(m.number) + (if m.closedAsDuplicate then " (closed as duplicate) \U{2014} " else " \U{2014} ")
            + m.explanation in ClosedLines(ms)
  {
    hide Decimal.Print;
    if m == ms[0] {
      assert AS_DUPLICATE + DASH == " (closed as duplicate) \U{2014} ";
    } else {
      assert m in ms[1..];
      ClosedShows(ms[1..], m);
    }
  }

  /** What the comment shows of each match: the number, the explanation and, of an open one, the cause. */
  lemma CommentShows(w: Wording, b: Buckets, m: Match)
    ensures m in b.likely ==>
              && "- #" + Decimal.Print(m.number) in CommentLines(w, b)
              && "**#" + Decimal.Print(m.number) + ":** " + m.explanation in CommentLines(w, b)
              && w.sharedCause + m.rootCause in CommentLines(w, b)
    ensures m in b.possible ==>
              && "- #" + Decimal.Print(m.number) + " \U{2014} " + m.explanation in CommentLines(w, b)
              && w.possibleCause + m.rootCause in CommentLines(w, b)
    ensures m in b.closed ==>
              "- #" + Decimal.Print(m.number) + (if m.closedAsDuplicate then " (closed as duplicate) \U{2014} " else " \U{2014} ")
              + m.explanation in CommentLines(w, b)
  {
    hide Decimal.Print, Bullets, Explanations, PossibleLines, ClosedLines;
    if m in b.likely {
      BulletsShow(w, b.likely, m);
    }
    if m in b.possible {
      PossibleShows(w, b.possible, m);
    }
    if m in b.closed {
      ClosedShows(b.closed, m);
    }
  }

  // ---- Reading back what was written ----

  /** The suggestions of several pieces of text, each starting on a line of its own. */
  function Found(pieces: seq<string>): seq<nat> {
    if pieces == [] then [] else ParseSuggested(pieces[0]) + Found(pieces[1..])
  }

  lemma FoundOne(piece: string)
    ensures Found([piece]) == ParseSuggested(piece)
  {
    assert [piece][1..] == [];
  }

  lemma {:induction false} FoundConcat(a: seq<string>, b: seq<string>)
    ensures Found(a + b) == Found(a) + Found(b)
  {
    if a == [] {
      assert a + b == b;
    } else {
      assert (a + b)[1..] == a[1..] + b;
      FoundConcat(a[1..], b);
    }
  }

  lemma {:induction false} FoundJoin(pieces: seq<string>)
    requires pieces != []
    ensures ParseSuggested(Join(pieces, NEWLINE)) == Found(pieces)
  {
    if |pieces| > 1 {
      FoundJoin(pieces[1..]);
      ParseConcat(pieces[0], Join(pieces[1..], NEWLINE));
    } else {
      assert pieces[1..] == [];
    }
  }

  lemma {:induction false} FixedFindNothing(lines: seq<FixedLine>)
    ensures Found(lines) == []
  {
    if lines != [] {
      SplitNone(lines[0], NEWLINE);
      PlainLine(lines[0]);
      FixedFindNothing(lines[1..]);
    }
  }

  lemma NumbersFirst(ms: seq<Match>)
    requires ms != []
    ensures Numbers(ms) == [ms[0].number] + Numbers(ms[1..])
  {
  }

  lemma {:induction false} BulletsFound(ms: seq<Match>)
    ensures Found(Bullets(ms)) == Numbers(ms)
  {
    if ms != [] {
      var line := BULLET + Decimal.Print(ms[0].number);
      SplitNone(line, NEWLINE);
      BulletLine(ms[0].number, "");
      assert line + "" == line;
      BulletsFound(ms[1..]);
      NumbersFirst(ms);
    }
  }

  /** A free text behind the plain beginning of a line only suggests what its further lines do. */
  lemma FreeText(start: Label, text: string)
    ensures Found([start + text]) == Inner(text)
  {
    FoundOne(start + text);
    ParsePrefixed(start, text);
    PlainLine(start + Split(text, NEWLINE)[0]);
  }

  /** A free text behind a bullet and its number. */
  lemma FreeTextAfterBullet(n: nat, tag: string, text: string)
    requires tag != "" && NEWLINE !in tag && !Decimal.IsDigit(tag[0])
    ensures Found([BULLET + Decimal.Print(n) + tag + text]) == [n] + Inner(text)
  {
    hide Split, Inner, Suggestion, Decimal.Print;
    var start := BULLET + Decimal.Print(n) + tag;
    var first := Split(text, NEWLINE)[0];
    FoundOne(start + text);
    ParsePrefixed(start, text);
    BulletLine(n, tag + first);
    assert start + first == BULLET + Decimal.Print(n) + (tag + first);
  }

  predicate QuietMatch(m: Match) {
    Quiet(m.explanation) && Quiet(m.rootCause)
  }

  predicate AllQuiet(ms: seq<Match>) {
    forall m :: m in ms ==> QuietMatch(m)
  }

  lemma AllQuietFirst(ms: seq<Match>)
    requires ms != []
    ensures AllQuiet(ms) <==> QuietMatch(ms[0]) && AllQuiet(ms[1..])
  {
    assert ms == [ms[0]] + ms[1..];
  }

  /** The explanations suggest nothing exactly when they are quiet. */
  lemma {:induction false} ExplanationsFound(w: Wording, ms: seq<Match>)
    ensures Found(Explanations(w, ms)) == [] <==> AllQuiet(ms)
  {
    hide Found, Inner, Quiet;
    if ms == [] {
      FixedFindNothing([]);
    } else {
      ExplanationFound(w, ms[0]);
      AllQuietFirst(ms);
      ExplanationsFound(w, ms[1..]);
      if |ms| > 1 {
        FixedFindNothing([""]);
        FoundConcat(Explanation(w, ms[0]), [""]);
        FoundConcat(Explanation(w, ms[0]) + [""], Explanations(w, ms[1..]));
      }
    }
  }

  lemma ExplanationFound(w: Wording, m: Match)
    ensures Found(Explanation(w, m)) == [] <==> QuietMatch(m)
  {
    hide Found, Inner, Quiet;
    var start := "**#" + Decimal.Print(m.number) + ":** ";
    FreeText(start, m.explanation);
    FreeText(w.sharedCause, m.rootCause);
    FixedFindNothing([""]);
    FoundConcat([start + m.explanation], [""]);
    FoundConcat([start + m.explanation] + [""], [w.sharedCause + m.rootCause]);
    QuietIff(m.explanation);
    QuietIff(m.rootCause);
  }

  /** Lines with a bullet each suggest their numbers, and more exactly when a free text does. */
  ghost predicate Suggests(found: seq<nat>, ms: seq<Match>, quiet: bool) {
    |found| >= |ms| && (quiet ==> found == Numbers(ms)) && (!quiet ==> |found| > |ms|)
  }

  lemma SuggestsFirst(found: seq<nat>, first: seq<nat>, rest: seq<nat>, ms: seq<Match>, q: bool, qs: bool)
    requires ms != [] && found == [ms[0].number] + first + rest
    requires q <==> first == []
    requires Suggests(rest, ms[1..], qs)
    ensures Suggests(found, ms, q && qs)
  {
    NumbersFirst(ms);
  }

  lemma PossibleFirst(w: Wording, ms: seq<Match>)
    requires ms != []
    ensures Found(PossibleLines(w, ms))
            == [ms[0].number] + (Inner(ms[0].explanation) + Inner(ms[0].rootCause)) + Found(PossibleLines(w, ms[1..]))
  {
    hide Found, Inner;
    var m, rest := ms[0], PossibleLines(w, ms[1..]);
    var bullet := [BULLET + Decimal.Print(m.number) + DASH + m.explanation];
    FreeTextAfterBullet(m.number, DASH, m.explanation);
    FreeText(w.possibleCause, m.rootCause);
    FoundConcat(bullet, [w.possibleCause + m.rootCause]);
    FoundConcat(bullet + [w.possibleCause + m.rootCause], rest);
  }

  lemma {:induction false} PossibleFound(w: Wording, ms: seq<Match>)
    ensures Suggests(Found(PossibleLines(w, ms)), ms, AllQuiet(ms))
  {
    if ms == [] {
    } else {
      hide Found, Inner, Quiet, Suggests, Numbers, PossibleLines;
      PossibleFirst(w, ms);
      PossibleFound(w, ms[1..]);
      QuietIff(ms[0].explanation);
      QuietIff(ms[0].rootCause);
      AllQuietFirst(ms);
      SuggestsFirst(Found(PossibleLines(w, ms)), Inner(ms[0].explanation) + Inner(ms[0].rootCause),
                    Found(PossibleLines(w, ms[1..])), ms, QuietMatch(ms[0]), AllQuiet(ms[1..]));
    }
  }

  /** A closed match shows no root cause. */
  predicate ClosedQuiet(ms: seq<Match>) {
    forall m :: m in ms ==> Quiet(m.explanation)
  }

  lemma ClosedQuietFirst(ms: seq<Match>)
    requires ms != []
    ensures ClosedQuiet(ms) <==> Quiet(ms[0].explanation) && ClosedQuiet(ms[1..])
  {
    assert ms == [ms[0]] + ms[1..];
  }

  lemma {:induction false} ClosedFound(ms: seq<Match>)
    ensures Suggests(Found(ClosedLines(ms)), ms, ClosedQuiet(ms))
  {
    if ms == [] {
    } else {
      hide Found, Inner, Quiet, Suggests, Numbers;
      var m, rest := ms[0], ClosedLines(ms[1..]);
      FreeTextAfterBullet(m.number, ClosedTag(m), m.explanation);
      FoundConcat([BULLET + Decimal.Print(m.number) + ClosedTag(m) + m.explanation], rest);
      ClosedFound(ms[1..]);
      QuietIff(m.explanation);
      ClosedQuietFirst(ms);
      SuggestsFirst(Found(ClosedLines(ms)), Inner(m.explanation), Found(rest), ms,
                    Quiet(m.explanation), ClosedQuiet(ms[1..]));
    }
  }

  lemma LikelyFound(w: Wording, ms: seq<Match>)
    ensures Suggests(Found(LikelySection(w, ms)), ms, AllQuiet(ms))
  {
    hide Found, Quiet, Numbers, Bullets, Explanations;
    var told := w.likelyIntro + Bullets(ms);
    FixedFindNothing(w.likelyIntro);
    FixedFindNothing(w.advice);
    FixedFindNothing(w.detailsEnd);
    BulletsFound(ms);
    ExplanationsFound(w, ms);
    FoundConcat(w.likelyIntro, Bullets(ms));
    FoundConcat(told, w.advice);
    FoundConcat(told + w.advice, Explanations(w, ms));
    FoundConcat(told + w.advice + Explanations(w, ms), w.detailsEnd);
    assert |Numbers(ms)| == |ms|;
  }

  lemma PartsFound(w: Wording, possible: seq<Match>, closed: seq<Match>)
    ensures Found(PossiblePart(w, possible)) == Found(PossibleLines(w, possible))
    ensures Found(ClosedPart(w, closed)) == Found(ClosedLines(closed))
  {
    FixedFindNothing(w.possibleIntro);
    FixedFindNothing(w.closedIntro);
    FoundConcat(w.possibleIntro, PossibleLines(w, possible));
    FoundConcat(w.closedIntro, ClosedLines(closed));
  }

  lemma TriageFound(w: Wording, possible: seq<Match>, closed: seq<Match>)
    ensures Found(TriageSection(w, possible, closed)) == Found(PossibleLines(w, possible)) + Found(ClosedLines(closed))
  {
    hide Found, PossiblePart, ClosedPart;
    var gap: seq<string> := if possible == [] || closed == [] then [] else [""];
    var parts := w.triageIntro + PossiblePart(w, possible);
    FixedFindNothing(w.triageIntro);
    FixedFindNothing(gap);
    FixedFindNothing(w.detailsEnd);
    PartsFound(w, possible, closed);
    FoundConcat(w.triageIntro, PossiblePart(w, possible));
    FoundConcat(parts, gap);
    FoundConcat(parts + gap, ClosedPart(w, closed));
    FoundConcat(parts + gap + ClosedPart(w, closed), w.detailsEnd);
  }

  /** What the whole comment suggests, section by section. */
  lemma CommentFound(w: Wording, b: Buckets)
    ensures Found(CommentLines(w, b))
            == (if b.likely == [] then [] else Found(LikelySection(w, b.likely)))
               + Found(PossibleLines(w, b.possible)) + Found(ClosedLines(b.closed))
  {
    hide LikelySection, TriageSection, Found;
    var likely := if b.likely == [] then [] else LikelySection(w, b.likely) + [""];
    var triage := if b.possible == [] && b.closed == [] then [] else TriageSection(w, b.possible, b.closed) + [""];
    FixedFindNothing(w.footer);
    FixedFindNothing([""]);
    FixedFindNothing([]);
    FoundConcat(LikelySection(w, b.likely), [""]);
    FoundConcat(TriageSection(w, b.possible, b.closed), [""]);
    TriageFound(w, b.possible, b.closed);
    FoundConcat(likely, triage);
    FoundConcat(likely + triage, w.footer);
  }

  lemma LikelyPartFound(w: Wording, ms: seq<Match>)
    ensures Suggests(if ms == [] then [] else Found(LikelySection(w, ms)), ms, AllQuiet(ms))
  {
    if ms != [] {
      LikelyFound(w, ms);
    }
  }

  lemma SuggestsAll(l: seq<nat>, p: seq<nat>, c: seq<nat>, b: Buckets, ql: bool, qp: bool, qc: bool)
    requires Suggests(l, b.likely, ql) && Suggests(p, b.possible, qp) && Suggests(c, b.closed, qc)
    ensures l + p + c == Numbers(b.likely) + Numbers(b.possible) + Numbers(b.closed) <==> ql && qp && qc
  {
    assert |Numbers(b.likely) + Numbers(b.possible) + Numbers(b.closed)| == |b.likely| + |b.possible| + |b.closed|;
  }

  /**
   * Reading a comment back gives the likely, the possible and the closed issues, in this order and
   * nothing else, exactly when no further line of a free text starts like a bullet with a number.
   */
  lemma RoundTrip(w: Wording, b: Buckets)
    ensures ParseSuggested(Build(w, b)) == Numbers(b.likely) + Numbers(b.possible) + Numbers(b.closed)
            <==> AllQuiet(b.likely) && AllQuiet(b.possible) && ClosedQuiet(b.closed)
  {
    if b.likely == [] && b.possible == [] && b.closed == [] {
      assert [""][1..] == [];
    } else {
      assert CommentLines(w, b) != [];
      hide Found, Numbers, LikelySection, PossibleLines, ClosedLines, CommentLines, Suggests;
      hide AllQuiet, ClosedQuiet, ParseSuggested;
      FoundJoin(CommentLines(w, b));
      CommentFound(w, b);
      LikelyPartFound(w, b.likely);
      PossibleFound(w, b.possible);
      ClosedFound(b.closed);
      SuggestsAll(if b.likely == [] then [] else Found(LikelySection(w, b.likely)),
                  Found(PossibleLines(w, b.possible)), Found(ClosedLines(b.closed)), b,
                  AllQuiet(b.likely), AllQuiet(b.possible), ClosedQuiet(b.closed));
    }
  }

  // ---- The list of sections ----

  /** Sections with an empty line between them. */
  function Spaced(sections: seq<seq<string>>): seq<string> {
    if sections == [] then []
    else if |sections| == 1 then sections[0]
    else sections[0] + [""] + Spaced(sections[1..])
  }

  lemma SpacedTwo(a: seq<string>, b: seq<string>)
    ensures Spaced([a] + [b]) == a + [""] + b
  {
    assert ([a] + [b])[1..] == [b];
  }

  lemma SpacedThree(a: seq<string>, b: seq<string>, c: seq<string>)
    ensures Spaced([a] + [b] + [c]) == (a + [""]) + (b + [""]) + c
  {
    assert ([a] + [b] + [c])[1..] == [b] + [c];
    SpacedTwo(b, c);
  }

  method BuildComment(w: Wording, b: Buckets) returns (body: string)
    ensures body == Build(w, b)
  {
    hide LikelySection, TriageSection, Join, Spaced;
    var sections: seq<seq<string>> := [];
    if b.likely != [] {
      sections := sections + [LikelySection(w, b.likely)];
    }
    if b.possible != [] || b.closed != [] {
      sections := sections + [TriageSection(w, b.possible, b.closed)];
    }
    if sections == [] {
      return "";
    }
    SpacedThree(LikelySection(w, b.likely), TriageSection(w, b.possible, b.closed), w.footer);
    SpacedTwo(LikelySection(w, b.likely), w.footer);
    SpacedTwo(TriageSection(w, b.possible, b.closed), w.footer);
    assert [] + [LikelySection(w, b.likely)] == [LikelySection(w, b.likely)];
    assert [] + [TriageSection(w, b.possible, b.closed)] == [TriageSection(w, b.possible, b.closed)];
    sections := sections + [w.footer];
    assert Spaced(sections) == CommentLines(w, b);
    body := Join(Spaced(sections), NEWLINE);
  }
}
