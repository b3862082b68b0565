/** The report on duplicate magnets: the script that prints it and the script that parses it. */
module Magnets {
  import opened Wrappers
  import opened Text
  import opened Words
  import Decimal

  const NEWLINE := '\n'

  const UNLABELED := "(unlabeled)"

  const HEADING := "## "

  const MARK := "/issues/"

  /** An issue with duplicates; its address is `site/issues/number`. */
  datatype Info = Info(number: nat, site: string, areas: seq<string>, count: nat)

  /** A line of the report under the heading of its area. */
  datatype Entry = Entry(area: string, number: nat, count: nat)

  /** What the parser keeps of an issue. */
  datatype Magnet = Magnet(number: nat, areas: seq<string>, count: nat)

  // ---- Stable sorting, largest first ----

  function InsertDesc<T>(x: T, xs: seq<T>, key: T -> nat): (r: seq<T>)
    ensures multiset(r) == multiset(xs) + multiset{x}
  {
    if xs == [] || key(xs[0]) <= key(x) then [x] + xs
    else
      assert xs == [xs[0]] + xs[1..];
      [xs[0]] + InsertDesc(x, xs[1..], key)
  }

  /** `sorted(xs, key=key, reverse=True)`, which keeps the order of equal keys */
  function SortDesc<T>(xs: seq<T>, key: T -> nat): (r: seq<T>)
    ensures multiset(r) == multiset(xs)
  {
    if xs == [] then []
    else
      assert xs == [xs[0]] + xs[1..];
      InsertDesc(xs[0], SortDesc(xs[1..], key), key)
  }

  ghost predicate Descending<T>(xs: seq<T>, key: T -> nat) {
    forall i, j :: 0 <= i < j < |xs| ==> key(xs[j]) <= key(xs[i])
  }

  lemma {:induction false} InsertDescending<T>(x: T, xs: seq<T>, key: T -> nat)
    requires Descending(xs, key)
    ensures Descending(InsertDesc(x, xs, key), key)
  {
    if xs != [] && key(xs[0]) > key(x) {
      var rest := InsertDesc(x, xs[1..], key);
      InsertDescending(x, xs[1..], key);
      forall j | 0 <= j < |rest| ensures key(rest[j]) <= key(xs[0]) {
        assert rest[j] in multiset(rest);
        if rest[j] != x {
          assert rest[j] in xs[1..];
        }
      }
    }
  }

  lemma {:induction false} SortDescending<T>(xs: seq<T>, key: T -> nat)
    ensures Descending(SortDesc(xs, key), key)
  {
    if xs != [] {
      SortDescending(xs[1..], key);
      InsertDescending(xs[0], SortDesc(xs[1..], key), key);
    }
  }

  /** The elements with a certain key, in order. */
  function WithKey<T>(xs: seq<T>, key: T -> nat, c: nat): seq<T> {
    if xs == [] then [] else (if key(xs[0]) == c then [xs[0]] else []) + WithKey(xs[1..], key, c)
  }

  lemma {:induction false} InsertStable<T>(x: T, xs: seq<T>, key: T -> nat, c: nat)
    ensures WithKey(InsertDesc(x, xs, key), key, c) == (if key(x) == c then [x] else []) + WithKey(xs, key, c)
  {
    if xs == [] || key(xs[0]) <= key(x) {
      assert ([x] + xs)[1..] == xs;
    } else {
      var rest := InsertDesc(x, xs[1..], key);
      InsertStable(x, xs[1..], key, c);
      assert ([xs[0]] + rest)[1..] == rest;
    }
  }

  /** Elements with equal keys stay in order. */
  lemma {:induction false} SortStable<T>(xs: seq<T>, key: T -> nat, c: nat)
    ensures WithKey(SortDesc(xs, key), key, c) == WithKey(xs, key, c)
  {
    if xs != [] {
      SortStable(xs[1..], key, c);
      InsertStable(xs[0], SortDesc(xs[1..], key), key, c);
    }
  }

  lemma SortKeeps<T>(xs: seq<T>, key: T -> nat, x: T)
    ensures x in SortDesc(xs, key) <==> x in xs
  {
    assert x in SortDesc(xs, key) <==> x in multiset(SortDesc(xs, key));
  }

  // ---- Printing ----

  datatype Group = Group(area: string, total: nat, infos: seq<Info>)

  /** One step of filling `by_area` and `area_totals`. */
  function AddTo(groups: seq<Group>, area: string, info: Info): seq<Group> {
    if groups == [] then [Group(area, info.count, [info])]
    else if groups[0].area == area then
      [Group(area, groups[0].total + info.count, groups[0].infos + [info])] + groups[1..]
    else [groups[0]] + AddTo(groups[1..], area, info)
  }

  function AddAreas(groups: seq<Group>, areas: seq<string>, info: Info): seq<Group> {
    if areas == [] then groups
    else AddTo(AddAreas(groups, areas[..|areas| - 1], info), areas[|areas| - 1], info)
  }

  function Grouped(infos: seq<Info>): seq<Group> {
    if infos == [] then []
    else
      var last := infos[|infos| - 1];
      AddAreas(Grouped(infos[..|infos| - 1]), last.areas, last)
  }

  /** A count in a field of width two. */
  function Padded(n: nat): string {
    if n < 10 then " " + Decimal.Print(n) else Decimal.Print(n)
  }

  const OPEN := "-   ["

  const DUPES := " dupes] "

  function EntryLine(info: Info): string {
    OPEN + Padded(info.count) + DUPES + info.site + MARK + Decimal.Print(info.number)
  }

  function EntryLines(infos: seq<Info>): seq<string> {
    if infos == [] then [] else [EntryLine(infos[0])] + EntryLines(infos[1..])
  }

  /** What stands in a line. */
  lemma EntryLineIs(info: Info)
    ensures EntryLine(info) == "-   [" + (if info.count < 10 then " " else "") + Decimal.Print(info.count) + " dupes] "
                               + info.site + "/issues/" + Decimal.Print(info.number)
  {
    assert "" + Decimal.Print(info.count) == Decimal.Print(info.count);
    assert OPEN + (" " + Decimal.Print(info.count)) == OPEN + " " + Decimal.Print(info.count);
  }

  function ByCount(infos: seq<Info>): seq<Info> {
    SortDesc(infos, (i: Info) => i.count)
  }

  function Section(g: Group): seq<string> {
    ["", HEADING + g.area, ""] + EntryLines(ByCount(g.infos))
  }

  lemma {:induction false} EntryLinesAt(infos: seq<Info>, i: nat)
    requires i < |infos|
    ensures |EntryLines(infos)| == |infos| && EntryLines(infos)[i] == EntryLine(infos[i])
  {
    hide EntryLine;
    if |infos| > 1 {
      EntryLinesAt(infos[1..], if i > 0 then i - 1 else 0);
    }
  }

  /** A section: an empty line, the heading, an empty line, and a line for each issue. */
  lemma SectionIs(g: Group, i: nat)
    requires i < |g.infos|
    ensures |ByCount(g.infos)| == |g.infos|
    ensures var s := Section(g);
            && |s| == 3 + |g.infos| && s[0] == "" && s[1] == "## " + g.area && s[2] == ""
            && s[3 + i] == EntryLine(ByCount(g.infos)[i])
  {
    hide EntryLine, EntryLines;
    SameSize(g.infos);
    EntryLinesAt(ByCount(g.infos), i);
  }

  lemma SameSize(infos: seq<Info>)
    ensures |ByCount(infos)| == |infos|
  {
    assert |multiset(ByCount(infos))| == |multiset(infos)|;
  }

  function Sections(groups: seq<Group>): seq<string> {
    if groups == [] then [] else Section(groups[0]) + Sections(groups[1..])
  }

  /** `area_totals.most_common()` */
  function MostCommon(groups: seq<Group>): seq<Group> {
    SortDesc(groups, (g: Group) => g.total)
  }

  function ReportLines(intro: string, infos: seq<Info>): seq<string> {
    [intro] + Sections(MostCommon(Grouped(infos)))
  }

  /** `build_markdown_body` */
  function Report(intro: string, infos: seq<Info>): string {
    Join(ReportLines(intro, infos), NEWLINE)
  }

  // ---- Parsing ----

  function ParseWord(part: Option<string>): Option<nat> {
    match part
    case None => None
    case Some(s) => Decimal.Parse(s)
  }

  function WordOf(part: Option<string>): Option<string> {
    match part
    case None => None
    case Some(s) => FirstWord(s)
  }

  function LineCount(line: string): Option<nat> {
    ParseWord(WordOf(SecondPart(line, "[")))
  }

  function LineNumber(line: string): Option<nat> {
    match WordOf(SecondPart(line, MARK))
    case None => None
    case Some(w) => Decimal.Parse(DropParens(w))
  }

  /** One entry added to the dictionary of magnets, which keeps the order of insertion. */
  function AddMagnet(ms: seq<Magnet>, e: Entry): seq<Magnet> {
    if ms == [] then [Magnet(e.number, if e.area == UNLABELED then [] else [e.area], e.count)]
    else if ms[0].number == e.number then
      [if e.area == UNLABELED then ms[0] else ms[0].(areas := ms[0].areas + [e.area])] + ms[1..]
    else [ms[0]] + AddMagnet(ms[1..], e)
  }

  /** The state of the parser's loop; an area of "" is no area. */
  datatype Scan = Scan(area: string, magnets: seq<Magnet>)

  function ScanLine(s: Scan, line: string): Scan {
    if HEADING <= line then s.(area := Strip(line[3..]))
    else if s.area == "" || !("-" <= line) || After(line, MARK).None? then s
    else
      match (LineCount(line), LineNumber(line))
      case (Some(count), Some(number)) => s.(magnets := AddMagnet(s.magnets, Entry(s.area, number, count)))
      case _ => s
  }

  /** Which lines the parser passes over: anything but a heading before the first area, and lines that do
      not start with a dash or have no issue address. */
  lemma LineIgnored(s: Scan, line: string)
    ensures "## " <= line ==> ScanLine(s, line) == Scan(Strip(line[3..]), s.magnets)
    ensures !("## " <= line) && (s.area == "" || line == "" || line[0] != '-' || After(line, "/issues/").None?) ==>
              ScanLine(s, line) == s
    ensures ScanLine(s, line).magnets != s.magnets ==>
              exists count, number :: ScanLine(s, line) == s.(magnets := AddMagnet(s.magnets, Entry(s.area, number, count)))
  {
    hide AddMagnet, After, Strip, LineCount, LineNumber;
    assert "-" <= line ==> line[0] == '-';
  }

  function ScanAll(s: Scan, lines: seq<string>): Scan
    decreases |lines|
  {
    if lines == [] then s else ScanAll(ScanLine(s, lines[0]), lines[1..])
  }

  /** `parse_duplicate_magnets` on the text of the report */
  function Parsed(body: string): seq<Magnet> {
    SortDesc(ScanAll(Scan("", []), Split(body, NEWLINE)).magnets, (m: Magnet) => m.count)
  }

  lemma {:induction false} ScanConcat(s: Scan, a: seq<string>, b: seq<string>)
    ensures ScanAll(s, a + b) == ScanAll(ScanAll(s, a), b)
    decreases |a|
  {
    if a == [] {
      assert a + b == b;
    } else {
      assert (a + b)[1..] == a[1..] + b;
      ScanConcat(ScanLine(s, a[0]), a[1..], b);
    }
  }

  // ---- A printed line is read back ----

  /** The address has no earlier place that looks like the one before its number. */
  predicate CleanSite(site: string) {
    NEWLINE !in site && NoneBefore(site + MARK, MARK, |site|)
  }

  lemma DigitsAreWords(n: nat)
    ensures var d := Decimal.Print(n);
            && (forall i :: 0 <= i < |d| ==> !IsSpace(d[i]))
            && '[' !in d && '/' !in d && ')' !in d && NEWLINE !in d
  {
  }

  lemma CountFound(info: Info)
    ensures LineCount(EntryLine(info)) == Some(info.count)
  {
    hide Decimal.Print, Decimal.Parse;
    var d := Decimal.Print(info.count);
    var tail := DUPES[1..] + info.site + MARK + Decimal.Print(info.number);
    var rest := Padded(info.count) + DUPES + info.site + MARK + Decimal.Print(info.number);
    DigitsAreWords(info.count);
    assert EntryLine(info) == OPEN[..4] + "[" + rest;
    NoneByChar(OPEN[..4] + "[" + rest, "[", 4);
    AfterFirst(OPEN[..4], "[", rest);
    assert rest == Padded(info.count) + " " + tail;
    BeforeKeeps(Padded(info.count) + " ", tail, "[");
    PaddedWord(info.count, Before(tail, "["));
    Decimal.RoundTrip(info.count);
  }

  lemma PaddedWord(n: nat, rest: string)
    ensures FirstWord(Padded(n) + " " + rest) == Some(Decimal.Print(n))
  {
    var d := Decimal.Print(n);
    var s := Padded(n) + " " + rest;
    DigitsAreWords(n);
    var t := d + (" " + rest);
    assert s == if n < 10 then " " + t else t;
    if n < 10 {
      assert s[1..] == t;
    }
    assert TrimStart(t) == t;
    WordEnds(d, " " + rest);
  }

  lemma NumberFound(info: Info)
    requires CleanSite(info.site)
    ensures After(EntryLine(info), MARK).Some?
    ensures LineNumber(EntryLine(info)) == Some(info.number)
  {
    hide Decimal.Print, Decimal.Parse;
    var d := Decimal.Print(info.number);
    var p := OPEN + Padded(info.count) + DUPES;
    DigitsAreWords(info.number);
    DigitsAreWords(info.count);
    NoneInside(p, info.site, MARK, d);
    AfterFirst(p + info.site, MARK, d);
    assert EntryLine(info) == (p + info.site) + MARK + d;
    BeforeKeeps(d, "", MARK);
    assert d + "" == d && Before("", MARK) == "";
    WordEnds(d, "");
    Decimal.RoundTrip(info.number);
  }

  /** Under the heading of an area, a printed line adds its entry. */
  lemma EntryLineScanned(s: Scan, info: Info)
    requires s.area != "" && CleanSite(info.site)
    ensures ScanLine(s, EntryLine(info))
            == s.(magnets := AddMagnet(s.magnets, Entry(s.area, info.number, info.count)))
  {
    hide LineCount, LineNumber, AddMagnet, After;
    CountFound(info);
    NumberFound(info);
    var line := EntryLine(info);
    assert line[0] == OPEN[0] == '-' && HEADING[0] == '#';
    assert "-" <= line;
  }

  /** The heading of an area makes its name, without blanks around it, the current area. */
  lemma HeadingScanned(s: Scan, area: string)
    ensures ScanAll(s, ["", HEADING + area, ""]) == s.(area := Strip(area))
  {
    hide Strip, LineCount, LineNumber, After;
    var lines := ["", HEADING + area, ""];
    assert (HEADING + area)[3..] == area;
    var named := s.(area := Strip(area));
    assert lines[1..] == [HEADING + area, ""] && lines[1..][1..] == [""] && [""][1..] == [];
    assert ScanLine(s, "") == s && ScanLine(named, "") == named;
    assert ScanAll(s, lines) == ScanAll(s, lines[1..]);
    assert ScanAll(s, lines[1..]) == ScanAll(named, [""]);
    assert ScanAll(named, [""]) == ScanAll(named, []);
  }

  // ---- Reading the sections back ----

  function EntriesOf(area: string, infos: seq<Info>): seq<Entry> {
    if infos == [] then [] else [Entry(area, infos[0].number, infos[0].count)] + EntriesOf(area, infos[1..])
  }

  /** What the parser sees of a section: nothing when the name of the area is blank. */
  function GroupEntries(g: Group): seq<Entry> {
    if Strip(g.area) == "" then [] else EntriesOf(Strip(g.area), ByCount(g.infos))
  }

  function AllEntries(groups: seq<Group>): seq<Entry> {
    if groups == [] then [] else GroupEntries(groups[0]) + AllEntries(groups[1..])
  }

  function AddEntries(ms: seq<Magnet>, es: seq<Entry>): seq<Magnet>
    decreases |es|
  {
    if es == [] then ms else AddEntries(AddMagnet(ms, es[0]), es[1..])
  }

  lemma {:induction false} AddEntriesConcat(ms: seq<Magnet>, a: seq<Entry>, b: seq<Entry>)
    ensures AddEntries(ms, a + b) == AddEntries(AddEntries(ms, a), b)
    decreases |a|
  {
    if a == [] {
      assert a + b == b;
    } else {
      assert (a + b)[1..] == a[1..] + b;
      AddEntriesConcat(AddMagnet(ms, a[0]), a[1..], b);
    }
  }

  /** Names of areas are single lines. */
  predicate CleanInfo(info: Info) {
    CleanSite(info.site) && forall a :: a in info.areas ==> NEWLINE !in a
  }

  predicate CleanGroup(g: Group) {
    NEWLINE !in g.area && forall i :: i in g.infos ==> CleanSite(i.site)
  }

  lemma {:induction false} EntryLinesScanned(s: Scan, infos: seq<Info>)
    requires s.area != "" && forall i :: i in infos ==> CleanSite(i.site)
    ensures ScanAll(s, EntryLines(infos)) == s.(magnets := AddEntries(s.magnets, EntriesOf(s.area, infos)))
    decreases |infos|
  {
    hide ScanLine, AddMagnet, EntryLine, CleanSite;
    if infos != [] {
      var next := ScanLine(s, EntryLine(infos[0]));
      EntryLineScanned(s, infos[0]);
      EntryLinesScanned(next, infos[1..]);
    }
  }

  lemma EntryLineSkipped(s: Scan, info: Info)
    requires s.area == ""
    ensures ScanLine(s, EntryLine(info)) == s
  {
    hide LineCount, LineNumber, AddMagnet, After;
    var line := EntryLine(info);
    assert line[0] == OPEN[0] == '-' && HEADING[0] == '#';
  }

  lemma {:induction false} EntryLinesSkipped(s: Scan, infos: seq<Info>)
    requires s.area == ""
    ensures ScanAll(s, EntryLines(infos)) == s
  {
    hide ScanLine, EntryLine;
    if infos != [] {
      EntryLineSkipped(s, infos[0]);
      EntryLinesSkipped(s, infos[1..]);
    }
  }

  lemma SectionScanned(s: Scan, g: Group)
    requires CleanGroup(g)
    ensures ScanAll(s, Section(g)) == Scan(Strip(g.area), AddEntries(s.magnets, GroupEntries(g)))
  {
    hide CleanSite, Strip, EntryLines, EntriesOf, SortDesc, ScanLine;
    var sorted := ByCount(g.infos);
    var named := s.(area := Strip(g.area));
    HeadingScanned(s, g.area);
    ScanConcat(s, ["", HEADING + g.area, ""], EntryLines(sorted));
    if Strip(g.area) == "" {
      EntryLinesSkipped(named, sorted);
    } else {
      forall i | i in sorted ensures CleanSite(i.site) {
        SortKeeps(g.infos, (i: Info) => i.count, i);
      }
      EntryLinesScanned(named, sorted);
    }
  }

  lemma {:induction false} SectionsScanned(s: Scan, groups: seq<Group>)
    requires forall g :: g in groups ==> CleanGroup(g)
    ensures ScanAll(s, Sections(groups)).magnets == AddEntries(s.magnets, AllEntries(groups))
    decreases |groups|
  {
    hide CleanGroup, Section, GroupEntries, AddMagnet, Strip;
    if groups != [] {
      var first := GroupEntries(groups[0]);
      SectionScanned(s, groups[0]);
      ScanConcat(s, Section(groups[0]), Sections(groups[1..]));
      SectionsScanned(Scan(Strip(groups[0].area), AddEntries(s.magnets, first)), groups[1..]);
      AddEntriesConcat(s.magnets, first, AllEntries(groups[1..]));
    }
  }
}
