/** Parsing the printed report gives the issues back, and the two scripts' loops. */
module MagnetReport {
  import opened Text
  import opened Words
  import opened Magnets

  // ---- What the dictionary of magnets holds ----

  predicate Known(ms: seq<Magnet>, number: nat) {
    exists m :: m in ms && m.number == number
  }

  predicate Distinct(ms: seq<Magnet>) {
    forall i, j :: 0 <= i < j < |ms| ==> ms[i].number != ms[j].number
  }

  /** Lines about one issue agree on its count. */
  predicate Consistent(es: seq<Entry>) {
    forall e, f :: e in es && f in es && e.number == f.number ==> e.count == f.count
  }

  /** The magnet holds exactly the areas its lines stand under. */
  ghost predicate Told(m: Magnet, es: seq<Entry>) {
    && (exists a :: Entry(a, m.number, m.count) in es)
    && (forall a :: a in m.areas <==> a != "(unlabeled)" && Entry(a, m.number, m.count) in es)
  }

  /** The magnets are exactly what the lines so far tell. */
  ghost predicate Reflects(ms: seq<Magnet>, es: seq<Entry>) {
    && Distinct(ms)
    && (forall m :: m in ms ==> Told(m, es))
    && (forall e :: e in es ==> Known(ms, e.number))
  }

  function Updated(m: Magnet, e: Entry): Magnet {
    if e.area == UNLABELED then m else m.(areas := m.areas + [e.area])
  }

  function Fresh(e: Entry): Magnet {
    Magnet(e.number, if e.area == UNLABELED then [] else [e.area], e.count)
  }

  /** Adding an entry changes the magnet of its number, or adds one at the end. */
  lemma {:induction false} AddMagnetMeans(ms: seq<Magnet>, e: Entry)
    requires Distinct(ms)
    ensures var r := AddMagnet(ms, e);
            && |r| == |ms| + (if Known(ms, e.number) then 0 else 1)
            && (forall i :: 0 <= i < |ms| ==> r[i] == if ms[i].number == e.number then Updated(ms[i], e) else ms[i])
            && (!Known(ms, e.number) ==> r[|ms|] == Fresh(e))
  {
    if ms != [] {
      assert ms == [ms[0]] + ms[1..];
      AddMagnetMeans(ms[1..], e);
      if ms[0].number == e.number {
        assert ms[0] in ms;
      } else {
        assert Known(ms, e.number) <==> Known(ms[1..], e.number);
      }
    }
  }

  lemma ToldOther(m: Magnet, es: seq<Entry>, e: Entry)
    requires Told(m, es) && m.number != e.number
    ensures Told(m, es + [e])
  {
    var a :| Entry(a, m.number, m.count) in es;
    assert Entry(a, m.number, m.count) in es + [e];
  }

  lemma ToldUpdated(m: Magnet, es: seq<Entry>, e: Entry)
    requires Told(m, es) && m.number == e.number && Consistent(es + [e])
    ensures Told(Updated(m, e), es + [e])
  {
    var a :| Entry(a, m.number, m.count) in es;
    assert Entry(a, m.number, m.count) in es + [e] && e in es + [e];
    assert m.count == e.count;
  }

  lemma ToldFresh(es: seq<Entry>, e: Entry)
    requires forall f :: f in es ==> f.number != e.number
    ensures Told(Fresh(e), es + [e])
  {
    assert Entry(e.area, e.number, e.count) in es + [e];
  }

  lemma ReflectsStep(ms: seq<Magnet>, es: seq<Entry>, e: Entry)
    requires Reflects(ms, es) && Consistent(es + [e])
    ensures Reflects(AddMagnet(ms, e), es + [e])
  {
    hide Told, Consistent, AddMagnet;
    var r := AddMagnet(ms, e);
    AddMagnetMeans(ms, e);
    forall i | 0 <= i < |r| ensures Told(r[i], es + [e]) {
      if i == |ms| {
        ToldFresh(es, e);
      } else {
        assert ms[i] in ms;
        if ms[i].number == e.number {
          ToldUpdated(ms[i], es, e);
        } else {
          ToldOther(ms[i], es, e);
        }
      }
    }
    StepKeepsNumbers(ms, e);
    StepDistinct(ms, e);
  }

  lemma StepKeepsNumbers(ms: seq<Magnet>, e: Entry)
    requires Distinct(ms)
    ensures forall n :: Known(AddMagnet(ms, e), n) <==> n == e.number || Known(ms, n)
  {
    hide AddMagnet;
    var r := AddMagnet(ms, e);
    AddMagnetMeans(ms, e);
    forall n ensures Known(r, n) <==> n == e.number || Known(ms, n) {
      if Known(ms, n) {
        var i :| 0 <= i < |ms| && ms[i].number == n;
        assert r[i] in r && r[i].number == n;
      }
      if n == e.number && !Known(ms, n) {
        assert r[|ms|] in r;
      }
      if Known(r, n) {
        var i :| 0 <= i < |r| && r[i].number == n;
        if i < |ms| {
          assert ms[i] in ms && ms[i].number == n;
        }
      }
    }
  }

  lemma StepDistinct(ms: seq<Magnet>, e: Entry)
    requires Distinct(ms)
    ensures Distinct(AddMagnet(ms, e))
  {
    hide AddMagnet;
    var r := AddMagnet(ms, e);
    AddMagnetMeans(ms, e);
    forall i, j | 0 <= i < j < |r| ensures r[i].number != r[j].number {
      assert r[i].number == ms[i].number && ms[i] in ms;
      if j < |ms| {
        assert r[j].number == ms[j].number;
      }
    }
  }

  lemma {:induction false} EntriesReflected(ms: seq<Magnet>, done: seq<Entry>, es: seq<Entry>)
    requires Reflects(ms, done) && Consistent(done + es)
    ensures Reflects(AddEntries(ms, es), done + es)
    decreases |es|
  {
    hide Reflects, AddMagnet;
    if es == [] {
      assert done + es == done;
    } else {
      assert done + [es[0]] + es[1..] == done + es;
      ConsistentPrefix(done + [es[0]], es[1..]);
      ReflectsStep(ms, done, es[0]);
      EntriesReflected(AddMagnet(ms, es[0]), done + [es[0]], es[1..]);
    }
  }

  lemma ConsistentPrefix(a: seq<Entry>, b: seq<Entry>)
    requires Consistent(a + b)
    ensures Consistent(a)
  {
    assert forall e :: e in a ==> e in a + b;
  }

  // ---- What the sections hold ----

  predicate InGroups(groups: seq<Group>, area: string, info: Info) {
    exists g :: g in groups && g.area == area && info in g.infos
  }

  lemma {:induction false} AddToHolds(groups: seq<Group>, area: string, info: Info, a: string, i: Info)
    ensures InGroups(AddTo(groups, area, info), a, i) <==> InGroups(groups, a, i) || (a == area && i == info)
  {
    var r := AddTo(groups, area, info);
    if groups == [] {
      assert r[0] in r;
    } else {
      AddToHolds(groups[1..], area, info, a, i);
      InGroupsFirst(groups, a, i);
      InGroupsFirst(r, a, i);
      if groups[0].area == area {
        assert r[1..] == groups[1..];
      } else {
        assert r[1..] == AddTo(groups[1..], area, info);
      }
    }
  }

  lemma InGroupsFirst(groups: seq<Group>, a: string, i: Info)
    requires groups != []
    ensures InGroups(groups, a, i) <==> (groups[0].area == a && i in groups[0].infos) || InGroups(groups[1..], a, i)
  {
    assert groups == [groups[0]] + groups[1..];
    assert groups[0] in groups;
  }

  lemma {:induction false} AddAreasHolds(groups: seq<Group>, areas: seq<string>, info: Info, a: string, i: Info)
    ensures InGroups(AddAreas(groups, areas, info), a, i) <==> InGroups(groups, a, i) || (a in areas && i == info)
  {
    hide InGroups, AddTo;
    if areas != [] {
      var front, last := areas[..|areas| - 1], areas[|areas| - 1];
      assert areas == front + [last];
      AddAreasHolds(groups, front, info, a, i);
      AddToHolds(AddAreas(groups, front, info), last, info, a, i);
    }
  }

  /** An issue stands under exactly its areas. */
  lemma {:induction false} GroupedHolds(infos: seq<Info>, a: string, i: Info)
    ensures InGroups(Grouped(infos), a, i) <==> i in infos && a in i.areas
  {
    if infos != [] {
      hide InGroups, AddAreas;
      var front, last := infos[..|infos| - 1], infos[|infos| - 1];
      assert infos == front + [last];
      GroupedHolds(front, a, i);
      AddAreasHolds(Grouped(front), last.areas, last, a, i);
    }
  }

  lemma {:induction false} EntriesOfHolds(area: string, infos: seq<Info>, e: Entry)
    ensures e in EntriesOf(area, infos)
            <==> e.area == area && exists i :: i in infos && i.number == e.number && i.count == e.count
  {
    if infos != [] {
      assert infos == [infos[0]] + infos[1..] && infos[0] in infos;
      EntriesOfHolds(area, infos[1..], e);
    }
  }

  ghost predicate Printed(groups: seq<Group>, e: Entry) {
    e.area != "" && exists a, i :: InGroups(groups, a, i) && Strip(a) == e.area && i.number == e.number && i.count == e.count
  }

  lemma ByCountHolds(infos: seq<Info>, i: Info)
    ensures i in ByCount(infos) <==> i in infos
  {
    SortKeeps(infos, (i: Info) => i.count, i);
  }

  ghost predicate HasLine(infos: seq<Info>, e: Entry) {
    exists i :: i in infos && i.number == e.number && i.count == e.count
  }

  lemma FirstEntries(g: Group, e: Entry)
    ensures e in GroupEntries(g) <==> e.area != "" && e.area == Strip(g.area) && HasLine(g.infos, e)
  {
    hide ByCount, EntriesOf, Strip;
    EntriesOfHolds(Strip(g.area), ByCount(g.infos), e);
    forall i ensures i in ByCount(g.infos) <==> i in g.infos {
      ByCountHolds(g.infos, i);
    }
  }

  lemma PrintedFirst(groups: seq<Group>, e: Entry)
    requires groups != []
    ensures Printed(groups, e)
            <==> (e.area != "" && Strip(groups[0].area) == e.area && HasLine(groups[0].infos, e)) || Printed(groups[1..], e)
  {
    hide InGroups, Strip;
    forall a: string, i: Info
      ensures InGroups(groups, a, i) <==> (groups[0].area == a && i in groups[0].infos) || InGroups(groups[1..], a, i)
    {
      InGroupsFirst(groups, a, i);
    }
    if e.area != "" && Strip(groups[0].area) == e.area && HasLine(groups[0].infos, e) {
      var i :| i in groups[0].infos && i.number == e.number && i.count == e.count;
      assert InGroups(groups, groups[0].area, i);
    }
  }

  lemma {:induction false} AllEntriesHold(groups: seq<Group>, e: Entry)
    ensures e in AllEntries(groups) <==> Printed(groups, e)
  {
    if groups != [] {
      hide GroupEntries, Printed, HasLine, Strip;
      AllEntriesHold(groups[1..], e);
      FirstEntries(groups[0], e);
      PrintedFirst(groups, e);
    }
  }

  lemma MostCommonHolds(groups: seq<Group>, g: Group)
    ensures g in MostCommon(groups) <==> g in groups
  {
    SortKeeps(groups, (g: Group) => g.total, g);
  }

  /** The lines of the report, in whatever order. */
  function ReportEntries(infos: seq<Info>): seq<Entry> {
    AllEntries(MostCommon(Grouped(infos)))
  }

  /** The areas of an issue as the parser will see them: without blanks around, and not blank. */
  function Shown(info: Info): set<string> {
    set a | a in info.areas && Strip(a) != "" :: Strip(a)
  }

  ghost predicate Listed(infos: seq<Info>, e: Entry) {
    exists i :: i in infos && e.area in Shown(i) && i.number == e.number && i.count == e.count
  }

  /** There is a readable line for an issue under an area exactly when it has that area. */
  lemma ReportHolds(infos: seq<Info>, e: Entry)
    ensures e in ReportEntries(infos) <==> Listed(infos, e)
  {
    hide AllEntries, MostCommon, Grouped, Strip;
    var groups := Grouped(infos);
    AllEntriesHold(MostCommon(groups), e);
    forall g ensures g in MostCommon(groups) <==> g in groups {
      MostCommonHolds(groups, g);
    }
    forall a: string, i: Info ensures InGroups(MostCommon(groups), a, i) <==> i in infos && a in i.areas {
      GroupedHolds(infos, a, i);
    }
    PrintedIsListed(MostCommon(groups), infos, e);
  }

  lemma PrintedIsListed(groups: seq<Group>, infos: seq<Info>, e: Entry)
    requires forall a: string, i: Info :: InGroups(groups, a, i) <==> i in infos && a in i.areas
    ensures Printed(groups, e) <==> Listed(infos, e)
  {
    hide InGroups, Strip;
    if Printed(groups, e) {
      var a, i :| InGroups(groups, a, i) && Strip(a) == e.area && i.number == e.number && i.count == e.count;
      assert e.area in Shown(i);
    }
    if Listed(infos, e) {
      var i :| i in infos && e.area in Shown(i) && i.number == e.number && i.count == e.count;
      var a :| a in i.areas && Strip(a) != "" && Strip(a) == e.area;
      assert InGroups(groups, a, i);
    }
  }

  // ---- Every line of the report can be read ----

  predicate CleanArea(area: string) {
    NEWLINE !in area
  }

  lemma {:induction false} AddToClean(groups: seq<Group>, area: string, info: Info)
    requires CleanArea(area) && CleanSite(info.site) && forall g :: g in groups ==> CleanGroup(g)
    ensures forall g :: g in AddTo(groups, area, info) ==> CleanGroup(g)
  {
    hide CleanSite;
    if groups != [] {
      assert CleanGroup(groups[0]);
      AddToClean(groups[1..], area, info);
    }
  }

  lemma {:induction false} AddAreasClean(groups: seq<Group>, areas: seq<string>, info: Info)
    requires CleanSite(info.site) && (forall g :: g in groups ==> CleanGroup(g))
    requires forall a :: a in areas ==> CleanArea(a)
    ensures forall g :: g in AddAreas(groups, areas, info) ==> CleanGroup(g)
  {
    hide CleanSite, CleanGroup, CleanArea, AddTo;
    if areas != [] {
      var front := areas[..|areas| - 1];
      AddAreasClean(groups, front, info);
      AddToClean(AddAreas(groups, front, info), areas[|areas| - 1], info);
    }
  }

  lemma {:induction false} GroupedClean(infos: seq<Info>)
    requires forall i :: i in infos ==> CleanInfo(i)
    ensures forall g :: g in Grouped(infos) ==> CleanGroup(g)
  {
    if infos != [] {
      hide CleanSite, CleanGroup, AddAreas;
      var front, last := infos[..|infos| - 1], infos[|infos| - 1];
      GroupedClean(front);
      assert CleanInfo(last);
      AddAreasClean(Grouped(front), last.areas, last);
    }
  }

  lemma EntryLineIsOne(info: Info)
    requires CleanSite(info.site)
    ensures NEWLINE !in EntryLine(info)
  {
    DigitsAreWords(info.count);
    DigitsAreWords(info.number);
  }

  predicate OneLined(lines: seq<string>) {
    forall i :: 0 <= i < |lines| ==> NEWLINE !in lines[i]
  }

  lemma {:induction false} EntryLinesAreOne(infos: seq<Info>)
    requires forall i :: i in infos ==> CleanSite(i.site)
    ensures OneLined(EntryLines(infos))
  {
    hide CleanSite, EntryLine;
    if infos != [] {
      EntryLineIsOne(infos[0]);
      EntryLinesAreOne(infos[1..]);
    }
  }

  lemma SectionIsOne(g: Group)
    requires CleanGroup(g)
    ensures OneLined(Section(g))
  {
    hide CleanSite, EntryLines, ByCount;
    forall i | i in ByCount(g.infos) ensures CleanSite(i.site) {
      ByCountHolds(g.infos, i);
    }
    EntryLinesAreOne(ByCount(g.infos));
  }

  lemma {:induction false} SectionsAreOne(groups: seq<Group>)
    requires forall g :: g in groups ==> CleanGroup(g)
    ensures OneLined(Sections(groups))
  {
    hide CleanGroup, Section;
    if groups != [] {
      SectionIsOne(groups[0]);
      SectionsAreOne(groups[1..]);
    }
  }

  /** The parser's loop over the printed report adds exactly the printed entries. */
  lemma ReportScanned(intro: string, infos: seq<Info>)
    requires NEWLINE !in intro && !(HEADING <= intro)
    requires forall i :: i in infos ==> CleanInfo(i)
    ensures ScanAll(Scan("", []), Split(Report(intro, infos), NEWLINE)).magnets == AddEntries([], ReportEntries(infos))
  {
    hide CleanInfo, CleanGroup, Split, Join, MostCommon, Grouped, Sections, ScanAll;
    var groups := MostCommon(Grouped(infos));
    GroupedClean(infos);
    forall g | g in groups ensures CleanGroup(g) {
      MostCommonHolds(Grouped(infos), g);
    }
    SectionsAreOne(groups);
    SplitJoin(ReportLines(intro, infos), NEWLINE);
    ScanConcat(Scan("", []), [intro], Sections(groups));
    IntroScanned(intro);
    SectionsScanned(Scan("", []), groups);
  }

  lemma IntroScanned(intro: string)
    requires !(HEADING <= intro)
    ensures ScanAll(Scan("", []), [intro]) == Scan("", [])
  {
    assert [intro][1..] == [];
  }

  // ---- The round trip ----

  predicate DistinctInfos(infos: seq<Info>) {
    forall i, j :: 0 <= i < j < |infos| ==> infos[i].number != infos[j].number
  }

  /** The magnet stands for the issue; `(unlabeled)` is no area. */
  ghost predicate Same(m: Magnet, info: Info) {
    && m.number == info.number
    && m.count == info.count
    && forall a :: a in m.areas <==> a != UNLABELED && a in Shown(info)
  }

  lemma OnlyInfo(infos: seq<Info>, i: Info, j: Info)
    requires DistinctInfos(infos) && i in infos && j in infos && i.number == j.number
    ensures i == j
  {
  }

  lemma ReportConsistent(infos: seq<Info>)
    requires DistinctInfos(infos)
    ensures Consistent(ReportEntries(infos))
  {
    hide ReportEntries, DistinctInfos;
    var es := ReportEntries(infos);
    forall e, f | e in es && f in es && e.number == f.number ensures e.count == f.count {
      ReportHolds(infos, e);
      ReportHolds(infos, f);
      var i :| i in infos && e.area in Shown(i) && i.number == e.number && i.count == e.count;
      var j :| j in infos && f.area in Shown(j) && j.number == f.number && j.count == f.count;
      OnlyInfo(infos, i, j);
    }
  }

  /** A magnet told by the report stands for one of its issues. */
  lemma ToldIsSame(infos: seq<Info>, m: Magnet) returns (info: Info)
    requires DistinctInfos(infos) && Told(m, ReportEntries(infos))
    ensures info in infos && Same(m, info)
  {
    hide ReportEntries, DistinctInfos;
    var es := ReportEntries(infos);
    var a :| Entry(a, m.number, m.count) in es;
    ReportHolds(infos, Entry(a, m.number, m.count));
    info :| info in infos && a in Shown(info) && info.number == m.number && info.count == m.count;
    forall b ensures Entry(b, m.number, m.count) in es <==> b in Shown(info) {
      var e := Entry(b, m.number, m.count);
      ReportHolds(infos, e);
      if e in es {
        var j :| j in infos && b in Shown(j) && j.number == e.number && j.count == e.count;
        OnlyInfo(infos, info, j);
      }
    }
  }

  lemma {:induction false} InsertDistinct(x: Magnet, xs: seq<Magnet>, key: Magnet -> nat)
    requires Distinct(xs) && !Known(xs, x.number)
    ensures Distinct(InsertDesc(x, xs, key))
  {
    if xs == [] || key(xs[0]) <= key(x) {
      assert forall i :: 0 <= i < |xs| ==> xs[i] in xs;
    } else {
      var rest := InsertDesc(x, xs[1..], key);
      assert xs[0] in xs;
      InsertDistinct(x, xs[1..], key);
      forall j | 0 <= j < |rest| ensures rest[j].number != xs[0].number {
        assert rest[j] in multiset(rest);
        assert rest[j] == x || rest[j] in xs[1..];
      }
    }
  }

  lemma {:induction false} SortDistinct(xs: seq<Magnet>, key: Magnet -> nat)
    requires Distinct(xs)
    ensures Distinct(SortDesc(xs, key))
  {
    if xs != [] {
      var rest := SortDesc(xs[1..], key);
      SortDistinct(xs[1..], key);
      if m :| m in rest && m.number == xs[0].number {
        SortKeeps(xs[1..], key, m);
        var j :| 1 <= j < |xs| && xs[j] == m;
        assert false;
      }
      InsertDistinct(xs[0], rest, key);
    }
  }

  /** The magnets stand for exactly the issues that have an area with a name, each once, most
      duplicated first. */
  ghost predicate Restores(ms: seq<Magnet>, infos: seq<Info>) {
    && Distinct(ms)
    && (forall i, j :: 0 <= i < j < |ms| ==> ms[j].count <= ms[i].count)
    && (forall m :: m in ms ==> exists info :: info in infos && Same(m, info))
    && (forall info :: info in infos ==> (Shown(info) != {} <==> StandsFor(ms, info)))
  }

  ghost predicate StandsFor(ms: seq<Magnet>, info: Info) {
    exists m :: m in ms && Same(m, info)
  }

  lemma ReflectedIssues(ms: seq<Magnet>, infos: seq<Info>)
    requires DistinctInfos(infos) && Reflects(ms, ReportEntries(infos))
    ensures forall m :: m in ms ==> exists info :: info in infos && Same(m, info)
    ensures forall info :: info in infos ==> (Shown(info) != {} <==> StandsFor(ms, info))
  {
    hide Told, ReportEntries, Same, DistinctInfos, Shown;
    forall m | m in ms ensures exists info :: info in infos && Same(m, info) {
      var info := ToldIsSame(infos, m);
    }
    forall info | info in infos ensures Shown(info) != {} <==> StandsFor(ms, info) {
      if Shown(info) != {} {
        ShownIsFound(ms, infos, info);
      }
      if StandsFor(ms, info) {
        var m :| m in ms && Same(m, info);
        FoundIsShown(infos, m, info);
      }
    }
  }

  lemma ShownIsFound(ms: seq<Magnet>, infos: seq<Info>, info: Info)
    requires DistinctInfos(infos) && Reflects(ms, ReportEntries(infos)) && info in infos && Shown(info) != {}
    ensures StandsFor(ms, info)
  {
    hide Told, ReportEntries, Same, DistinctInfos, Shown;
    var a :| a in Shown(info);
    var e := Entry(a, info.number, info.count);
    ReportHolds(infos, e);
    assert Listed(infos, e);
    var m :| m in ms && m.number == e.number;
    var other := ToldIsSame(infos, m);
    SameNumber(m, other);
    OnlyInfo(infos, info, other);
  }

  lemma FoundIsShown(infos: seq<Info>, m: Magnet, info: Info)
    requires DistinctInfos(infos) && Told(m, ReportEntries(infos)) && info in infos && Same(m, info)
    ensures Shown(info) != {}
  {
    hide ReportEntries, DistinctInfos, Shown;
    var a :| Entry(a, m.number, m.count) in ReportEntries(infos);
    ReportHolds(infos, Entry(a, m.number, m.count));
    var other :| other in infos && a in Shown(other) && other.number == m.number && other.count == m.count;
    OnlyInfo(infos, info, other);
  }

  lemma SameNumber(m: Magnet, info: Info)
    requires Same(m, info)
    ensures m.number == info.number
  {
  }

  /**
   * Parsing the printed report restores every issue that has an area with a name: its number, its
   * count and its set of areas, without blanks around them and with `(unlabeled)` as no area, each
   * issue once and the most duplicated first.
   */
  lemma RoundTrip(intro: string, infos: seq<Info>)
    requires NEWLINE !in intro && !(HEADING <= intro)
    requires DistinctInfos(infos) && forall i :: i in infos ==> CleanInfo(i)
    ensures Restores(Parsed(Report(intro, infos)), infos)
  {
    hide CleanSite, ReportEntries, Report, Split, ScanAll, Told, Same, DistinctInfos, AddEntries, SortDesc, Consistent;
    hide Shown;
    var es := ReportEntries(infos);
    var ms := AddEntries([], es);
    var key := (m: Magnet) => m.count;
    ReportScanned(intro, infos);
    ReportConsistent(infos);
    assert [] + es == es;
    EntriesReflected([], [], es);
    ReflectedIssues(ms, infos);
    SortDistinct(ms, key);
    SortDescending(ms, key);
    forall m ensures m in SortDesc(ms, key) <==> m in ms {
      SortKeeps(ms, key, m);
    }
    SameMembers(SortDesc(ms, key), ms, infos);
  }

  lemma SameMembers(xs: seq<Magnet>, ms: seq<Magnet>, infos: seq<Info>)
    requires forall m :: m in xs <==> m in ms
    ensures forall info :: StandsFor(xs, info) <==> StandsFor(ms, info)
  {
  }

  /** Areas come back as they were exactly when none has blanks around its name or no name. */
  lemma AreasExact(info: Info)
    ensures Shown(info) == (set a | a in info.areas) <==> forall a :: a in info.areas ==> Trimmed(a)
  {
    forall a: string ensures Trimmed(Strip(a)) || Strip(a) == "" {
      StripTrims(a);
    }
    if forall a :: a in info.areas ==> Trimmed(a) {
      forall a | a in info.areas ensures Strip(a) == a {
        StripTrimmed(a);
      }
    }
    if Shown(info) == (set a | a in info.areas) {
      forall a | a in info.areas ensures Trimmed(a) {
        assert a in Shown(info);
      }
    }
  }

  // ---- The order of the report ----

  function Total(infos: seq<Info>): nat {
    if infos == [] then 0 else Total(infos[..|infos| - 1]) + infos[|infos| - 1].count
  }

  predicate AreasOnce(groups: seq<Group>) {
    forall i, j :: 0 <= i < j < |groups| ==> groups[i].area != groups[j].area
  }

  predicate Summed(groups: seq<Group>) {
    forall g :: g in groups ==> g.total == Total(g.infos)
  }

  /** Areas stand once each, with the sum of their issues' counts. */
  predicate Tallied(groups: seq<Group>) {
    AreasOnce(groups) && Summed(groups)
  }

  lemma TotalAppend(infos: seq<Info>, info: Info)
    ensures Total(infos + [info]) == Total(infos) + info.count
  {
    assert (infos + [info])[..|infos|] == infos;
  }

  lemma {:induction false} AddToSummed(groups: seq<Group>, area: string, info: Info)
    requires Summed(groups)
    ensures Summed(AddTo(groups, area, info))
  {
    hide Total;
    if groups == [] {
      TotalAppend([], info);
      assert [] + [info] == [info] && Total([]) == 0 by {
        NothingTotalled();
      }
    } else if groups[0].area == area {
      assert groups[0] in groups;
      TotalAppend(groups[0].infos, info);
    } else {
      assert groups[0] in groups;
      AddToSummed(groups[1..], area, info);
    }
  }

  lemma NothingTotalled()
    ensures Total([]) == 0
  {
  }

  lemma {:induction false} AddToAreas(groups: seq<Group>, area: string, info: Info)
    requires AreasOnce(groups)
    ensures AreasOnce(AddTo(groups, area, info))
    ensures forall g :: g in AddTo(groups, area, info) ==> g.area == area || exists h :: h in groups && h.area == g.area
  {
    if groups != [] {
      assert groups[0] in groups;
      if groups[0].area != area {
        var rest := AddTo(groups[1..], area, info);
        AddToAreas(groups[1..], area, info);
        forall j | 0 <= j < |rest| ensures rest[j].area != groups[0].area {
          assert rest[j] in rest;
        }
      }
    }
  }

  lemma AddToTallied(groups: seq<Group>, area: string, info: Info)
    requires Tallied(groups)
    ensures Tallied(AddTo(groups, area, info))
  {
    hide AddTo, AreasOnce, Summed;
    AddToSummed(groups, area, info);
    AddToAreas(groups, area, info);
  }

  lemma {:induction false} AddAreasTallied(groups: seq<Group>, areas: seq<string>, info: Info)
    requires Tallied(groups)
    ensures Tallied(AddAreas(groups, areas, info))
  {
    hide Tallied;
    if areas != [] {
      AddAreasTallied(groups, areas[..|areas| - 1], info);
      AddToTallied(AddAreas(groups, areas[..|areas| - 1], info), areas[|areas| - 1], info);
    }
  }

  lemma {:induction false} GroupedTallied(infos: seq<Info>)
    ensures Tallied(Grouped(infos))
  {
    if infos != [] {
      hide Tallied;
      var last := infos[|infos| - 1];
      GroupedTallied(infos[..|infos| - 1]);
      AddAreasTallied(Grouped(infos[..|infos| - 1]), last.areas, last);
    }
  }

  /** Each area has one section; sections go by their areas' sums of counts and lines by their counts, largest first. */
  lemma ReportOrder(infos: seq<Info>)
    ensures Tallied(Grouped(infos))
    ensures var order := MostCommon(Grouped(infos));
            && multiset(order) == multiset(Grouped(infos))
            && (forall i, j :: 0 <= i < j < |order| ==> Total(order[j].infos) <= Total(order[i].infos))
    ensures var lines := ByCount(infos); forall i, j :: 0 <= i < j < |lines| ==> lines[j].count <= lines[i].count
  {
    hide Grouped, Total;
    GroupedTallied(infos);
    var order := MostCommon(Grouped(infos));
    SortDescending(Grouped(infos), (g: Group) => g.total);
    SortDescending(infos, (i: Info) => i.count);
    forall i | 0 <= i < |order| ensures order[i].total == Total(order[i].infos) {
      MostCommonHolds(Grouped(infos), order[i]);
    }
  }

  // ---- The loops of the two scripts ----

  lemma {:induction false} EntryLinesAppend(infos: seq<Info>, info: Info)
    ensures EntryLines(infos + [info]) == EntryLines(infos) + [EntryLine(info)]
  {
    if infos == [] {
      assert infos + [info] == [info];
    } else {
      assert (infos + [info])[1..] == infos[1..] + [info];
      EntryLinesAppend(infos[1..], info);
    }
  }

  lemma {:induction false} SectionsAppend(groups: seq<Group>, g: Group)
    ensures Sections(groups + [g]) == Sections(groups) + Section(g)
  {
    if groups == [] {
      assert groups + [g] == [g];
    } else {
      assert (groups + [g])[1..] == groups[1..] + [g];
      SectionsAppend(groups[1..], g);
    }
  }

  method GroupByArea(infos: seq<Info>) returns (groups: seq<Group>)
    ensures groups == Grouped(infos)
  {
    groups := [];
    for k := 0 to |infos|
      invariant groups == Grouped(infos[..k])
    {
      var info, start := infos[k], groups;
      for j := 0 to |info.areas|
        invariant groups == AddAreas(start, info.areas[..j], info)
      {
        groups := AddTo(groups, info.areas[j], info);
        assert info.areas[..j + 1][..j] == info.areas[..j];
      }
      assert info.areas[..|info.areas|] == info.areas;
      assert infos[..k + 1][..k] == infos[..k];
    }
    assert infos[..|infos|] == infos;
  }

  lemma NoLines()
    ensures EntryLines([]) == [] && Sections([]) == []
  {
  }

  lemma Regroup(a: seq<string>, b: seq<string>, c: seq<string>)
    ensures a + b + c == a + (b + c)
  {
  }

  method AppendSection(lines: seq<string>, g: Group) returns (r: seq<string>)
    ensures r == lines + Section(g)
  {
    hide EntryLine, EntryLines, ByCount;
    var infos := ByCount(g.infos);
    ghost var start := lines + ["", HEADING + g.area, ""];
    r := lines + ["", HEADING + g.area, ""];
    NoLines();
    assert infos[..0] == [];
    for k := 0 to |infos|
      invariant r == start + EntryLines(infos[..k])
    {
      assert infos[..k + 1] == infos[..k] + [infos[k]];
      EntryLinesAppend(infos[..k], infos[k]);
      Regroup(start, EntryLines(infos[..k]), [EntryLine(infos[k])]);
      r := r + [EntryLine(infos[k])];
    }
    assert infos[..|infos|] == infos;
    Regroup(lines, ["", HEADING + g.area, ""], EntryLines(infos));
  }

  method ReportLinesOf(intro: string, order: seq<Group>) returns (lines: seq<string>)
    ensures lines == [intro] + Sections(order)
  {
    hide Sections, Section;
    NoLines();
    assert order[..0] == [];
    lines := [intro];
    for k := 0 to |order|
      invariant lines == [intro] + Sections(order[..k])
    {
      assert order[..k + 1] == order[..k] + [order[k]];
      SectionsAppend(order[..k], order[k]);
      Regroup([intro], Sections(order[..k]), Section(order[k]));
      lines := AppendSection(lines, order[k]);
    }
    assert order[..|order|] == order;
  }

  method BuildMarkdownBody(intro: string, infos: seq<Info>) returns (body: string)
    ensures body == Report(intro, infos)
  {
    var groups := GroupByArea(infos);
    var lines := ReportLinesOf(intro, MostCommon(groups));
    body := Join(lines, NEWLINE);
  }

  lemma ScanOne(s: Scan, line: string)
    ensures ScanAll(s, [line]) == ScanLine(s, line)
  {
    var one := [line];
    assert one[1..] == [];
  }

  method ParseDuplicateMagnets(body: string) returns (magnets: seq<Magnet>)
    ensures magnets == Parsed(body)
  {
    hide Split, Strip, LineCount, LineNumber, AddMagnet, After;
    var lines := Split(body, NEWLINE);
    var area := "";
    magnets := [];
    for k := 0 to |lines|
      invariant Scan(area, magnets) == ScanAll(Scan("", []), lines[..k])
    {
      var line := lines[k];
      assert lines[..k + 1] == lines[..k] + [line];
      ScanConcat(Scan("", []), lines[..k], [line]);
      ScanOne(ScanAll(Scan("", []), lines[..k]), line);
      if HEADING <= line {
        area := Strip(line[3..]);
        continue;
      }
      if area == "" || !("-" <= line) || After(line, MARK).None? {
        continue;
      }
      var count, number := LineCount(line), LineNumber(line);
      if count.None? || number.None? {
        continue;
      }
      magnets := AddMagnet(magnets, Entry(area, number.value, count.value));
    }
    assert lines[..|lines|] == lines;
    magnets := SortDesc(magnets, (m: Magnet) => m.count);
  }
}
