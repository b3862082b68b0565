/** Release notes turned into markup: lists and code fences become `ul` elements. */
module ReleaseNotes {
  import Words

  /** A line after cleaning: dropped, or kept with what it was recognized as. */
  datatype Line = Dropped | Kept(fence: bool, list: bool, text: string)

  datatype Token = OpenUl | CloseUl | Item(text: string) | CodeItem(text: string) | Para(text: string)

  /** Cleaning and recognizing a line depends on whether it is inside a code fence. */
  type Reader = (string, bool) -> Line

  datatype State = State(inFence: bool, inList: bool)

  function Opening(s: State, l: Line): seq<Token>
    requires l.Kept?
  {
    (if s.inList && !l.list then [CloseUl] else [])
    + (if (!s.inFence && l.fence) || (!s.inList && l.list) then [OpenUl] else [])
  }

  function Next(s: State, l: Line): State {
    if l.Dropped? then s else State(l.fence != s.inFence, l.list)
  }

  function Content(s: State, l: Line): Token
    requires l.Kept?
  {
    if l.list then Item(l.text)
    else if Next(s, l).inFence || l.fence then CodeItem(l.text)
    else Para(l.text)
  }

  function Closing(s: State, l: Line): seq<Token>
    requires l.Kept?
  {
    if !Next(s, l).inFence && l.fence then [CloseUl] else []
  }

  function Emit(s: State, l: Line): seq<Token> {
    if l.Dropped? then [] else Opening(s, l) + [Content(s, l)] + Closing(s, l)
  }

  const START := State(false, false)

  /** The state after the first lines, the tokens emitted for them, and how many of them were list
      item and fence at once outside any list and fence. */
  function After(lines: seq<string>, read: Reader): State {
    if lines == [] then START else
      var s := After(lines[..|lines| - 1], read);
      Next(s, read(lines[|lines| - 1], s.inFence))
  }

  function Emitted(lines: seq<string>, read: Reader): seq<Token> {
    if lines == [] then [] else
      var init := lines[..|lines| - 1];
      var s := After(init, read);
      Emitted(init, read) + Emit(s, read(lines[|lines| - 1], s.inFence))
  }

  /** List item and fence at once. */
  predicate Both(l: Line) {
    l.Kept? && l.fence && l.list
  }

  predicate IsOrphan(s: State, l: Line) {
    s == START && Both(l)
  }

  function Orphans(lines: seq<string>, read: Reader): nat {
    if lines == [] then 0 else
      var init := lines[..|lines| - 1];
      var s := After(init, read);
      Orphans(init, read) + if IsOrphan(s, read(lines[|lines| - 1], s.inFence)) then 1 else 0
  }

  /** The whole body, with the one closing tag at the end. */
  function Converted(lines: seq<string>, read: Reader): seq<Token> {
    var s := After(lines, read);
    Emitted(lines, read) + if s.inFence || s.inList then [CloseUl] else []
  }

  // ---- Content ----

  /** What is not a tag. */
  function Contents(ts: seq<Token>): seq<Token> {
    if ts == [] then [] else
      var last := ts[|ts| - 1];
      Contents(ts[..|ts| - 1]) + if last.OpenUl? || last.CloseUl? then [] else [last]
  }

  /** Every kept line: an item, code if it is a fence or inside one, or a paragraph. */
  function Shown(lines: seq<string>, read: Reader): seq<Token> {
    if lines == [] then [] else
      var init := lines[..|lines| - 1];
      var inFence := Fences(init, read) % 2 == 1;
      Shown(init, read) +
      match read(lines[|lines| - 1], inFence)
      case Dropped => []
      case Kept(fence, list, text) =>
        [if list then Item(text) else if fence || inFence then CodeItem(text) else Para(text)]
  }

  /** How many kept lines are fences; a line is inside a fence behind an odd number of them. */
  function Fences(lines: seq<string>, read: Reader): nat {
    if lines == [] then 0 else
      var init := lines[..|lines| - 1];
      var l := read(lines[|lines| - 1], Fences(init, read) % 2 == 1);
      Fences(init, read) + if l.Kept? && l.fence then 1 else 0
  }

  lemma {:induction false} InFenceMeans(lines: seq<string>, read: Reader)
    ensures After(lines, read).inFence <==> Fences(lines, read) % 2 == 1
  {
    if lines != [] {
      InFenceMeans(lines[..|lines| - 1], read);
    }
  }

  lemma {:induction false} ContentsConcat(a: seq<Token>, b: seq<Token>)
    ensures Contents(a + b) == Contents(a) + Contents(b)
  {
    if b == [] {
      assert a + b == a;
    } else {
      assert (a + b)[..|a + b| - 1] == a + b[..|b| - 1];
      ContentsConcat(a, b[..|b| - 1]);
    }
  }

  lemma ContentsOne(t: Token)
    ensures Contents([t]) == if t.OpenUl? || t.CloseUl? then [] else [t]
  {
    assert [t][..0] == [];
  }

  lemma ContentsOfLine(s: State, l: Line)
    ensures Contents(Emit(s, l)) == if l.Dropped? then [] else [Content(s, l)]
  {
    if l.Kept? {
      ContentsConcat(Opening(s, l) + [Content(s, l)], Closing(s, l));
      ContentsConcat(Opening(s, l), [Content(s, l)]);
      ContentsConcat(if s.inList && !l.list then [CloseUl] else [],
                     if (!s.inFence && l.fence) || (!s.inList && l.list) then [OpenUl] else []);
      ContentsOne(OpenUl);
      ContentsOne(CloseUl);
      ContentsOne(Content(s, l));
    }
  }

  /** Between the tags stands every kept line once, in order, as what it is. */
  lemma ContentKept(lines: seq<string>, read: Reader)
    ensures Contents(Converted(lines, read)) == Shown(lines, read)
  {
    var s := After(lines, read);
    EmittedContents(lines, read);
    ContentsConcat(Emitted(lines, read), if s.inFence || s.inList then [CloseUl] else []);
    ContentsOne(CloseUl);
  }

  lemma {:induction false} EmittedContents(lines: seq<string>, read: Reader)
    ensures Contents(Emitted(lines, read)) == Shown(lines, read)
  {
    hide Emit;
    if lines != [] {
      var init := lines[..|lines| - 1];
      var s := After(init, read);
      var l := read(lines[|lines| - 1], s.inFence);
      EmittedContents(init, read);
      InFenceMeans(init, read);
      ContentsOfLine(s, l);
      ContentsConcat(Emitted(init, read), Emit(s, l));
    }
  }

  // ---- Nesting ----

  function TagDepth(t: Token): int {
    match t
    case OpenUl => 1
    case CloseUl => -1
    case _ => 0
  }

  function Depth(ts: seq<Token>): int {
    if ts == [] then 0 else Depth(ts[..|ts| - 1]) + TagDepth(ts[|ts| - 1])
  }

  /** No closing tag without an open element. */
  ghost predicate NeverNegative(ts: seq<Token>) {
    forall k :: 0 <= k <= |ts| ==> Depth(ts[..k]) >= 0
  }

  lemma {:induction false} DepthConcat(a: seq<Token>, b: seq<Token>)
    ensures Depth(a + b) == Depth(a) + Depth(b)
  {
    if b == [] {
      assert a + b == a;
    } else {
      assert (a + b)[..|a + b| - 1] == a + b[..|b| - 1];
      DepthConcat(a, b[..|b| - 1]);
    }
  }

  function Open(s: State): nat {
    (if s.inList then 1 else 0) + (if s.inFence then 1 else 0)
  }

  lemma DepthOne(t: Token)
    ensures Depth([t]) == TagDepth(t)
  {
    assert [t][..0] == [];
  }

  lemma EmitDepth(s: State, l: Line)
    ensures Depth(Emit(s, l)) == Open(Next(s, l)) - Open(s) - if IsOrphan(s, l) then 1 else 0
  {
    if l.Kept? {
      DepthConcat(Opening(s, l) + [Content(s, l)], Closing(s, l));
      DepthConcat(Opening(s, l), [Content(s, l)]);
      DepthConcat(if s.inList && !l.list then [CloseUl] else [],
                  if (!s.inFence && l.fence) || (!s.inList && l.list) then [OpenUl] else []);
      DepthOne(OpenUl);
      DepthOne(CloseUl);
      DepthOne(Content(s, l));
    }
  }

  /** After every line the open elements are the list and the fence one is in, less one for every
      line that was item and fence at once outside both. */
  lemma {:induction false} DepthLaw(lines: seq<string>, read: Reader)
    ensures Depth(Emitted(lines, read)) == Open(After(lines, read)) - Orphans(lines, read)
  {
    hide Emit, Next;
    if lines != [] {
      var init, last := lines[..|lines| - 1], lines[|lines| - 1];
      DepthLaw(init, read);
      var s := After(init, read);
      EmitDepth(s, read(last, s.inFence));
      DepthConcat(Emitted(init, read), Emit(s, read(last, s.inFence)));
    }
  }

  /** As many elements are closed as opened exactly when the number of those lines is 1 if the input
      ends on a list line inside an unclosed fence, and 0 otherwise. */
  lemma TagCount(lines: seq<string>, read: Reader)
    ensures var s := After(lines, read);
            Depth(Converted(lines, read)) == 0 <==> Orphans(lines, read) == if s.inFence && s.inList then 1 else 0
  {
    hide Emitted, After, Orphans;
    var s := After(lines, read);
    DepthLaw(lines, read);
    DepthConcat(Emitted(lines, read), if s.inFence || s.inList then [CloseUl] else []);
    DepthOne(CloseUl);
  }

  lemma NeverNegativeConcat(a: seq<Token>, b: seq<Token>)
    ensures NeverNegative(a + b)
            <==> NeverNegative(a) && forall k :: 0 <= k <= |b| ==> Depth(a) + Depth(b[..k]) >= 0
  {
    forall k | 0 <= k <= |b| ensures Depth((a + b)[..|a| + k]) == Depth(a) + Depth(b[..k]) {
      assert (a + b)[..|a| + k] == a + b[..k];
      DepthConcat(a, b[..k]);
    }
    forall k | 0 <= k <= |a| ensures (a + b)[..k] == a[..k] {
    }
    if NeverNegative(a + b) {
      forall k | 0 <= k <= |b| ensures Depth(a) + Depth(b[..k]) >= 0 {
        assert Depth((a + b)[..|a| + k]) >= 0;
      }
      forall k | 0 <= k <= |a| ensures Depth(a[..k]) >= 0 {
        assert Depth((a + b)[..k]) >= 0;
      }
    }
    if NeverNegative(a) && forall k :: 0 <= k <= |b| ==> Depth(a) + Depth(b[..k]) >= 0 {
      forall k | 0 <= k <= |a + b| ensures Depth((a + b)[..k]) >= 0 {
        if k > |a| {
          assert Depth((a + b)[..|a| + (k - |a|)]) == Depth(a) + Depth(b[..k - |a|]);
        }
      }
    }
  }

  /** A fence line straight from a list outside a fence closes the list before it opens the fence. */
  predicate Switches(s: State, l: Line) {
    s.inList && !s.inFence && l.Kept? && l.fence && !l.list
  }

  /** Within the tokens of a line the depth goes below both ends only at such a line. */
  lemma EmitPrefixes(s: State, l: Line, k: nat)
    requires k <= |Emit(s, l)|
    ensures Depth(Emit(s, l)[..k]) >= Min(0, Depth(Emit(s, l))) - if Switches(s, l) then 1 else 0
    ensures Switches(s, l) ==> |Emit(s, l)| >= 1 && Depth(Emit(s, l)[..1]) == -1 && Depth(Emit(s, l)) == 0
  {
    var e := Emit(s, l);
    if l.Kept? {
      assert e[..|e|] == e;
      PrefixDepths(e, k);
      PrefixDepths(e, |e|);
      if Switches(s, l) {
        PrefixDepths(e, 1);
      }
    }
  }

  function Min(a: int, b: int): int {
    if a <= b then a else b
  }

  /** The depth of a short list of tokens. */
  lemma {:induction false} PrefixDepths(e: seq<Token>, k: nat)
    requires k <= |e|
    ensures Depth(e[..k]) == (if k > 0 then TagDepth(e[0]) else 0) + (if k > 1 then TagDepth(e[1]) else 0)
                           + (if k > 2 then TagDepth(e[2]) else 0) + (if k > 3 then Depth(e[3..k]) else 0)
  {
    if k > 3 {
      assert e[..k] == e[..3] + e[3..k];
      DepthConcat(e[..3], e[3..k]);
      PrefixDepths(e, 3);
    } else if k > 0 {
      assert e[..k][..k - 1] == e[..k - 1];
      PrefixDepths(e, k - 1);
    }
  }

  /** One line keeps the depth from falling below 0 exactly when the depth after it is not below 0
      and it does not switch at depth 0. */
  lemma LineNeverNegative(a: seq<Token>, s: State, l: Line)
    requires NeverNegative(a)
    ensures NeverNegative(a + Emit(s, l))
            <==> Depth(a) + Depth(Emit(s, l)) >= 0 && (Switches(s, l) ==> Depth(a) > 0)
  {
    hide Emit, Switches, NeverNegative;
    var e := Emit(s, l);
    assert Depth(a) >= 0 by {
      WholeNeverNegative(a);
    }
    NeverNegativeConcat(a, e);
    forall k | 0 <= k <= |e|
      ensures Depth(e[..k]) >= Min(0, Depth(e)) - if Switches(s, l) then 1 else 0
    {
      EmitPrefixes(s, l, k);
    }
    EmitPrefixes(s, l, 0);
    assert e[..|e|] == e;
    if NeverNegative(a + e) {
      assert Depth(a) + Depth(e[..|e|]) >= 0;
      if Switches(s, l) {
        assert Depth(a) + Depth(e[..1]) >= 0;
      }
    }
  }

  lemma WholeNeverNegative(a: seq<Token>)
    requires NeverNegative(a)
    ensures Depth(a) >= 0
  {
    assert a[..|a|] == a;
  }

  /** The state before line `k` and the line as it is read there. */
  function StateAt(lines: seq<string>, read: Reader, k: nat): State
    requires k <= |lines|
  {
    After(lines[..k], read)
  }

  function LineAt(lines: seq<string>, read: Reader, k: nat): Line
    requires k < |lines|
  {
    read(lines[k], StateAt(lines, read, k).inFence)
  }

  function OrphansAt(lines: seq<string>, read: Reader, k: nat): nat
    requires k <= |lines|
  {
    Orphans(lines[..k], read)
  }

  /** Wherever one stands, enough elements are open for what is closed next. */
  ghost predicate Covered(lines: seq<string>, read: Reader) {
    && (forall k :: 0 <= k <= |lines| ==> OrphansAt(lines, read, k) <= Open(StateAt(lines, read, k)))
    && (forall k :: 0 <= k < |lines| && Switches(StateAt(lines, read, k), LineAt(lines, read, k)) ==>
                      OrphansAt(lines, read, k) == 0)
  }

  lemma CoveredStep(lines: seq<string>, read: Reader)
    requires lines != []
    ensures var init := lines[..|lines| - 1];
            Covered(lines, read) <==>
              && Covered(init, read)
              && Orphans(lines, read) <= Open(After(lines, read))
              && (Switches(After(init, read), read(lines[|lines| - 1], After(init, read).inFence)) ==>
                    Orphans(init, read) == 0)
  {
    hide After, Orphans, Open, Switches;
    var init := lines[..|lines| - 1];
    assert lines[..|lines|] == lines && init[..|init|] == init;
    forall k | 0 <= k <= |init| ensures lines[..k] == init[..k] {
    }
    forall k | 0 <= k <= |init|
      ensures StateAt(lines, read, k) == StateAt(init, read, k) && OrphansAt(lines, read, k) == OrphansAt(init, read, k)
    {
    }
    if Covered(lines, read) {
      assert OrphansAt(lines, read, |lines|) <= Open(StateAt(lines, read, |lines|));
      assert LineAt(lines, read, |init|) == read(lines[|init|], After(init, read).inFence);
      forall k | 0 <= k < |init| && Switches(StateAt(init, read, k), LineAt(init, read, k))
        ensures OrphansAt(init, read, k) == 0
      {
        assert LineAt(lines, read, k) == LineAt(init, read, k);
      }
    }
    if Covered(init, read) {
      forall k | 0 <= k < |init| ensures LineAt(lines, read, k) == LineAt(init, read, k) {
      }
    }
  }

  lemma {:induction false} NeverNegativeIff(lines: seq<string>, read: Reader)
    ensures NeverNegative(Emitted(lines, read)) <==> Covered(lines, read)
  {
    hide Emit, Next, Switches, NeverNegative, Covered;
    if lines == [] {
      NothingEmitted(lines, read);
    } else {
      var init, last := lines[..|lines| - 1], lines[|lines| - 1];
      var s := After(init, read);
      var l := read(last, s.inFence);
      NeverNegativeIff(init, read);
      CoveredStep(lines, read);
      DepthLaw(init, read);
      DepthLaw(lines, read);
      DepthConcat(Emitted(init, read), Emit(s, l));
      if NeverNegative(Emitted(init, read)) {
        LineNeverNegative(Emitted(init, read), s, l);
        SwitchOpen(s, l);
      } else {
        NeverNegativeConcat(Emitted(init, read), Emit(s, l));
      }
    }
  }

  lemma SwitchOpen(s: State, l: Line)
    ensures Switches(s, l) ==> Open(s) == 1
  {
  }

  lemma NothingEmitted(lines: seq<string>, read: Reader)
    requires lines == []
    ensures NeverNegative(Emitted(lines, read)) && Covered(lines, read)
  {
    assert Emitted(lines, read)[..0] == [] && lines[..0] == [];
  }

  /** After the line that was item and fence at once outside both, one is never outside both again,
      and never goes straight from a list outside a fence to a fence line. */
  ghost predicate StaysInside(lines: seq<string>, read: Reader) {
    && (forall k :: 0 <= k <= |lines| && OrphansAt(lines, read, k) > 0 ==> StateAt(lines, read, k) != START)
    && (forall k :: 0 <= k < |lines| && OrphansAt(lines, read, k) > 0 ==>
                      !Switches(StateAt(lines, read, k), LineAt(lines, read, k)))
  }

  lemma {:induction false} OrphansGrow(lines: seq<string>, read: Reader, k: nat)
    requires k <= |lines|
    ensures OrphansAt(lines, read, k) <= Orphans(lines, read)
  {
    if k == |lines| {
      assert lines[..k] == lines;
    } else {
      var init := lines[..|lines| - 1];
      assert init[..k] == lines[..k];
      OrphansGrow(init, read, k);
    }
  }

  /** With at most one such line, being covered is staying inside. */
  lemma CoveredMeans(lines: seq<string>, read: Reader)
    ensures Orphans(lines, read) == 0 ==> Covered(lines, read)
    ensures Orphans(lines, read) == 1 ==> (Covered(lines, read) <==> StaysInside(lines, read))
  {
    hide Orphans, After, Switches, OrphansAt, StateAt, LineAt;
    forall k | 0 <= k <= |lines| ensures OrphansAt(lines, read, k) <= Orphans(lines, read) {
      OrphansGrow(lines, read, k);
    }
  }

  /**
   * The output is balanced, that is, it closes nothing that is not open and leaves nothing open,
   * exactly in two cases: no line was item and fence at once outside both and the input does not end
   * inside both; or there was exactly one such line, the input ends inside both and one stays inside.
   */
  lemma BalancedIff(lines: seq<string>, read: Reader)
    ensures var s, orphans := After(lines, read), Orphans(lines, read);
            NeverNegative(Converted(lines, read)) && Depth(Converted(lines, read)) == 0 <==>
              || (orphans == 0 && !(s.inFence && s.inList))
              || (orphans == 1 && s.inFence && s.inList && StaysInside(lines, read))
  {
    hide Emitted, After, Orphans, NeverNegative, Covered, StaysInside;
    var s := After(lines, read);
    TagCount(lines, read);
    NeverNegativeIff(lines, read);
    CoveredMeans(lines, read);
    EndNeverNegative(Emitted(lines, read), s);
    DepthLaw(lines, read);
  }

  lemma EndNeverNegative(a: seq<Token>, s: State)
    ensures var end := if s.inFence || s.inList then [CloseUl] else [];
            NeverNegative(a + end) <==> NeverNegative(a) && Depth(a) + Depth(end) >= 0
  {
    hide NeverNegative;
    var end := if s.inFence || s.inList then [CloseUl] else [];
    NeverNegativeConcat(a, end);
    DepthOne(CloseUl);
    assert end[..0] == [] && end[..|end|] == end;
    if NeverNegative(a) {
      WholeNeverNegative(a);
    }
  }

  lemma {:induction false} NoOrphans(lines: seq<string>, read: Reader)
    requires forall i, f: bool :: 0 <= i < |lines| ==> !Both(read(lines[i], f))
    ensures Orphans(lines, read) == 0
  {
    if lines != [] {
      var init, last := lines[..|lines| - 1], lines[|lines| - 1];
      NoOrphans(init, read);
      assert !Both(read(last, After(init, read).inFence));
    }
  }

  /** Without such lines no prefix of the output closes more than it opened, and the output is
      balanced exactly when the input does not end on a list line inside an unclosed fence. */
  lemma WellNested(lines: seq<string>, read: Reader)
    requires forall i, f: bool :: 0 <= i < |lines| ==> !Both(read(lines[i], f))
    ensures NeverNegative(Converted(lines, read))
    ensures var s := After(lines, read); Depth(Converted(lines, read)) == 0 <==> !(s.inFence && s.inList)
  {
    hide Emitted, After, Orphans, NeverNegative, Covered;
    NoOrphans(lines, read);
    TagCount(lines, read);
    NeverNegativeIff(lines, read);
    CoveredMeans(lines, read);
    EndNeverNegative(Emitted(lines, read), After(lines, read));
    DepthLaw(lines, read);
    DepthConcat(Emitted(lines, read), if After(lines, read).inFence || After(lines, read).inList then [CloseUl] else []);
    DepthOne(CloseUl);
  }

  // ---- Lines that break it ----

  const FENCE := "```"

  /** The tests of the source on a line without links, inline code and characters to escape. */
  const READER: Reader := (line: string, inFence: bool) =>
    var text := if inFence then line else Words.Strip(line);
    if text == "" then Dropped else Kept(Words.After(text, FENCE).Some?, "-" <= text, text)

  const ITEM_AND_FENCE := "- ```"

  const PLAIN := "plain"

  const OTHER_ITEM := "- x"

  lemma Readable(text: string, inFence: bool)
    requires Words.Trimmed(text)
    ensures READER(text, inFence) == Kept(Words.After(text, FENCE).Some?, "-" <= text, text)
  {
    Words.StripTrimmed(text);
  }

  lemma FencesFound()
    ensures Words.After(ITEM_AND_FENCE, FENCE).Some? && Words.After(FENCE, FENCE).Some?
    ensures Words.After(PLAIN, FENCE).None? && Words.After(OTHER_ITEM, FENCE).None?
  {
    assert FENCE[0] == '`';
    Words.AfterAbsent(PLAIN, FENCE);
    Words.AfterAbsent(OTHER_ITEM, FENCE);
    assert FENCE <= FENCE;
    assert ITEM_AND_FENCE == "- " + FENCE + "";
    Words.NoneByChar(ITEM_AND_FENCE, FENCE, 2);
    Words.AfterFirst("- ", FENCE, "");
  }

  lemma ReadLines(inFence: bool)
    ensures READER(ITEM_AND_FENCE, inFence) == Kept(true, true, ITEM_AND_FENCE)
    ensures READER(PLAIN, inFence) == Kept(false, false, PLAIN)
    ensures READER(FENCE, inFence) == Kept(true, false, FENCE)
    ensures READER(OTHER_ITEM, inFence) == Kept(false, true, OTHER_ITEM)
  {
    hide READER, Words.After;
    FencesFound();
    Readable(ITEM_AND_FENCE, inFence);
    Readable(PLAIN, inFence);
    Readable(FENCE, inFence);
    Readable(OTHER_ITEM, inFence);
    assert ITEM_AND_FENCE[0] == '-' == OTHER_ITEM[0] && PLAIN[0] == 'p' && FENCE[0] == '`';
  }

  lemma LineAdded(init: seq<string>, line: string, read: Reader)
    ensures var s := After(init, read);
            && After(init + [line], read) == Next(s, read(line, s.inFence))
            && Orphans(init + [line], read)
               == Orphans(init, read) + if IsOrphan(s, read(line, s.inFence)) then 1 else 0
  {
    assert (init + [line])[..|init|] == init;
  }

  const BREAKING := [ITEM_AND_FENCE] + [PLAIN]

  lemma AfterBreaking()
    ensures After(BREAKING, READER) == State(true, false) && Orphans(BREAKING, READER) == 1
  {
    hide READER;
    LineAdded([], ITEM_AND_FENCE, READER);
    LineAdded([ITEM_AND_FENCE], PLAIN, READER);
    assert [] + [ITEM_AND_FENCE] == [ITEM_AND_FENCE];
    ReadLines(false);
    ReadLines(true);
  }

  /** Why lines like this have to be excluded: followed by a plain line it closes an element too many. */
  lemma OrphanUnbalances()
    ensures Depth(Converted(BREAKING, READER)) == -1 && !NeverNegative(Converted(BREAKING, READER))
  {
    hide READER, Emitted, After, Orphans, NeverNegative;
    AfterBreaking();
    DepthLaw(BREAKING, READER);
    DepthConcat(Emitted(BREAKING, READER), [CloseUl]);
    DepthOne(CloseUl);
    if NeverNegative(Converted(BREAKING, READER)) {
      WholeNeverNegative(Converted(BREAKING, READER));
    }
  }

  /** The other way to be unbalanced: an input that ends on an item inside a fence leaves one open. */
  lemma UnclosedFenceUnbalances()
    ensures Depth(Converted([FENCE] + [OTHER_ITEM], READER)) == 1
  {
    hide READER, Emitted, After, Orphans;
    var lines := [FENCE] + [OTHER_ITEM];
    LineAdded([], FENCE, READER);
    LineAdded([FENCE], OTHER_ITEM, READER);
    assert [] + [FENCE] == [FENCE];
    ReadLines(false);
    ReadLines(true);
    NothingRead();
    assert After(lines, READER) == State(true, true) && Orphans(lines, READER) == 0;
    DepthLaw(lines, READER);
    DepthConcat(Emitted(lines, READER), [CloseUl]);
    DepthOne(CloseUl);
  }

  lemma NothingRead()
    ensures After([], READER) == START && Orphans([], READER) == 0
  {
  }

  /** As many elements closed as opened, and still one closed that was not open. */
  lemma CountsAreNotEnough()
    ensures var lines := BREAKING + [FENCE] + [FENCE] + [OTHER_ITEM];
            Depth(Converted(lines, READER)) == 0 && !NeverNegative(Converted(lines, READER))
  {
    hide READER, Emitted, After, Orphans, NeverNegative, Converted;
    var third, fourth := BREAKING + [FENCE], BREAKING + [FENCE] + [FENCE];
    var lines := fourth + [OTHER_ITEM];
    ReadLines(false);
    ReadLines(true);
    AfterBreaking();
    LineAdded(BREAKING, FENCE, READER);
    LineAdded(third, FENCE, READER);
    LineAdded(fourth, OTHER_ITEM, READER);
    TagCount(lines, READER);
    BalancedIff(lines, READER);
    assert lines[..3] == third;
    assert OrphansAt(lines, READER, 3) == 1 && StateAt(lines, READER, 3) == START;
  }

  /** The body of the loop for a line that is kept. */
  method EmitLine(s: State, line: Line) returns (out: seq<Token>, inFence: bool, inList: bool)
    requires line.Kept?
    ensures out == Emit(s, line) && State(inFence, inList) == Next(s, line)
  {
    inFence, inList := s.inFence, s.inList;
    out := [];
    if inList && !line.list {
      out := out + [CloseUl];
    }
    if (!inFence && line.fence) || (!inList && line.list) {
      out := out + [OpenUl];
    }
    inList := line.list;
    inFence := line.fence != inFence;
    if line.list {
      out := out + [Item(line.text)];
    } else if inFence || line.fence {
      out := out + [CodeItem(line.text)];
    } else {
      out := out + [Para(line.text)];
    }
    if !inFence && line.fence {
      out := out + [CloseUl];
    }
  }

  /** `convert_body` */
  method ConvertBody(lines: seq<string>, read: Reader) returns (out: seq<Token>)
    ensures out == Converted(lines, read)
  {
    hide Emit, Next;
    out := [];
    var inFence, inList := false, false;
    for k := 0 to |lines|
      invariant State(inFence, inList) == After(lines[..k], read)
      invariant out == Emitted(lines[..k], read)
    {
      assert lines[..k + 1][..k] == lines[..k];
      var s := State(inFence, inList);
      var line := read(lines[k], inFence);
      if line.Dropped? {
        DroppedEmitsNothing(s);
        assert out + [] == out;
      } else {
        var tokens;
        tokens, inFence, inList := EmitLine(s, line);
        out := out + tokens;
      }
    }
    assert lines[..|lines|] == lines;
    if inFence || inList {
      out := out + [CloseUl];
    }
  }

  lemma DroppedEmitsNothing(s: State)
    ensures Emit(s, Dropped) == [] && Next(s, Dropped) == s
  {
  }
}
