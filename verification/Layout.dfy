/** The wire format, bit by bit: where each value stands in an encoded vector, restriction, segment
    and string. Offsets and widths are written out here and not taken from the codec's tables. */
module Layout {
  import opened Wrappers
  import opened Bits
  import opened Vector
  import opened Fields
  import opened Segments
  import opened Text
  import VendorVector
  import VectorLength
  import Restrictions
  import Base64Url
  import TcString

  // ---- Bits of a number ----

  lemma DivUnique(n: nat, d: nat, q: nat, r: nat)
    requires n == q * d + r && r < d
    ensures n / d == q
  {
    Scaled(n / d + 1, q, d);
    Scaled(q + 1, n / d, d);
    assert n == n / d * d + n % d;
  }

  lemma Scaled(a: nat, b: nat, d: nat)
    ensures a <= b ==> a * d <= b * d
  {
  }

  lemma HalveFirst(n: nat, m: nat)
    requires m > 0
    ensures n / (2 * m) == n / 2 / m
  {
    var q, r := n / 2 / m, n / 2 % m;
    assert n == q * (2 * m) + (2 * r + n % 2);
    DivUnique(n, 2 * m, q, 2 * r + n % 2);
  }

  /** The most significant bit comes first. */
  lemma {:induction false} BitAt(b: Bits, i: nat)
    requires i < |b|
    ensures b[i] <==> ToNat(b) / Pow2(|b| - 1 - i) % 2 == 1
  {
    var init := b[..|b| - 1];
    if i < |b| - 1 {
      var k := |b| - 1 - i;
      BitAt(init, i);
      HalveFirst(ToNat(b), Pow2(k - 1));
      assert ToNat(b) / 2 == ToNat(init);
    }
  }

  /** An encoded integer, bit by bit. */
  lemma IntLayout(n: int, width: nat, i: nat)
    requires IntEncode(n, width).Ok? && i < width
    ensures n >= 0 && |IntEncode(n, width).value| == width
    ensures IntEncode(n, width).value[i] <==> n / Pow2(width - 1 - i) % 2 == 1
  {
    IntRoundTrip(n, width);
    BitAt(IntEncode(n, width).value, i);
  }

  // ---- Characters ----

  const UPPER_CASE := "ABCDEFGHIJKLMNOPQRSTUVWXYZ"

  const LOWER_CASE := "abcdefghijklmnopqrstuvwxyz"

  const DIGITS := "0123456789"

  const ALPHABET := UPPER_CASE + LOWER_CASE + DIGITS + "-_"

  lemma UpperIs(v: nat)
    requires v < 26
    ensures |UPPER_CASE| == 26 && UPPER_CASE[v] == ('A' as nat + v) as char
  {
  }

  lemma LowerIs(v: nat)
    requires v < 26
    ensures |LOWER_CASE| == 26 && LOWER_CASE[v] == ('a' as nat + v) as char
  {
  }

  /** The character of a value is the one at that place of the alphabet. */
  lemma DictIs(v: nat)
    requires v < 64
    ensures |ALPHABET| == 64 && Base64Url.Dict(v) == ALPHABET[v]
  {
    UpperIs(if v < 26 then v else 0);
    LowerIs(if 26 <= v < 52 then v - 26 else 0);
    var tail := DIGITS + "-_";
    assert ALPHABET == UPPER_CASE + LOWER_CASE + tail;
    assert v >= 52 ==> ALPHABET[v] == tail[v - 52];
  }

  lemma {:induction false} CharAt(b: Bits, i: nat)
    requires |b| % 6 == 0 && 6 * i < |b|
    ensures i < |Base64Url.Chars(b)| && 6 * i + 6 <= |b|
    ensures ToNat(b[6 * i..6 * i + 6]) < 64 && Base64Url.Chars(b)[i] == Base64Url.Dict(ToNat(b[6 * i..6 * i + 6]))
  {
    hide Base64Url.Dict, ToNat;
    ToNatBound(b[..6]);
    Pow2Values();
    if i > 0 {
      CharAt(b[6..], i - 1);
      assert b[6..][6 * (i - 1)..6 * (i - 1) + 6] == b[6 * i..6 * i + 6];
    } else {
      assert b[0..6] == b[..6];
    }
  }

  /** Encoded text: four characters for every 24 bits that are begun, each character the value of its
      six bits, with zeros behind the last bit. */
  lemma TextLayout(b: Bits, i: nat)
    requires b != [] && i < 4 * ((|b| + 23) / 24)
    ensures Base64Url.Encode(b).Ok? && |Base64Url.Encode(b).value| == 4 * ((|b| + 23) / 24)
    ensures var padded := b + seq(24, _ => false);
            6 * i + 6 <= |padded| && ToNat(padded[6 * i..6 * i + 6]) < 64
            && Base64Url.Encode(b).value[i] == ALPHABET[ToNat(padded[6 * i..6 * i + 6])]
  {
    hide Base64Url.Chars, Base64Url.Dict, ToNat;
    var pad, padded := Base64Url.Pad(b), b + seq(24, _ => false);
    assert |pad| == 24 * ((|b| + 23) / 24);
    CharAt(pad, i);
    assert padded[6 * i..6 * i + 6] == pad[6 * i..6 * i + 6];
    DictIs(ToNat(pad[6 * i..6 * i + 6]));
  }

  // ---- Vendor vectors ----

  /** The value of a stretch of bits. */
  predicate Holds(b: Bits, from: nat, to: nat, n: int) {
    from <= to <= |b| && ToNat(b[from..to]) == n
  }

  /** A run of consecutive ids that cannot be made longer. */
  predicate MaximalRun(ids: set<nat>, r: VendorVector.Range) {
    && 1 <= r.start <= r.end && r.start - 1 !in ids && r.end + 1 !in ids
    && forall x :: r.start <= x <= r.end ==> x in ids
  }

  lemma RunsApart(ids: set<nat>, r: VendorVector.Range, q: VendorVector.Range)
    requires MaximalRun(ids, r) && MaximalRun(ids, q) && r.end < q.end
    ensures r.end + 1 < q.start
  {
    assert r.end + 1 !in ids && r.end in ids;
    assert q.start <= r.end + 1 <= q.end ==> r.end + 1 in ids;
  }

  ghost predicate MaximalRuns(ids: set<nat>, rs: seq<VendorVector.Range>) {
    && (forall i :: 0 <= i < |rs| ==> MaximalRun(ids, rs[i]))
    && (forall i, j :: 0 <= i < j < |rs| ==> rs[i].end + 1 < rs[j].start)
  }

  lemma RunsExtended(ids: set<nat>, rs: seq<VendorVector.Range>, last: VendorVector.Range)
    requires MaximalRuns(ids, rs) && MaximalRun(ids, last)
    requires forall i :: 0 <= i < |rs| ==> rs[i].end < last.end
    ensures MaximalRuns(ids, rs + [last])
  {
    hide MaximalRun;
    forall i | 0 <= i < |rs| ensures rs[i].end + 1 < last.start {
      RunsApart(ids, rs[i], last);
    }
  }

  /** The runs of a vector are maximal, in ascending order, with a gap between any two. */
  lemma {:induction false} RunsAreMaximal(ids: set<nat>, n: nat)
    requires 0 !in ids
    ensures MaximalRuns(ids, VendorVector.Runs(ids, n))
  {
    hide MaximalRuns, MaximalRun;
    if n == 0 {
      NoRuns(ids);
    } else {
      RunsAreMaximal(ids, n - 1);
      if n in ids && n + 1 !in ids {
        LastRun(ids, n);
        RunsExtended(ids, VendorVector.Runs(ids, n - 1), VendorVector.Range(VendorVector.RunStart(ids, n), n));
      }
    }
  }

  lemma NoRuns(ids: set<nat>)
    ensures MaximalRuns(ids, [])
  {
  }

  lemma LastRun(ids: set<nat>, n: nat)
    requires 0 !in ids && n in ids && n + 1 !in ids
    ensures MaximalRun(ids, VendorVector.Range(VendorVector.RunStart(ids, n), n))
  {
  }

  /** A stretch of bits that says which ids from 1 on are there. */
  predicate IdsAt(b: Bits, from: nat, to: nat, ids: set<nat>) {
    from <= to <= |b| && forall x: nat :: 1 <= x <= to - from ==> (b[from + x - 1] <==> x in ids)
  }

  lemma FieldBitsAt(b: Bits, from: nat, to: nat, ids: set<nat>)
    requires from <= to <= |b| && b[from..to] == VendorVector.FieldBits(ids, to - from)
    ensures IdsAt(b, from, to, ids)
  {
    forall x: nat | 1 <= x <= to - from ensures b[from + x - 1] <==> x in ids {
      assert b[from + x - 1] == b[from..to][x - 1];
    }
  }

  /** A vector in field form: 16 bits for the maximum, a 0, and a bit for each id from 1 on. */
  lemma FieldLayout(ids: set<nat>)
    requires 0 !in ids && VendorVector.Encode(ids).Ok? && !VendorVector.UseRange(ids)
    ensures var b := VendorVector.Encode(ids).value;
            && Holds(b, 0, 16, MaxId(ids)) && |b| == 17 + MaxId(ids) && !b[16]
            && IdsAt(b, 17, |b|, ids)
  {
    hide IntEncode, ToNat, VendorVector.UseRange, IdsAt;
    var m, b := MaxId(ids), VendorVector.Encode(ids).value;
    var head, field := IntEncode(m, 16).value, VendorVector.FieldBits(ids, m);
    IntRoundTrip(m, 16);
    assert b == head + [false] + field;
    FieldPieces(head, field);
    FieldBitsAt(b, 17, |b|, ids);
  }

  lemma FieldPieces(head: Bits, field: Bits)
    requires |head| == 16
    ensures var b := head + [false] + field; b[0..16] == head && !b[16] && b[17..|b|] == field
  {
  }

  /** A vector in range form: 16 bits for the maximum, a 1, 12 bits for the number of runs, the runs. */
  lemma RangeLayout(ids: set<nat>)
    requires 0 !in ids && VendorVector.Encode(ids).Ok? && VendorVector.UseRange(ids)
    ensures var b, rs := VendorVector.Encode(ids).value, VendorVector.Runs(ids, MaxId(ids));
            && Holds(b, 0, 16, MaxId(ids)) && |b| >= 29 && b[16] && Holds(b, 17, 29, |rs|)
            && VendorVector.EncodeEntries(rs) == Ok(b[29..])
  {
    hide IntEncode, ToNat, VendorVector.UseRange, VendorVector.Runs, VendorVector.EncodeEntries;
    var m, b := MaxId(ids), VendorVector.Encode(ids).value;
    var rs := VendorVector.Runs(ids, m);
    var head, count := IntEncode(m, 16).value, IntEncode(|rs|, 12).value;
    IntRoundTrip(m, 16);
    IntRoundTrip(|rs|, 12);
    var entries := VendorVector.EncodeEntries(rs).value;
    assert b == head + [true] + (count + entries);
    RangePieces(head, count, entries);
  }

  lemma RangePieces(head: Bits, count: Bits, entries: Bits)
    requires |head| == 16 && |count| == 12
    ensures var b := head + [true] + (count + entries);
            b[0..16] == head && b[16] && b[17..29] == count && b[29..] == entries
  {
  }

  /** A range entry: a 0 and 16 bits for a single id; a 1 and 16 bits for each end of a longer run. */
  lemma EntryLayout(r: VendorVector.Range)
    requires VendorVector.EncodeEntry(r).Ok?
    ensures var b := VendorVector.EncodeEntry(r).value;
            && |b| == (if r.start == r.end then 17 else 33)
            && (b[0] <==> r.start != r.end)
            && Holds(b, 1, 17, r.start)
            && (r.start != r.end ==> Holds(b, 17, 33, r.end))
  {
    hide IntEncode, ToNat;
    var b := VendorVector.EncodeEntry(r).value;
    IntRoundTrip(r.start, 16);
    var first := IntEncode(r.start, 16).value;
    if r.start == r.end {
      assert b == [false] + first && b[1..17] == first;
    } else {
      IntRoundTrip(r.end, 16);
      var last := IntEncode(r.end, 16).value;
      assert b == [true] + first + last && b[1..17] == first && b[17..33] == last;
    }
  }

  /** Entries stand one behind the other, in order. */
  lemma EntriesLayout(rs: seq<VendorVector.Range>, r: VendorVector.Range)
    requires VendorVector.EncodeEntries(rs + [r]).Ok?
    ensures VendorVector.EncodeEntries([]) == Ok([])
    ensures VendorVector.EncodeEntries(rs).Ok? && VendorVector.EncodeEntry(r).Ok?
    ensures VendorVector.EncodeEntries(rs + [r]).value
         == VendorVector.EncodeEntries(rs).value + VendorVector.EncodeEntry(r).value
  {
    VectorLength.EntriesAppend(rs, r);
  }

  // ---- Restrictions ----

  /** A restriction: 6 bits for the purpose, 2 for the type, 12 for the number of ranges, the ranges. */
  lemma RestrictionLayout(e: Restrictions.Entry, listed: set<nat>)
    requires e.key.IsValid() && 0 !in e.vendors && Restrictions.EncodeOne(e, listed).Ok?
    ensures var b, rs := Restrictions.EncodeOne(e, listed).value, Restrictions.RangesOf(e, listed);
            && Holds(b, 0, 6, e.key.purposeId) && Holds(b, 6, 8, e.key.restrictionType) && Holds(b, 8, 20, |rs|)
            && VendorVector.EncodeEntries(rs) == Ok(b[20..])
  {
    hide IntEncode, ToNat, Restrictions.Spans, Restrictions.Openings, VendorVector.EncodeEntries;
    var b, rs := Restrictions.EncodeOne(e, listed).value, Restrictions.RangesOf(e, listed);
    Restrictions.OpeningsEmitted(Restrictions.Sorted(e.vendors), listed, 0, 0);
    IntRoundTrip(e.key.purposeId, 6);
    IntRoundTrip(e.key.restrictionType, 2);
    IntRoundTrip(|rs|, 12);
    var purpose, kind, count := IntEncode(e.key.purposeId, 6).value, IntEncode(e.key.restrictionType, 2).value, IntEncode(|rs|, 12).value;
    assert b == purpose + kind + count + VendorVector.EncodeEntries(rs).value;
    assert b[0..6] == purpose && b[6..8] == kind && b[8..20] == count;
  }

  /** All restrictions: 12 bits for their number, then each in order. */
  lemma RestrictionsLayout(es: seq<Restrictions.Entry>, listed: set<nat>)
    requires Restrictions.Encode(es, listed).Ok?
    ensures var b := Restrictions.Encode(es, listed).value;
            && Holds(b, 0, 12, |es|)
            && Restrictions.EncodeAll(es, listed) == Ok(b[12..])
            && (es == [] ==> b[12..] == [])
            && (es != [] ==> var first := Restrictions.EncodeOne(es[0], listed);
                             first.Ok? && Restrictions.EncodeAll(es[1..], listed).Ok?
                             && b[12..] == first.value + Restrictions.EncodeAll(es[1..], listed).value)
  {
    hide IntEncode, ToNat, Restrictions.EncodeOne;
    var b := Restrictions.Encode(es, listed).value;
    IntRoundTrip(|es|, 12);
    var count := IntEncode(|es|, 12).value;
    assert b == count + Restrictions.EncodeAll(es, listed).value;
    assert b[0..12] == count && b[12..] == Restrictions.EncodeAll(es, listed).value;
  }

  // ---- The core segment ----

  /** Where the fields of the core segment begin, up to the vendor vectors. */
  function CoreOffset(k: nat): nat
    requires k <= 16
  {
    [0, 6, 42, 78, 90, 102, 108, 120, 132, 138, 139, 140, 152, 176, 200, 201, 213][k]
  }

  function CoreBits(m: Model, listed: set<nat>): Bits
    requires WellTyped(m) && SegmentBits(Core, m, listed).Ok?
  {
    SegmentBits(Core, m, listed).value
  }

  lemma FieldsSplit(fs: seq<Field>, m: Model, listed: set<nat>)
    requires WellTyped(m) && fs != [] && EncodeFields(fs, m, listed).Ok?
    ensures EncodeValue(fs[0], m[fs[0]], WidthOf(m, fs[0]), listed).Ok? && EncodeFields(fs[1..], m, listed).Ok?
    ensures EncodeFields(fs, m, listed).value
         == EncodeValue(fs[0], m[fs[0]], WidthOf(m, fs[0]), listed).value + EncodeFields(fs[1..], m, listed).value
  {
  }

  lemma FieldLength(f: Field, m: Model, listed: set<nat>)
    requires WellTyped(m) && WidthOf(m, f).Some? && EncodeValue(f, m[f], WidthOf(m, f), listed).Ok?
    ensures |EncodeValue(f, m[f], WidthOf(m, f), listed).value| == WidthOf(m, f).value
  {
    FixedFieldRoundTrip(f, m[f], WidthOf(m, f).value, listed);
  }

  /** The `k`-th field of a list of fields stands where those before it end. */
  lemma FieldPlaced(b: Bits, fs: seq<Field>, from: nat, m: Model, listed: set<nat>)
    requires WellTyped(m) && fs != [] && WidthOf(m, fs[0]).Some? && from <= |b|
    requires EncodeFields(fs, m, listed) == Ok(b[from..])
    ensures var w := WidthOf(m, fs[0]).value;
            && from + w <= |b|
            && EncodeValue(fs[0], m[fs[0]], Some(w), listed) == Ok(b[from..from + w])
            && EncodeFields(fs[1..], m, listed) == Ok(b[from + w..])
  {
    hide EncodeFields, EncodeValue, WidthOf;
    var w := WidthOf(m, fs[0]).value;
    FieldsSplit(fs, m, listed);
    FieldLength(fs[0], m, listed);
    assert b[from..][..w] == b[from..from + w] && b[from..][w..] == b[from + w..];
  }

  lemma CoreWidth(m: Model, k: nat)
    requires HasCount(m) && k < 16
    ensures WidthOf(m, FieldSequence(Core)[k]) == Some(CoreOffset(k + 1) - CoreOffset(k))
  {
  }

  lemma {:induction false} CoreFrom(m: Model, listed: set<nat>, k: nat)
    requires WellTyped(m) && SegmentBits(Core, m, listed).Ok? && k <= 16
    ensures var b := CoreBits(m, listed);
            CoreOffset(k) <= |b| && EncodeFields(FieldSequence(Core)[k..], m, listed) == Ok(b[CoreOffset(k)..])
  {
    hide EncodeFields, WidthOf, FieldSequence, WellTyped;
    var b, fs := CoreBits(m, listed), FieldSequence(Core);
    CoreFieldCount();
    if k == 0 {
      assert fs[0..] == fs && b[0..] == b && CoreOffset(0) == 0;
    } else {
      CoreFrom(m, listed, k - 1);
      CoreWidth(m, k - 1);
      FieldPlaced(b, fs[k - 1..], CoreOffset(k - 1), m, listed);
      assert fs[k - 1..][1..] == fs[k..] && fs[k - 1..][0] == fs[k - 1];
    }
  }

  lemma CoreFieldCount()
    ensures |FieldSequence(Core)| == 19
  {
  }

  /** The bits of the `k`-th field of the core segment. */
  lemma CoreField(m: Model, listed: set<nat>, k: nat)
    requires WellTyped(m) && SegmentBits(Core, m, listed).Ok? && k < 16
    ensures CoreOffset(k) <= CoreOffset(k + 1) <= |CoreBits(m, listed)|
    ensures var f := FieldSequence(Core)[k];
            WidthOf(m, f) == Some(CoreOffset(k + 1) - CoreOffset(k))
            && EncodeValue(f, m[f], WidthOf(m, f), listed) == Ok(CoreBits(m, listed)[CoreOffset(k)..CoreOffset(k + 1)])
  {
    hide EncodeFields, WidthOf, FieldSequence, EncodeValue;
    CoreFrom(m, listed, k);
    CoreFieldCount();
    CoreWidth(m, k);
    FieldPlaced(CoreBits(m, listed), FieldSequence(Core)[k..], CoreOffset(k), m, listed);
  }

  /** A time in tenths of a second, rounded to the nearest, up from the middle. */
  predicate TimeAt(b: Bits, from: nat, to: nat, ms: int) {
    from <= to <= |b| && 100 * ToNat(b[from..to]) - 50 <= ms < 100 * ToNat(b[from..to]) + 50
  }

  function LetterIndex(c: char): int {
    if 'a' <= c then c as int - 'a' as int else c as int - 'A' as int
  }

  /** The first two letters of a code, in either case, six bits each. */
  predicate LettersAt(b: Bits, from: nat, s: string) {
    |s| >= 2 && Holds(b, from, from + 6, LetterIndex(s[0])) && Holds(b, from + 6, from + 12, LetterIndex(s[1]))
  }

  lemma NumEncoded(piece: Bits, n: int, width: nat)
    requires IntEncode(n, width) == Ok(piece)
    ensures ToNat(piece) == n
  {
    IntRoundTrip(n, width);
  }

  lemma LettersEncoded(b: Bits, from: nat, s: string)
    requires from + 12 <= |b| && LangEncode(s) == Ok(b[from..from + 12])
    ensures LettersAt(b, from, s)
  {
    hide IntEncode, ToNat;
    var first, second := Upper(s[0]) as int - 65, Upper(s[1]) as int - 65;
    IntRoundTrip(first, 6);
    IntRoundTrip(second, 6);
    var piece := b[from..from + 12];
    assert piece == IntEncode(first, 6).value + IntEncode(second, 6).value;
    assert b[from..from + 6] == piece[..6] && b[from + 6..from + 12] == piece[6..];
  }

  // A field of a model at a place.

  predicate NumField(b: Bits, from: nat, to: nat, m: Model, f: Field) {
    f in m && m[f].Num? && Holds(b, from, to, m[f].n)
  }

  predicate TimeField(b: Bits, from: nat, to: nat, m: Model, f: Field) {
    f in m && m[f].Time? && TimeAt(b, from, to, m[f].ms)
  }

  predicate CodeField(b: Bits, from: nat, m: Model, f: Field) {
    f in m && m[f].Code? && LettersAt(b, from, m[f].s)
  }

  predicate FlagField(b: Bits, at: nat, m: Model, f: Field) {
    f in m && m[f].Flag? && at < |b| && b[at] == m[f].b
  }

  predicate IdsField(b: Bits, from: nat, to: nat, m: Model, f: Field) {
    f in m && m[f].Ids? && IdsAt(b, from, to, m[f].ids)
  }

  /** The bits are exactly a vendor vector. */
  predicate VectorField(b: Bits, m: Model, f: Field) {
    f in m && m[f].Ids? && 0 !in m[f].ids && VendorVector.Encode(m[f].ids) == Ok(b)
  }

  /** The bits are exactly the restrictions. */
  predicate RestrictionsField(b: Bits, m: Model, f: Field, listed: set<nat>) {
    f in m && m[f].Restr? && Restrictions.Encode(m[f].entries, listed) == Ok(b)
  }

  lemma CoreNumber(m: Model, listed: set<nat>, k: nat, f: Field, from: nat, to: nat)
    requires WellTyped(m) && SegmentBits(Core, m, listed).Ok? && k < 16
    requires FieldSequence(Core)[k] == f && EncoderOf(f).IntEncoder? && from == CoreOffset(k) && to == CoreOffset(k + 1)
    ensures NumField(CoreBits(m, listed), from, to, m, f)
  {
    hide IntEncode, ToNat, SegmentBits, FieldSequence, CoreOffset, WidthOf, EncoderOf, WellTyped;
    FieldTyped(m, f);
    CoreField(m, listed, k);
    NumEncoded(CoreBits(m, listed)[from..to], m[f].n, to - from);
  }

  lemma CoreTime(m: Model, listed: set<nat>, k: nat, f: Field, from: nat, to: nat)
    requires WellTyped(m) && SegmentBits(Core, m, listed).Ok? && k < 16
    requires FieldSequence(Core)[k] == f && EncoderOf(f).DateEncoder? && from == CoreOffset(k) && to == CoreOffset(k + 1)
    ensures TimeField(CoreBits(m, listed), from, to, m, f)
  {
    hide IntEncode, ToNat, SegmentBits, FieldSequence, CoreOffset, WidthOf, EncoderOf, WellTyped;
    FieldTyped(m, f);
    CoreField(m, listed, k);
    NumEncoded(CoreBits(m, listed)[from..to], Deciseconds(m[f].ms), to - from);
  }

  lemma CoreCode(m: Model, listed: set<nat>, k: nat, f: Field, from: nat, to: nat)
    requires WellTyped(m) && SegmentBits(Core, m, listed).Ok? && k < 16
    requires FieldSequence(Core)[k] == f && EncoderOf(f).LangEncoder? && from == CoreOffset(k) && to == CoreOffset(k + 1)
    ensures CodeField(CoreBits(m, listed), from, m, f)
  {
    hide IntEncode, ToNat, SegmentBits, FieldSequence, CoreOffset, LangEncode, EncoderOf, WellTyped;
    FieldTyped(m, f);
    CoreField(m, listed, k);
    LettersEncoded(CoreBits(m, listed), from, m[f].s);
  }

  lemma CoreFlag(m: Model, listed: set<nat>, k: nat, f: Field, from: nat)
    requires WellTyped(m) && SegmentBits(Core, m, listed).Ok? && k < 16
    requires FieldSequence(Core)[k] == f && EncoderOf(f).BooleanEncoder? && from == CoreOffset(k) && from + 1 == CoreOffset(k + 1)
    ensures FlagField(CoreBits(m, listed), from, m, f)
  {
    hide SegmentBits, FieldSequence, CoreOffset, EncoderOf, WellTyped;
    FieldTyped(m, f);
    CoreField(m, listed, k);
    var b := CoreBits(m, listed);
    assert b[from..from + 1][0] == b[from];
  }

  lemma CoreIds(m: Model, listed: set<nat>, k: nat, f: Field, from: nat, to: nat)
    requires WellTyped(m) && SegmentBits(Core, m, listed).Ok? && k < 16
    requires FieldSequence(Core)[k] == f && EncoderOf(f).FixedVectorEncoder? && from == CoreOffset(k) && to == CoreOffset(k + 1)
    ensures IdsField(CoreBits(m, listed), from, to, m, f)
  {
    hide SegmentBits, FieldSequence, CoreOffset, IdsAt, EncoderOf, WellTyped;
    FieldTyped(m, f);
    CoreField(m, listed, k);
    FieldBitsAt(CoreBits(m, listed), from, to, m[f].ids);
  }

  lemma CoreOrder()
    ensures var fs := FieldSequence(Core);
            && |fs| == 19
            && fs[0] == Version && fs[1] == Created && fs[2] == LastUpdated && fs[3] == CmpId && fs[4] == CmpVersion
            && fs[5] == ConsentScreen && fs[7] == VendorListVersion && fs[8] == PolicyVersion
  {
  }

  lemma CoreOrderOfOthers()
    ensures var fs := FieldSequence(Core);
            && |fs| == 19
            && fs[6] == ConsentLanguage && fs[9] == IsServiceSpecific && fs[10] == UseNonStandardTexts
            && fs[11] == SpecialFeatureOptins && fs[12] == PurposeConsents && fs[13] == PurposeLegitimateInterests
            && fs[14] == PurposeOneTreatment && fs[15] == PublisherCountryCode
  {
  }

  lemma CoreEnd()
    ensures FieldSequence(Core)[16..] == [VendorConsents, VendorLegitimateInterests, PublisherRestrictions]
  {
  }

  lemma CoreOffsets()
    ensures CoreOffset(0) == 0 && CoreOffset(1) == 6 && CoreOffset(2) == 42 && CoreOffset(3) == 78
    ensures CoreOffset(4) == 90 && CoreOffset(5) == 102 && CoreOffset(6) == 108 && CoreOffset(7) == 120
    ensures CoreOffset(8) == 132 && CoreOffset(9) == 138 && CoreOffset(10) == 139 && CoreOffset(11) == 140
    ensures CoreOffset(12) == 152 && CoreOffset(13) == 176 && CoreOffset(14) == 200 && CoreOffset(15) == 201
    ensures CoreOffset(16) == 213
  {
  }

  /** The version, the times and the numbers of the core segment. */
  lemma CoreNumbers(m: Model, listed: set<nat>)
    requires WellTyped(m) && SegmentBits(Core, m, listed).Ok?
    ensures var b := CoreBits(m, listed);
            && NumField(b, 0, 6, m, Version)
            && TimeField(b, 6, 42, m, Created)
            && TimeField(b, 42, 78, m, LastUpdated)
            && NumField(b, 78, 90, m, CmpId)
            && NumField(b, 90, 102, m, CmpVersion)
            && NumField(b, 102, 108, m, ConsentScreen)
            && NumField(b, 120, 132, m, VendorListVersion)
            && NumField(b, 132, 138, m, PolicyVersion)
  {
    hide SegmentBits, WellTyped, FieldSequence, CoreOffset, NumField, TimeField;
    CoreOrder();
    CoreOffsets();
    CoreNumber(m, listed, 0, Version, 0, 6);
    CoreTime(m, listed, 1, Created, 6, 42);
    CoreTime(m, listed, 2, LastUpdated, 42, 78);
    CoreNumber(m, listed, 3, CmpId, 78, 90);
    CoreNumber(m, listed, 4, CmpVersion, 90, 102);
    CoreNumber(m, listed, 5, ConsentScreen, 102, 108);
    CoreNumber(m, listed, 7, VendorListVersion, 120, 132);
    CoreNumber(m, listed, 8, PolicyVersion, 132, 138);
  }

  /** The codes, the flags and the purposes of the core segment. */
  lemma CoreCodesAndPurposes(m: Model, listed: set<nat>)
    requires WellTyped(m) && SegmentBits(Core, m, listed).Ok?
    ensures var b := CoreBits(m, listed);
            && CodeField(b, 108, m, ConsentLanguage)
            && FlagField(b, 138, m, IsServiceSpecific)
            && FlagField(b, 139, m, UseNonStandardTexts)
            && IdsField(b, 140, 152, m, SpecialFeatureOptins)
            && IdsField(b, 152, 176, m, PurposeConsents)
            && IdsField(b, 176, 200, m, PurposeLegitimateInterests)
            && FlagField(b, 200, m, PurposeOneTreatment)
            && CodeField(b, 201, m, PublisherCountryCode)
  {
    hide SegmentBits, WellTyped, FieldSequence, CoreOffset, CodeField, FlagField, IdsField;
    CoreOrderOfOthers();
    CoreOffsets();
    CoreCode(m, listed, 6, ConsentLanguage, 108, 120);
    CoreFlag(m, listed, 9, IsServiceSpecific, 138);
    CoreFlag(m, listed, 10, UseNonStandardTexts, 139);
    CoreIds(m, listed, 11, SpecialFeatureOptins, 140, 152);
    CoreIds(m, listed, 12, PurposeConsents, 152, 176);
    CoreIds(m, listed, 13, PurposeLegitimateInterests, 176, 200);
    CoreFlag(m, listed, 14, PurposeOneTreatment, 200);
    CoreCode(m, listed, 15, PublisherCountryCode, 201, 213);
  }

  lemma NoFields(m: Model, listed: set<nat>)
    requires WellTyped(m)
    ensures EncodeFields([], m, listed) == Ok([])
  {
  }

  lemma VectorFirst(fs: seq<Field>, m: Model, listed: set<nat>) returns (v: Bits, rest: Bits)
    requires WellTyped(m) && fs != [] && EncoderOf(fs[0]).VendorVectorEncoder? && EncodeFields(fs, m, listed).Ok?
    ensures EncodeFields(fs, m, listed) == Ok(v + rest) && EncodeFields(fs[1..], m, listed) == Ok(rest)
    ensures VectorField(v, m, fs[0])
  {
    hide EncodeFields, EncoderOf, VendorVector.Encode;
    FieldTyped(m, fs[0]);
    FieldsSplit(fs, m, listed);
    v := EncodeValue(fs[0], m[fs[0]], WidthOf(m, fs[0]), listed).value;
    rest := EncodeFields(fs[1..], m, listed).value;
  }

  lemma OnlyRestrictions(f: Field, m: Model, listed: set<nat>)
    requires WellTyped(m) && EncoderOf(f).RestrictionEncoder? && EncodeFields([f], m, listed).Ok?
    ensures RestrictionsField(EncodeFields([f], m, listed).value, m, f, listed)
  {
    hide EncodeFields, EncoderOf, Restrictions.Encode;
    FieldTyped(m, f);
    FieldsSplit([f], m, listed);
    assert [f][1..] == [];
    NoFields(m, listed);
    var v := EncodeValue(f, m[f], WidthOf(m, f), listed).value;
    assert v + [] == v;
  }

  /** From bit 213 on: the vendors with consent, those with a legitimate interest, the restrictions. */
  lemma CoreVendors(m: Model, listed: set<nat>) returns (consents: Bits, interests: Bits, restrictions: Bits)
    requires WellTyped(m) && SegmentBits(Core, m, listed).Ok?
    ensures |CoreBits(m, listed)| >= 213 && CoreBits(m, listed)[213..] == consents + interests + restrictions
    ensures VectorField(consents, m, VendorConsents) && VectorField(interests, m, VendorLegitimateInterests)
    ensures RestrictionsField(restrictions, m, PublisherRestrictions, listed)
  {
    hide SegmentBits, FieldSequence, EncodeFields, CoreOffset, VectorField, RestrictionsField, WellTyped;
    CoreOffsets();
    CoreEnd();
    CoreFrom(m, listed, 16);
    var fs := [VendorConsents, VendorLegitimateInterests, PublisherRestrictions];
    assert fs[1..] == [VendorLegitimateInterests, PublisherRestrictions] && fs[1..][1..] == [PublisherRestrictions];
    var rest;
    consents, rest := VectorFirst(fs, m, listed);
    interests, restrictions := VectorFirst(fs[1..], m, listed);
    OnlyRestrictions(PublisherRestrictions, m, listed);
  }

  // ---- The other segments ----

  lemma TypedSegment(g: Segment, id: nat, m: Model, listed: set<nat>)
    requires WellTyped(m) && !g.Core? && id == SegmentId(g) && SegmentBits(g, m, listed).Ok?
    ensures var b := SegmentBits(g, m, listed).value;
            Holds(b, 0, 3, id) && EncodeFields(FieldSequence(g), m, listed) == Ok(b[3..])
  {
    hide FieldSequence, EncodeFields, IntEncode, ToNat;
    OtherStartsWithId(g, m, listed);
    var b := SegmentBits(g, m, listed).value;
    assert b[0..3] == b[..3];
  }

  lemma OnlyVector(f: Field, m: Model, listed: set<nat>)
    requires WellTyped(m) && EncoderOf(f).VendorVectorEncoder? && EncodeFields([f], m, listed).Ok?
    ensures VectorField(EncodeFields([f], m, listed).value, m, f)
  {
    hide EncodeFields, VectorField, EncoderOf;
    var v, rest := VectorFirst([f], m, listed);
    assert [f][1..] == [];
    NoFields(m, listed);
    assert v + rest == v;
  }

  /** The two vendor segments: a 1, respectively a 2, in three bits, and the vendors disclosed,
      respectively allowed. */
  lemma VendorSegments(g: Segment, m: Model, listed: set<nat>)
    requires WellTyped(m) && SegmentBits(g, m, listed).Ok?
    ensures g.Disclosed? ==> var b := SegmentBits(g, m, listed).value;
                             Holds(b, 0, 3, 1) && VectorField(b[3..], m, VendorsDisclosed)
    ensures g.Allowed? ==> var b := SegmentBits(g, m, listed).value;
                           Holds(b, 0, 3, 2) && VectorField(b[3..], m, VendorsAllowed)
  {
    hide EncodeFields, VectorField, SegmentBits;
    if g.Disclosed? {
      TypedSegment(g, 1, m, listed);
      OnlyVector(VendorsDisclosed, m, listed);
    } else if g.Allowed? {
      TypedSegment(g, 2, m, listed);
      OnlyVector(VendorsAllowed, m, listed);
    }
  }

  lemma NumPlaced(b: Bits, fs: seq<Field>, from: nat, m: Model, listed: set<nat>)
    requires WellTyped(m) && fs != [] && EncoderOf(fs[0]).IntEncoder? && from <= |b|
    requires EncodeFields(fs, m, listed) == Ok(b[from..])
    ensures WidthOf(m, fs[0]).Some?
    ensures var w := WidthOf(m, fs[0]).value;
            from + w <= |b| && NumField(b, from, from + w, m, fs[0]) && EncodeFields(fs[1..], m, listed) == Ok(b[from + w..])
  {
    hide EncodeFields, EncoderOf, IntEncode, ToNat;
    FieldTyped(m, fs[0]);
    FieldPlaced(b, fs, from, m, listed);
    var w := WidthOf(m, fs[0]).value;
    NumEncoded(b[from..from + w], m[fs[0]].n, w);
  }

  lemma IdsPlaced(b: Bits, fs: seq<Field>, from: nat, m: Model, listed: set<nat>)
    requires WellTyped(m) && fs != [] && EncoderOf(fs[0]).FixedVectorEncoder? && from <= |b|
    requires EncodeFields(fs, m, listed) == Ok(b[from..])
    ensures WidthOf(m, fs[0]).Some?
    ensures var w := WidthOf(m, fs[0]).value;
            from + w <= |b| && IdsField(b, from, from + w, m, fs[0]) && EncodeFields(fs[1..], m, listed) == Ok(b[from + w..])
  {
    hide EncodeFields, EncoderOf, IdsAt;
    FieldTyped(m, fs[0]);
    FieldPlaced(b, fs, from, m, listed);
    var w := WidthOf(m, fs[0]).value;
    FieldBitsAt(b, from, from + w, m[fs[0]].ids);
  }

  lemma PublisherOrder()
    ensures var fs := FieldSequence(PublisherTC);
            && |fs| == 5
            && fs[0] == PublisherConsents && fs[1] == PublisherLegitimateInterests && fs[2] == NumCustomPurposes
            && fs[3] == PublisherCustomConsents && fs[4] == PublisherCustomLegitimateInterests
  {
  }

  lemma PublisherWidths(m: Model)
    requires HasCount(m)
    ensures WidthOf(m, PublisherConsents) == Some(24) && WidthOf(m, PublisherLegitimateInterests) == Some(24)
    ensures WidthOf(m, NumCustomPurposes) == Some(6)
    ensures WidthOf(m, PublisherCustomConsents) == Some(m[NumCustomPurposes].n)
    ensures WidthOf(m, PublisherCustomLegitimateInterests) == Some(m[NumCustomPurposes].n)
  {
  }

  /** The publisher segment: a 3 in three bits, the publisher's consents and legitimate interests in 24
      bits each, the number of custom purposes in 6, and as many bits for the custom consents and for
      the custom legitimate interests. */
  lemma PublisherLayout(m: Model, listed: set<nat>)
    requires WellTyped(m) && SegmentBits(PublisherTC, m, listed).Ok?
    ensures var b, n := SegmentBits(PublisherTC, m, listed).value, m[NumCustomPurposes].n;
            && |b| == 57 + 2 * n
            && Holds(b, 0, 3, 3)
            && IdsField(b, 3, 27, m, PublisherConsents)
            && IdsField(b, 27, 51, m, PublisherLegitimateInterests)
            && NumField(b, 51, 57, m, NumCustomPurposes)
            && IdsField(b, 57, 57 + n, m, PublisherCustomConsents)
            && IdsField(b, 57 + n, 57 + 2 * n, m, PublisherCustomLegitimateInterests)
  {
    hide EncodeFields, SegmentBits, IdsField, NumField, FieldSequence, WellTyped, WidthOf, Holds;
    var b, n := SegmentBits(PublisherTC, m, listed).value, m[NumCustomPurposes].n;
    var fs := FieldSequence(PublisherTC);
    PublisherOrder();
    PublisherWidths(m);
    TypedSegment(PublisherTC, 3, m, listed);
    assert 3 <= |b| by {
      OtherStartsWithId(PublisherTC, m, listed);
    }
    IdsPlaced(b, fs, 3, m, listed);
    IdsPlaced(b, fs[1..], 27, m, listed);
    assert fs[1..][1..] == fs[2..] && fs[2..][1..] == fs[3..] && fs[3..][1..] == fs[4..] && fs[4..][1..] == [];
    NumPlaced(b, fs[2..], 51, m, listed);
    IdsPlaced(b, fs[3..], 57, m, listed);
    IdsPlaced(b, fs[4..], 57 + n, m, listed);
    NoFields(m, listed);
  }

  // ---- The string ----

  /** The segments, each as the text of its bits, with a dot between any two. */
  lemma StringLayout(gs: seq<Segment>, m: Model, listed: set<nat>)
    requires gs != [] && WellTyped(m) && m[Version] == Num(2) && TcString.Encode(gs, m, listed).Ok?
    ensures var parts := Split(TcString.Encode(gs, m, listed).value, '.');
            && |parts| == |gs|
            && forall i :: 0 <= i < |gs| ==> Segments.Encode(gs[i], m, listed) == Ok(parts[i])
  {
    hide TcString.EncodeParts, Segments.Encode, WellTyped;
    TcString.PartsHaveNoDot(gs, m, listed);
    SplitJoin(TcString.EncodeParts(gs, m, listed).value, '.');
    PartsInOrder(gs, m, listed);
  }

  lemma {:induction false} PartsInOrder(gs: seq<Segment>, m: Model, listed: set<nat>)
    requires WellTyped(m) && TcString.EncodeParts(gs, m, listed).Ok?
    ensures forall i :: 0 <= i < |gs| ==> Segments.Encode(gs[i], m, listed) == Ok(TcString.EncodeParts(gs, m, listed).value[i])
  {
    hide Segments.Encode;
    if gs != [] {
      PartsInOrder(gs[1..], m, listed);
    }
  }
}
