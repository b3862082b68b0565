/** Vendor vectors: a 16-bit maximum, then either one bit per id or a list of id ranges,
    whichever a running size estimate prefers. */
module VendorVector {
  import opened Wrappers
  import opened Bits
  import opened Vector

  const MAX_ID_BITS := 16
  const ENTRIES_BITS := 12
  const VENDOR_BITS := 16

  /** Field form costs the header and one bit per id. */
  const HEADER := 17
  /** At or below this maximum the range form is never tried. */
  const RANGE_THRESHOLD := 45

  /** Ids `start` to `end`, both included. */
  datatype Range = Range(start: nat, end: nat) {
    predicate Has(x: nat) {
      start <= x <= end
    }
  }

  // ---- Reference definitions ----

  function RunStart(ids: set<nat>, n: nat): (s: nat)
    requires n in ids && 0 !in ids
    ensures 1 <= s <= n
    ensures forall x :: s <= x <= n ==> x in ids
    ensures s - 1 !in ids
  {
    if n - 1 in ids then RunStart(ids, n - 1) else n
  }

  /** The maximal runs of consecutive ids that end at or before `n`, in ascending order. */
  function Runs(ids: set<nat>, n: nat): (rs: seq<Range>)
    requires 0 !in ids
    ensures forall i :: 0 <= i < |rs| ==> 1 <= rs[i].start <= rs[i].end <= n
  {
    if n == 0 then []
    else if n in ids && n + 1 !in ids then Runs(ids, n - 1) + [Range(RunStart(ids, n), n)]
    else Runs(ids, n - 1)
  }

  /** The source's running estimate after the ids up to `n`: an opening costs 17 bits when the
      run goes on, and every run end costs 16. */
  function Estimate(ids: set<nat>, n: nat): (e: nat)
    requires 0 !in ids
  {
    if n == 0 then HEADER + ENTRIES_BITS
    else if n !in ids then Estimate(ids, n - 1)
    else if n + 1 !in ids then Estimate(ids, n - 1) + 16
    else if n - 1 !in ids then Estimate(ids, n - 1) + 17
    else Estimate(ids, n - 1)
  }

  /** Range form is chosen on the estimate as it stands before the last id. */
  predicate UseRange(ids: set<nat>)
    requires 0 !in ids
  {
    var m := MaxId(ids);
    m > RANGE_THRESHOLD && Estimate(ids, m - 1) < HEADER + m
  }

  function FieldBits(ids: set<nat>, n: nat): Bits {
    seq(n, i requires 0 <= i < n => i + 1 in ids)
  }

  function EncodeEntry(r: Range): Result<Bits, CodecError> {
    var s :- IntEncode(r.start, VENDOR_BITS);
    if r.start == r.end then
      Ok([false] + s)
    else
      var e :- IntEncode(r.end, VENDOR_BITS);
      Ok([true] + s + e)
  }

  function EncodeEntries(rs: seq<Range>): Result<Bits, CodecError> {
    if rs == [] then Ok([]) else
      var first :- EncodeEntry(rs[0]);
      var others :- EncodeEntries(rs[1..]);
      Ok(first + others)
  }

  function EncodeRanges(rs: seq<Range>): Result<Bits, CodecError> {
    var count :- IntEncode(|rs|, ENTRIES_BITS);
    var entries :- EncodeEntries(rs);
    Ok(count + entries)
  }

  /** What `VendorVectorEncoder.encode` computes from the ids. */
  function Encode(ids: set<nat>): Result<Bits, CodecError>
    requires 0 !in ids
  {
    var m := MaxId(ids);
    var head :- IntEncode(m, MAX_ID_BITS);
    if UseRange(ids) then
      var body :- EncodeRanges(Runs(ids, m));
      Ok(head + [true] + body)
    else
      Ok(head + [false] + FieldBits(ids, m))
  }

  function Span(r: Range): set<nat> {
    set x | r.start <= x <= r.end && r.Has(x)
  }

  /** The ids that a list of ranges covers. */
  function Cover(rs: seq<Range>): set<nat> {
    if rs == [] then {} else Span(rs[0]) + Cover(rs[1..])
  }

  /** One entry: a range flag, a first id, and a last id when the flag is set. A missing flag
      reads as 0. */
  function DecodeEntry(b: Bits): (r: Result<(Range, Bits), CodecError>)
    ensures r.Ok? ==> |r.value.1| < |b|
  {
    if b == [] then Err(DecodingError) else
      var (first, rest) :- TakeInt(b[1..], VENDOR_BITS);
      if b[0] then
        var (last, rest') :- TakeInt(rest, VENDOR_BITS);
        Ok((Range(first, last), rest'))
      else
        Ok((Range(first, first), rest))
  }

  /** `count` entries added to `acc`; the id 0 is refused by the vector. */
  function DecodeEntries(b: Bits, count: nat, acc: set<nat>): (r: Result<(set<nat>, Bits), CodecError>)
    ensures r.Ok? ==> |r.value.1| <= |b|
  {
    if count == 0 then Ok((acc, b)) else
      var (r, rest) :- DecodeEntry(b);
      if r.start == 0 then Err(ModelError) else DecodeEntries(rest, count - 1, acc + Span(r))
  }

  /** The ids that decoding entries has set when it ends, whether by an error or not. */
  function EntriesReached(b: Bits, count: nat, acc: set<nat>): set<nat>
    decreases count
  {
    if count == 0 then acc else
      match DecodeEntry(b)
      case Err(_) => acc
      case Ok(next) =>
        if next.0.start == 0 then acc else EntriesReached(next.1, count - 1, acc + Span(next.0))
  }

  /** A failed decoding has set what some entries in front of the bad one cover, and nothing else. */
  lemma {:induction false} ReachedBetween(b: Bits, count: nat, acc: set<nat>)
    ensures acc <= EntriesReached(b, count, acc)
    ensures var spec := DecodeEntries(b, count, acc); spec.Ok? ==> EntriesReached(b, count, acc) == spec.value.0
    decreases count
  {
    if count > 0 && DecodeEntry(b).Ok? {
      var (r, rest) := DecodeEntry(b).value;
      ReachedBetween(rest, count - 1, acc + Span(r));
    }
  }

  predicate HasBit(b: Bits, x: nat) {
    1 <= x <= |b| && b[x - 1]
  }

  function IdsOfField(b: Bits): set<nat> {
    set x | 1 <= x <= |b| && HasBit(b, x)
  }

  /** Ids and how many bits they took. */
  datatype Decoded = Decoded(ids: set<nat>, bitLength: nat)

  /** What `VendorVectorEncoder.decode` computes from a string that may go on after the vector. */
  function Decode(b: Bits): Result<Decoded, CodecError> {
    var (m, b1) :- TakeInt(b, MAX_ID_BITS);
    var (kind, b2) :- TakeInt(b1, 1);
    if kind == 1 then
      var (count, b3) :- TakeInt(b2, ENTRIES_BITS);
      var (ids, rest) :- DecodeEntries(b3, count, {});
      Ok(Decoded(ids, |b| - |rest|))
    else if |b2| < m then
      Err(DecodingError)
    else
      Ok(Decoded(IdsOfField(b2[..m]), HEADER + m))
  }

  // ---- Round trip ----

  lemma EntryRoundTrip(r: Range, rest: Bits)
    requires EncodeEntry(r).Ok?
    ensures DecodeEntry(EncodeEntry(r).value + rest) == Ok((r, rest))
  {
    var s := IntEncode(r.start, VENDOR_BITS).value;
    var b := EncodeEntry(r).value + rest;
    if r.start == r.end {
      TakeEncoded(r.start, VENDOR_BITS, rest);
      assert b[1..] == s + rest;
    } else {
      var e := IntEncode(r.end, VENDOR_BITS).value;
      TakeEncoded(r.start, VENDOR_BITS, e + rest);
      TakeEncoded(r.end, VENDOR_BITS, rest);
      assert b[1..] == s + (e + rest);
    }
  }

  lemma {:induction false} EntriesRoundTrip(rs: seq<Range>, rest: Bits, acc: set<nat>)
    requires EncodeEntries(rs).Ok?
    requires forall i :: 0 <= i < |rs| ==> rs[i].start > 0
    ensures DecodeEntries(EncodeEntries(rs).value + rest, |rs|, acc) == Ok((acc + Cover(rs), rest))
  {
    if rs == [] {
      assert EncodeEntries(rs).value + rest == rest;
      assert acc + Cover(rs) == acc;
    } else {
      var first := EncodeEntry(rs[0]).value;
      var others := EncodeEntries(rs[1..]).value;
      EntryRoundTrip(rs[0], others + rest);
      assert first + others + rest == first + (others + rest);
      EntriesRoundTrip(rs[1..], rest, acc + Span(rs[0]));
      assert acc + Span(rs[0]) + Cover(rs[1..]) == acc + Cover(rs);
    }
  }

  lemma {:induction false} CoverAppend(rs: seq<Range>, r: Range)
    ensures Cover(rs + [r]) == Cover(rs) + Span(r)
  {
    if rs == [] {
      assert [r][1..] == [];
    } else {
      assert (rs + [r])[1..] == rs[1..] + [r];
      CoverAppend(rs[1..], r);
    }
  }

  /** The runs up to `n` cover the ids up to `n`, except those of a run that goes on past `n`. */
  lemma {:induction false} CoverRuns(ids: set<nat>, n: nat)
    requires 0 !in ids
    ensures forall x :: x in Cover(Runs(ids, n)) <==>
                        x in ids && x <= n && !(n in ids && n + 1 in ids && RunStart(ids, n) <= x)
  {
    if n > 0 {
      CoverRuns(ids, n - 1);
      if n in ids && n + 1 !in ids {
        CoverAppend(Runs(ids, n - 1), Range(RunStart(ids, n), n));
        forall x: nat ensures x in Span(Range(RunStart(ids, n), n)) <==> RunStart(ids, n) <= x <= n {
          assert Range(RunStart(ids, n), n).Has(x) <==> RunStart(ids, n) <= x <= n;
        }
      }
    }
  }

  lemma CoverAllRuns(ids: set<nat>)
    requires 0 !in ids
    ensures Cover(Runs(ids, MaxId(ids))) == ids
  {
    CoverRuns(ids, MaxId(ids));
  }

  lemma FieldRoundTrip(ids: set<nat>)
    requires 0 !in ids
    ensures IdsOfField(FieldBits(ids, MaxId(ids))) == ids
  {
    var f := FieldBits(ids, MaxId(ids));
    forall x ensures x in IdsOfField(f) <==> x in ids {
      assert x in IdsOfField(f) <==> HasBit(f, x);
    }
  }

  lemma RangeFormRoundTrip(ids: set<nat>, rest: Bits)
    requires 0 !in ids && Encode(ids).Ok? && UseRange(ids)
    ensures Decode(Encode(ids).value + rest) == Ok(Decoded(ids, |Encode(ids).value|))
  {
    hide IntEncode, ToNat, UseRange, Runs, EncodeEntries, DecodeEntries, Cover;
    var m := MaxId(ids);
    var head := IntEncode(m, MAX_ID_BITS).value;
    var rs := Runs(ids, m);
    var count := IntEncode(|rs|, ENTRIES_BITS).value;
    var entries := EncodeEntries(rs).value;
    var b2 := count + (entries + rest);
    var b := Encode(ids).value + rest;
    assert b == head + ([true] + b2);
    TakeEncoded(m, MAX_ID_BITS, [true] + b2);
    TakeFlag(true, b2);
    TakeEncoded(|rs|, ENTRIES_BITS, entries + rest);
    EntriesRoundTrip(rs, rest, {});
    CoverAllRuns(ids);
    assert {} + Cover(rs) == ids;
  }

  lemma FieldFormRoundTrip(ids: set<nat>, rest: Bits)
    requires 0 !in ids && Encode(ids).Ok? && !UseRange(ids)
    ensures Decode(Encode(ids).value + rest) == Ok(Decoded(ids, |Encode(ids).value|))
  {
    hide IntEncode, ToNat, UseRange, TakeInt, IdsOfField, DecodeEntries;
    var m := MaxId(ids);
    var head := IntEncode(m, MAX_ID_BITS).value;
    IntRoundTrip(m, MAX_ID_BITS);
    var field := FieldBits(ids, m);
    assert Encode(ids).value + rest == head + ([false] + (field + rest));
    TakeEncoded(m, MAX_ID_BITS, [false] + (field + rest));
    TakeFlag(false, field + rest);
    assert (field + rest)[..m] == field;
    FieldRoundTrip(ids);
  }

  /** A vector that encodes is read back exactly, whatever follows it, and reports the number of
      bits it took. */
  lemma RoundTrip(ids: set<nat>, rest: Bits)
    requires 0 !in ids && Encode(ids).Ok?
    ensures Decode(Encode(ids).value + rest) == Ok(Decoded(ids, |Encode(ids).value|))
  {
    if UseRange(ids) {
      RangeFormRoundTrip(ids, rest);
    } else {
      FieldFormRoundTrip(ids, rest);
    }
  }

  lemma TakeFlag(flag: bool, rest: Bits)
    ensures TakeInt([flag] + rest, 1) == Ok((BitValue(flag), rest))
  {
    var b := [flag] + rest;
    assert b[..1] == [flag] && b[1..] == rest;
    assert ToNat([flag]) == 2 * ToNat([flag][..0]) + BitValue(flag);
  }

  // ---- When encoding throws ----

  predicate Isolated(ids: set<nat>) {
    forall x :: x in ids ==> x + 1 !in ids
  }

  lemma {:induction false} EstimateBound(ids: set<nat>, n: nat)
    requires 0 !in ids
    ensures Estimate(ids, n) >= 29 + 16 * |Runs(ids, n)|
    ensures (exists x :: x in ids && x + 1 in ids && x <= n) ==> Estimate(ids, n) >= 46 + 16 * |Runs(ids, n)|
    ensures Isolated(ids) ==> Estimate(ids, n) == 29 + 16 * |Runs(ids, n)|
  {
    if n > 0 {
      EstimateBound(ids, n - 1);
      if x :| x in ids && x + 1 in ids && x <= n {
        if n - 1 in ids && n in ids {
          assert n - 1 in ids && (n - 1) + 1 in ids && n - 1 <= n - 1;
        } else if n in ids && n + 1 in ids {
        } else {
          assert x in ids && x + 1 in ids && x <= n - 1;
        }
      }
    }
  }

  function UpTo(ids: set<nat>, n: nat): set<nat> {
    set x | x in ids && x <= n
  }

  lemma {:induction false} IsolatedRuns(ids: set<nat>, n: nat)
    requires 0 !in ids && Isolated(ids)
    ensures |Runs(ids, n)| == |UpTo(ids, n)|
  {
    var upTo := UpTo(ids, n);
    if n == 0 {
      assert upTo == {};
    } else {
      IsolatedRuns(ids, n - 1);
      var before := UpTo(ids, n - 1);
      if n in ids {
        assert upTo == before + {n};
      } else {
        assert upTo == before;
      }
    }
  }

  lemma {:induction false} RunsEncode(rs: seq<Range>)
    requires forall i :: 0 <= i < |rs| ==> rs[i].start <= 65535 && rs[i].end <= 65535
    ensures EncodeEntries(rs).Ok?
  {
    if rs != [] {
      Pow2Values();
      IntRoundTrip(rs[0].start, VENDOR_BITS);
      IntRoundTrip(rs[0].end, VENDOR_BITS);
      RunsEncode(rs[1..]);
    }
  }

  lemma EncodeThrowsOnGuard(ids: set<nat>)
    requires 0 !in ids
    ensures Encode(ids).Err? <==>
              MaxId(ids) > 65535 || (UseRange(ids) && |Runs(ids, MaxId(ids))| > 4095)
  {
    var m := MaxId(ids);
    Pow2Values();
    IntRoundTrip(m, MAX_ID_BITS);
    if m <= 65535 {
      RunsEncode(Runs(ids, m));
      IntRoundTrip(|Runs(ids, m)|, ENTRIES_BITS);
    }
  }

  /** Encoding throws exactly when the maximum does not fit 16 bits, or the maximum is 65533 or
      more and there are 4096 ids with no two adjacent: the 12-bit entry count then overflows. */
  lemma EncodeThrowsExactly(ids: set<nat>)
    requires 0 !in ids
    ensures Encode(ids).Err? <==>
              || MaxId(ids) > 65535
              || (MaxId(ids) >= 65533 && Isolated(ids) && |ids| == 4096)
  {
    var m := MaxId(ids);
    EncodeThrowsOnGuard(ids);
    EstimateBound(ids, m);
    if 0 < m {
      assert Estimate(ids, m) == Estimate(ids, m - 1) + 16;
      if Isolated(ids) {
        IsolatedRuns(ids, m);
        assert UpTo(ids, m) == ids;
        assert UseRange(ids) <==> m > 45 && 13 + 16 * |ids| < 17 + m;
      } else {
        var x :| x in ids && x + 1 in ids;
        assert x <= m;
      }
    }
  }

  function Stride(m: nat): (ids: set<nat>)
  {
    set x | 1 <= x <= m && x % 16 == m % 16
  }

  lemma StrideStep(n: nat, c: nat)
    requires n > 0 && 0 < c < 16
    ensures (n + 16 - c) / 16 == (n + 15 - c) / 16 + if n % 16 == c then 1 else 0
  {
  }

  lemma {:induction false} StrideRuns(m: nat, n: nat)
    requires m % 16 > 0 && n <= m
    ensures 0 !in Stride(m) && |Runs(Stride(m), n)| == (n + 16 - m % 16) / 16
  {
    var ids := Stride(m);
    if n > 0 {
      StrideRuns(m, n - 1);
      StrideStep(n, m % 16);
      assert n in ids <==> n % 16 == m % 16;
      assert n in ids ==> n + 1 !in ids;
    }
  }

  /** Each maximum from 65533 to 65535 has a set of ids that the encoder cannot encode. */
  lemma OverflowExists(m: nat)
    requires 65533 <= m <= 65535
    ensures 0 !in Stride(m) && MaxId(Stride(m)) == m && Encode(Stride(m)).Err?
  {
    var ids := Stride(m);
    assert m in ids;
    StrideRuns(m, m);
    assert Isolated(ids) by {
      forall x | x in ids ensures x + 1 !in ids {}
    }
    IsolatedRuns(ids, m);
    assert UpTo(ids, m) == ids;
    EncodeThrowsExactly(ids);
  }

  // ---- The encoder and the decoder as they run ----

  method EncodeRangeList(rs: seq<Range>) returns (r: Result<Bits, CodecError>)
    ensures r == EncodeEntries(rs)
  {
    var out: Bits := [];
    assert rs[0..] == rs;
    for k := 0 to |rs|
      invariant EncodeEntries(rs).Ok? <==> EncodeEntries(rs[k..]).Ok?
      invariant EncodeEntries(rs).Ok? ==> EncodeEntries(rs).value == out + EncodeEntries(rs[k..]).value
      invariant EncodeEntries(rs).Err? ==> EncodeEntries(rs) == EncodeEntries(rs[k..])
    {
      assert rs[k..][0] == rs[k] && rs[k..][1..] == rs[k + 1..];
      var entry :- EncodeEntry(rs[k]);
      out := out + entry;
    }
    assert rs[|rs|..] == [] && out + EncodeEntries([]).value == out;
    return Ok(out);
  }

  method BuildRangeEncoding(rs: seq<Range>) returns (r: Result<Bits, CodecError>)
    ensures r == EncodeRanges(rs)
  {
    var count :- IntEncode(|rs|, ENTRIES_BITS);
    var entries :- EncodeRangeList(rs);
    return Ok(count + entries);
  }

  /** The open run, if the scan has just read `n` and the run of `n` goes on. */
  function OpenRun(ids: set<nat>, n: nat): seq<nat>
    requires 0 !in ids
  {
    if n in ids && n + 1 in ids then [RunStart(ids, n)] else []
  }

  /** `VendorVectorEncoder.encode`: one pass that builds the bit field and, as long as the
      estimate stays below the field's size, the list of ranges. */
  method EncodeVector(v: Vector) returns (r: Result<Bits, CodecError>)
    requires v.Valid()
    ensures r == Encode(v.ids)
  {
    var head :- IntEncode(v.maxId, MAX_ID_BITS);
    var closed: seq<Range>, open: seq<nat> := [], [];
    var field: Bits := [];
    var isRange := false;
    var fieldSize := HEADER + v.maxId;
    var rangeSize := HEADER + ENTRIES_BITS;
    ghost var ids := v.ids;
    var l := 1;
    while l <= v.maxId
      invariant 1 <= l <= v.maxId + 1
      invariant field == FieldBits(ids, l - 1)
      invariant isRange <==> l > 1 && v.maxId > RANGE_THRESHOLD && Estimate(ids, l - 2) < fieldSize
      invariant v.maxId > RANGE_THRESHOLD && (l == 1 || Estimate(ids, l - 2) < fieldSize) ==>
                  rangeSize == Estimate(ids, l - 1) && closed == Runs(ids, l - 1) && open == OpenRun(ids, l - 1)
      invariant v.maxId > RANGE_THRESHOLD && l > 1 && Estimate(ids, l - 2) >= fieldSize ==>
                  rangeSize >= fieldSize && Estimate(ids, l - 1) >= fieldSize
    {
      var d := l in v.ids;
      field := field + [d];
      isRange := v.maxId > RANGE_THRESHOLD && rangeSize < fieldSize;
      if isRange && d {
        if l + 1 in v.ids {
          if |open| == 0 {
            open := open + [l];
            rangeSize := rangeSize + 1 + VENDOR_BITS;
          }
        } else {
          open := open + [l];
          rangeSize := rangeSize + VENDOR_BITS;
          closed := closed + [Range(open[0], open[|open| - 1])];
          open := [];
        }
      }
      l := l + 1;
    }
    if isRange {
      var body :- BuildRangeEncoding(closed);
      return Ok(head + [true] + body);
    } else {
      return Ok(head + [false] + field);
    }
  }

  /** Adds the ids `first` to `last`; the first id 0 throws. */
  method SetRange(v: Vector, first: nat, last: nat) returns (ok: bool)
    requires v.Valid()
    modifies v
    ensures v.Valid()
    ensures ok <==> first > 0
    ensures v.ids == if ok then old(v.ids) + Span(Range(first, last)) else old(v.ids)
  {
    var l := first;
    while l <= last
      invariant v.Valid()
      invariant first <= l && (first > 0 || l == 0)
      invariant forall x :: x in v.ids <==> x in old(v.ids) || (first <= x < l && x <= last)
    {
      var set_ := v.Set(l);
      if !set_ {
        return false;
      }
      l := l + 1;
    }
    forall x ensures x in Span(Range(first, last)) <==> first <= x <= last {
      assert x >= 0 ==> (Range(first, last).Has(x) <==> first <= x <= last);
    }
    return true;
  }

  /** `FixedVectorEncoder.decode` on a string of the right length. */
  method DecodeField(b: Bits) returns (v: Vector)
    ensures fresh(v) && v.Valid() && v.ids == IdsOfField(b) && v.bitLength == |b|
  {
    v := new Vector();
    for s := 1 to |b| + 1
      invariant fresh(v) && v.Valid()
      invariant forall x :: x in v.ids <==> 1 <= x < s && HasBit(b, x)
    {
      assert HasBit(b, s) <==> b[s - 1];
      if b[s - 1] {
        var _ := v.Set(s);
      }
    }
    v.bitLength := |b|;
  }

  /** `count` range entries from offset `from` on, added to `v`; returns the offset after them. */
  method ReadRanges(b: Bits, from: nat, count: nat, v: Vector) returns (r: Result<nat, CodecError>)
    requires v.Valid() && from <= |b|
    modifies v
    ensures v.Valid()
    ensures var spec := DecodeEntries(b[from..], count, old(v.ids));
            && (r.Ok? <==> spec.Ok?)
            && (r.Err? ==> r.error == spec.error)
            && (r.Ok? ==> r.value <= |b| && spec.value == (v.ids, b[r.value..]))
    ensures v.ids == EntriesReached(b[from..], count, old(v.ids))
  {
    hide DecodeEntry, Span;
    var s := from;
    ghost var spec := DecodeEntries(b[from..], count, v.ids);
    ghost var reached := EntriesReached(b[from..], count, v.ids);
    for c := 0 to count
      invariant v.Valid()
      invariant 0 <= s <= |b|
      invariant spec == DecodeEntries(b[s..], count - c, v.ids)
      invariant reached == EntriesReached(b[s..], count - c, v.ids)
    {
      var entry :- ReadEntry(b, s);
      s := entry.1;
      var ok := SetRange(v, entry.0.start, entry.0.end);
      if !ok {
        return Err(ModelError);
      }
    }
    return Ok(s);
  }

  /** One entry at an offset, and the offset of the next. */
  method ReadEntry(b: Bits, from: nat) returns (r: Result<(Range, nat), CodecError>)
    requires from <= |b|
    ensures match DecodeEntry(b[from..])
            case Err(e) => r == Err(e)
            case Ok(next) => r.Ok? && r.value.0 == next.0 && r.value.1 <= |b| && next.1 == b[r.value.1..]
  {
    var s := from;
    var isRange := s < |b| && b[s];
    s := s + 1;
    if s > |b| {
      return Err(DecodingError);
    }
    assert b[s - 1..][1..] == b[s..];
    TakeAtOffset(b, s, VENDOR_BITS);
    var first :- IntDecode(Substr(b, s, VENDOR_BITS), VENDOR_BITS);
    s := s + VENDOR_BITS;
    var last := first;
    if isRange {
      TakeAtOffset(b, s, VENDOR_BITS);
      last :- IntDecode(Substr(b, s, VENDOR_BITS), VENDOR_BITS);
      s := s + VENDOR_BITS;
    }
    return Ok((Range(first, last), s));
  }

  /** `VendorVectorEncoder.decode`: offsets into one string, a fresh vector filled as it goes. */
  method DecodeVector(b: Bits) returns (r: Result<Vector, CodecError>)
    ensures r.Ok? <==> Decode(b).Ok?
    ensures r.Err? ==> r.error == Decode(b).error
    ensures r.Ok? ==>
              && fresh(r.value) && r.value.Valid()
              && Decode(b) == Ok(Decoded(r.value.ids, r.value.bitLength))
  {
    hide ToNat, DecodeEntries, EntriesReached, IdsOfField;
    var s := 0;
    assert b[0..] == b;
    TakeAtOffset(b, s, MAX_ID_BITS);
    var maxId :- IntDecode(Substr(b, s, MAX_ID_BITS), MAX_ID_BITS);
    s := s + MAX_ID_BITS;
    TakeAtOffset(b, s, 1);
    var kind :- IntDecode(Substr(b, s, 1), 1);
    s := s + 1;
    if kind == 1 {
      TakeAtOffset(b, s, ENTRIES_BITS);
      var count :- IntDecode(Substr(b, s, ENTRIES_BITS), ENTRIES_BITS);
      s := s + ENTRIES_BITS;
      var v := new Vector();
      s :- ReadRanges(b, s, count, v);
      v.bitLength := s;
      return Ok(v);
    } else {
      var field := Substr(b, s, maxId);
      if |field| != maxId {
        return Err(DecodingError);
      }
      assert field == b[s..s + maxId] == b[s..][..maxId];
      var v := DecodeField(field);
      v.bitLength := s + maxId;
      return Ok(v);
    }
  }
}
