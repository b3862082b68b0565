/** Publisher restrictions: an ordered map from (purpose, type) to vendor sets, encoded as id
    ranges that may run over ids the vendor list does not have. */
module Restrictions {
  import opened Wrappers
  import opened Bits
  import opened Vector
  import opened VendorList
  import VendorVector

  type Range = VendorVector.Range

  const RESTRICTIONS_BITS := 12
  const PURPOSE_BITS := 6
  const TYPE_BITS := 2

  const NOT_ALLOWED: nat := 0
  const REQUIRE_CONSENT: nat := 1
  const REQUIRE_LI: nat := 2

  datatype Key = Key(purposeId: nat, restrictionType: nat) {
    /** Only a valid restriction has a hash to be stored under. */
    predicate IsValid() {
      purposeId > 0 && restrictionType <= REQUIRE_LI
    }
  }

  datatype Entry = Entry(key: Key, vendors: set<nat>)

  // ---- The store ----

  predicate HasKey(es: seq<Entry>, key: Key) {
    exists i :: 0 <= i < |es| && es[i].key == key
  }

  ghost predicate DistinctKeys(es: seq<Entry>) {
    forall i, j :: 0 <= i < j < |es| ==> es[i].key != es[j].key
  }

  /** `isOkToHave`; without a vendor list everything is. */
  predicate IsOkToHave(gvl: Option<Gvl>, key: Key, vendor: nat) {
    gvl.Some? ==>
      && vendor in gvl.value.vendors
      && var v := gvl.value.vendors[vendor];
         if key.restrictionType == NOT_ALLOWED then
           key.purposeId in v.legIntPurposes || key.purposeId in v.purposes
         else
           && v.flexiblePurposes != {}
           && (key.restrictionType == REQUIRE_CONSENT ==>
                 key.purposeId in v.flexiblePurposes && key.purposeId in v.legIntPurposes)
           && (key.restrictionType == REQUIRE_LI ==>
                 key.purposeId in v.flexiblePurposes && key.purposeId in v.purposes)
  }

  /** What may be restricted: a purpose may be forbidden to a vendor that declares it on either basis;
      consent may be required for a flexible purpose declared on legitimate interest, and legitimate
      interest for a flexible purpose declared on consent. */
  lemma IsOkMeans(gvl: Gvl, purpose: nat, vendor: nat)
    ensures IsOkToHave(None, Key(purpose, 0), vendor)
    ensures var live := vendor in gvl.vendors;
            && (IsOkToHave(Some(gvl), Key(purpose, 0), vendor) <==>
                  live && purpose in gvl.vendors[vendor].purposes + gvl.vendors[vendor].legIntPurposes)
            && (IsOkToHave(Some(gvl), Key(purpose, 1), vendor) <==>
                  live && purpose in gvl.vendors[vendor].flexiblePurposes * gvl.vendors[vendor].legIntPurposes)
            && (IsOkToHave(Some(gvl), Key(purpose, 2), vendor) <==>
                  live && purpose in gvl.vendors[vendor].flexiblePurposes * gvl.vendors[vendor].purposes)
  {
  }

  /** The store with `vs` added under `key`; a new key goes last. */
  function AddAll(es: seq<Entry>, key: Key, vs: set<nat>): (r: seq<Entry>) {
    if vs == {} then es
    else if es == [] then [Entry(key, vs)]
    else if es[0].key == key then [Entry(key, es[0].vendors + vs)] + es[1..]
    else [es[0]] + AddAll(es[1..], key, vs)
  }

  /** What attaching a vendor list keeps of one entry. */
  function Allowed(gvl: Gvl, e: Entry): Entry {
    Entry(e.key, set v | v in e.vendors && IsOkToHave(Some(gvl), e.key, v))
  }

  function Attach(gvl: Gvl, es: seq<Entry>): seq<Entry> {
    seq(|es|, i requires 0 <= i < |es| => Allowed(gvl, es[i]))
  }

  /** Attaching a list keeps the restrictions and of their vendors those that it allows. */
  lemma AttachKeeps(gvl: Gvl, es: seq<Entry>, i: nat, v: nat)
    requires i < |es|
    ensures |Attach(gvl, es)| == |es| && Attach(gvl, es)[i].key == es[i].key
    ensures v in Attach(gvl, es)[i].vendors <==> v in es[i].vendors && IsOkToHave(Some(gvl), es[i].key, v)
    ensures es[i].key.IsValid() <==> es[i].key.purposeId >= 1 && es[i].key.restrictionType in {0, 1, 2}
  {
  }

  function NonEmpty(es: seq<Entry>): seq<Entry> {
    if es == [] then []
    else if es[0].vendors == {} then NonEmpty(es[1..])
    else [es[0]] + NonEmpty(es[1..])
  }

  // ---- Encoding ----

  /** The ids below `n`, in ascending order. */
  function Ascending(ids: set<nat>, n: nat): (r: seq<nat>)
    ensures forall i :: 0 <= i < |r| ==> r[i] < n
    ensures ids == {} ==> r == []
    ensures forall i, j :: 0 <= i < j < |r| ==> r[i] < r[j]
    ensures forall x :: x in r <==> x in ids && x < n
  {
    if n == 0 then []
    else if n - 1 in ids then Ascending(ids, n - 1) + [n - 1]
    else Ascending(ids, n - 1)
  }

  /** `getVendors` */
  function Sorted(ids: set<nat>): (r: seq<nat>)
    ensures ids == {} ==> r == []
    ensures forall i, j :: 0 <= i < j < |r| ==> r[i] < r[j]
    ensures forall x :: x in r <==> x in ids
  {
    Ascending(ids, MaxId(ids) + 1)
  }

  /** The first listed id after `s` and up to `last`, or `s` when there is none. */
  function NextListed(listed: set<nat>, s: nat, last: nat): (r: nat)
    ensures r == s || (s < r <= last && r in listed)
    ensures forall x :: x in listed && s < x <= last ==> s < r <= x
  {
    NextListedFrom(listed, s, s + 1, last)
  }

  function NextListedFrom(listed: set<nat>, s: nat, o: nat, last: nat): (r: nat)
    requires s < o
    ensures r == s || (o <= r <= last && r in listed)
    ensures forall x :: x in listed && o <= x <= last ==> o <= r <= x
    decreases last + 1 - o
  {
    if o > last then s else if o in listed then o else NextListedFrom(listed, s, o + 1, last)
  }

  /** The ranges the encoder emits from index `p` on, with `c` the start of the open range or 0.
      A range goes on to the next vendor as long as no listed id lies between. */
  function Spans(vs: seq<nat>, listed: set<nat>, p: nat, c: nat): seq<Range>
    decreases |vs| - p
  {
    if p >= |vs| then [] else
      var start := if c == 0 then vs[p] else c;
      if p == |vs| - 1 || vs[p + 1] > NextListed(listed, vs[p], vs[|vs| - 1]) then
        [VendorVector.Range(start, vs[p])] + Spans(vs, listed, p + 1, 0)
      else
        Spans(vs, listed, p + 1, start)
  }

  /** How often the encoder opens a range, which is what it writes as the number of entries. */
  function Openings(vs: seq<nat>, listed: set<nat>, p: nat, c: nat): nat
    decreases |vs| - p
  {
    if p >= |vs| then 0 else
      var start := if c == 0 then vs[p] else c;
      var newRanges := if c == 0 then 1 else 0;
      if p == |vs| - 1 || vs[p + 1] > NextListed(listed, vs[p], vs[|vs| - 1]) then
        newRanges + Openings(vs, listed, p + 1, 0)
      else
        newRanges + Openings(vs, listed, p + 1, start)
  }

  function RangesOf(e: Entry, listed: set<nat>): seq<Range> {
    Spans(Sorted(e.vendors), listed, 0, 0)
  }

  function EncodeOne(e: Entry, listed: set<nat>): Result<Bits, CodecError> {
    var purpose :- IntEncode(e.key.purposeId, PURPOSE_BITS);
    var kind :- IntEncode(e.key.restrictionType, TYPE_BITS);
    var count :- IntEncode(Openings(Sorted(e.vendors), listed, 0, 0), VendorVector.ENTRIES_BITS);
    var entries :- VendorVector.EncodeEntries(RangesOf(e, listed));
    Ok(purpose + kind + count + entries)
  }

  function EncodeAll(es: seq<Entry>, listed: set<nat>): Result<Bits, CodecError> {
    if es == [] then Ok([]) else
      var first :- EncodeOne(es[0], listed);
      var others :- EncodeAll(es[1..], listed);
      Ok(first + others)
  }

  /** What `PurposeRestrictionVectorEncoder.encode` computes. */
  function Encode(es: seq<Entry>, listed: set<nat>): Result<Bits, CodecError> {
    var count :- IntEncode(|es|, RESTRICTIONS_BITS);
    var all :- EncodeAll(es, listed);
    Ok(count + all)
  }

  // ---- Decoding ----

  /** `n` range entries added under `key`. A reversed range throws, and so does an invalid key
      once there is something to store under it. */
  function DecodeItems(b: Bits, n: nat, key: Key, acc: seq<Entry>): (r: Result<(seq<Entry>, Bits), CodecError>)
    ensures r.Ok? ==> |r.value.1| <= |b|
    decreases n
  {
    if n == 0 then Ok((acc, b)) else
      var (r, rest) :- VendorVector.DecodeEntry(b);
      if r.end < r.start then Err(DecodingError)
      else if !key.IsValid() then Err(ModelError)
      else DecodeItems(rest, n - 1, key, AddAll(acc, key, VendorVector.Span(r)))
  }

  function DecodeAll(b: Bits, count: nat, acc: seq<Entry>): (r: Result<(seq<Entry>, Bits), CodecError>)
    ensures r.Ok? ==> |r.value.1| <= |b|
    decreases count
  {
    if count == 0 then Ok((acc, b)) else
      var (purpose, b1) :- TakeInt(b, PURPOSE_BITS);
      var (kind, b2) :- TakeInt(b1, TYPE_BITS);
      var (n, b3) :- TakeInt(b2, VendorVector.ENTRIES_BITS);
      var (acc', rest) :- DecodeItems(b3, n, Key(purpose, kind), acc);
      DecodeAll(rest, count - 1, acc')
  }

  datatype Decoded = Decoded(entries: seq<Entry>, bitLength: nat)

  /** What `PurposeRestrictionVectorEncoder.decode` computes. */
  function Decode(b: Bits): Result<Decoded, CodecError> {
    var (count, b1) :- TakeInt(b, RESTRICTIONS_BITS);
    var (entries, rest) :- DecodeAll(b1, count, []);
    Ok(Decoded(entries, |b| - |rest|))
  }

  // ---- What the ranges of one restriction cover ----

  ghost predicate StrictlyAscending(vs: seq<nat>) {
    forall i, j :: 0 <= i < j < |vs| ==> vs[i] < vs[j]
  }

  lemma CoverCons(r: Range, rs: seq<Range>)
    ensures VendorVector.Cover([r] + rs) == VendorVector.Span(r) + VendorVector.Cover(rs)
  {
    assert ([r] + rs)[1..] == rs;
  }

  /** From an open range without foreign listed ids, the emitted ranges cover no listed id that is
      not one of the vendors. */
  lemma {:induction false} SpansExact(vs: seq<nat>, listed: set<nat>, p: nat, c: nat)
    requires StrictlyAscending(vs)
    requires c > 0 ==> p < |vs| && c <= vs[p] && forall x :: x in listed && c <= x < vs[p] ==> x in vs
    ensures forall x :: x in VendorVector.Cover(Spans(vs, listed, p, c)) && x in listed ==> x in vs
    decreases |vs| - p
  {
    if p < |vs| {
      var start := if c == 0 then vs[p] else c;
      var next := NextListed(listed, vs[p], vs[|vs| - 1]);
      if p == |vs| - 1 || vs[p + 1] > next {
        var r := VendorVector.Range(start, vs[p]);
        SpansExact(vs, listed, p + 1, 0);
        CoverCons(r, Spans(vs, listed, p + 1, 0));
        forall x | x in VendorVector.Span(r) && x in listed ensures x in vs {
          assert r.Has(x);
          assert vs[p] in vs;
        }
      } else {
        forall x | x in listed && start <= x < vs[p + 1] ensures x in vs {
          assert vs[p] in vs;
          assert vs[p + 1] <= vs[|vs| - 1];
        }
        SpansExact(vs, listed, p + 1, start);
      }
    }
  }

  lemma {:induction false} SpansComplete(vs: seq<nat>, listed: set<nat>, p: nat, c: nat)
    requires StrictlyAscending(vs) && 0 !in vs && (c > 0 ==> p < |vs| && c <= vs[p])
    ensures forall i :: p <= i < |vs| ==> vs[i] in VendorVector.Cover(Spans(vs, listed, p, c))
    decreases |vs| - p
  {
    if p < |vs| {
      var start := if c == 0 then vs[p] else c;
      if p == |vs| - 1 || vs[p + 1] > NextListed(listed, vs[p], vs[|vs| - 1]) {
        var r := VendorVector.Range(start, vs[p]);
        SpansComplete(vs, listed, p + 1, 0);
        CoverCons(r, Spans(vs, listed, p + 1, 0));
        assert r.Has(vs[p]);
      } else {
        SpansComplete(vs, listed, p + 1, start);
        assert vs[p] in vs;
        CoverLow(vs, listed, p + 1, start);
      }
    }
  }

  lemma {:induction false} SpansOrdered(vs: seq<nat>, listed: set<nat>, p: nat, c: nat)
    requires StrictlyAscending(vs) && 0 !in vs && (c > 0 ==> p < |vs| && c <= vs[p])
    ensures forall i :: 0 <= i < |Spans(vs, listed, p, c)| ==>
                          0 < Spans(vs, listed, p, c)[i].start <= Spans(vs, listed, p, c)[i].end
    decreases |vs| - p
  {
    if p < |vs| {
      var start := if c == 0 then vs[p] else c;
      assert vs[p] in vs;
      if p == |vs| - 1 || vs[p + 1] > NextListed(listed, vs[p], vs[|vs| - 1]) {
        SpansOrdered(vs, listed, p + 1, 0);
      } else {
        SpansOrdered(vs, listed, p + 1, start);
      }
    }
  }

  /** An open range is emitted with everything from its start to the vendor it is open at. */
  lemma {:induction false} CoverLow(vs: seq<nat>, listed: set<nat>, p: nat, c: nat)
    requires StrictlyAscending(vs) && p < |vs| && 0 < c <= vs[p]
    ensures forall x :: c <= x <= vs[p] ==> x in VendorVector.Cover(Spans(vs, listed, p, c))
    decreases |vs| - p
  {
    if p == |vs| - 1 || vs[p + 1] > NextListed(listed, vs[p], vs[|vs| - 1]) {
      var r := VendorVector.Range(c, vs[p]);
      CoverCons(r, Spans(vs, listed, p + 1, 0));
      forall x: nat | c <= x <= vs[p] ensures x in VendorVector.Span(r) {
        assert r.Has(x);
      }
    } else {
      CoverLow(vs, listed, p + 1, c);
    }
  }

  /** The vendor at `p` is the last of its range: it is the last vendor, or a listed id lies between it
      and the next vendor, or no listed id follows up to the last vendor. */
  predicate ClosesAt(vs: seq<nat>, listed: set<nat>, p: nat)
    requires p < |vs|
  {
    || p == |vs| - 1
    || (exists x :: x in listed && vs[p] < x < vs[p + 1])
    || (forall x :: x in listed ==> !(vs[p] < x <= vs[|vs| - 1]))
  }

  lemma ClosesIff(vs: seq<nat>, listed: set<nat>, p: nat)
    requires StrictlyAscending(vs) && p < |vs|
    ensures ClosesAt(vs, listed, p) <==> p == |vs| - 1 || vs[p + 1] > NextListed(listed, vs[p], vs[|vs| - 1])
  {
    hide NextListed;
    if p < |vs| - 1 {
      var next := NextListed(listed, vs[p], vs[|vs| - 1]);
      assert vs[p + 1] <= vs[|vs| - 1];
      if exists x :: x in listed && vs[p] < x < vs[p + 1] {
        var x :| x in listed && vs[p] < x < vs[p + 1];
        assert next <= x;
      }
    }
  }

  /** Ends and starts of the ranges from index `p` on. */
  predicate IsEnd(vs: seq<nat>, listed: set<nat>, p: nat, x: nat) {
    exists q :: p <= q < |vs| && vs[q] == x && ClosesAt(vs, listed, q)
  }

  predicate IsStart(vs: seq<nat>, listed: set<nat>, p: nat, x: nat) {
    exists q :: p < q < |vs| && vs[q] == x && ClosesAt(vs, listed, q - 1)
  }

  lemma {:induction false} SpanEndsFrom(vs: seq<nat>, listed: set<nat>, p: nat, c: nat, x: nat)
    requires StrictlyAscending(vs) && 0 !in vs
    ensures (exists r :: r in Spans(vs, listed, p, c) && r.end == x) <==> IsEnd(vs, listed, p, x)
    decreases |vs| - p
  {
    if p < |vs| {
      hide ClosesAt, NextListed;
      var start := if c == 0 then vs[p] else c;
      ClosesIff(vs, listed, p);
      SpanEndsFrom(vs, listed, p + 1, 0, x);
      SpanEndsFrom(vs, listed, p + 1, start, x);
      EndsStep(vs, listed, p, x);
      if ClosesAt(vs, listed, p) {
        var first := VendorVector.Range(start, vs[p]);
        assert Spans(vs, listed, p, c) == [first] + Spans(vs, listed, p + 1, 0);
        assert first in Spans(vs, listed, p, c);
      }
    }
  }

  lemma EndsStep(vs: seq<nat>, listed: set<nat>, p: nat, x: nat)
    requires p < |vs|
    ensures IsEnd(vs, listed, p, x) <==> (vs[p] == x && ClosesAt(vs, listed, p)) || IsEnd(vs, listed, p + 1, x)
  {
    hide ClosesAt;
  }

  lemma StartsStep(vs: seq<nat>, listed: set<nat>, p: nat, x: nat)
    requires p < |vs|
    ensures IsStart(vs, listed, p, x)
       <==> (p + 1 < |vs| && vs[p + 1] == x && ClosesAt(vs, listed, p)) || IsStart(vs, listed, p + 1, x)
  {
    hide ClosesAt;
    if p + 1 < |vs| && vs[p + 1] == x && ClosesAt(vs, listed, p) {
      var q := p + 1;
      assert p < q < |vs| && vs[q] == x && ClosesAt(vs, listed, q - 1);
    }
  }

  lemma {:induction false} SpanStartsFrom(vs: seq<nat>, listed: set<nat>, p: nat, c: nat, x: nat)
    requires StrictlyAscending(vs) && 0 !in vs && (c > 0 ==> p < |vs|)
    ensures (exists r :: r in Spans(vs, listed, p, c) && r.start == x)
       <==> (p < |vs| && x == (if c == 0 then vs[p] else c)) || IsStart(vs, listed, p, x)
    decreases |vs| - p
  {
    if p < |vs| {
      hide ClosesAt, NextListed, IsStart;
      var start := if c == 0 then vs[p] else c;
      assert vs[p] in vs;
      ClosesIff(vs, listed, p);
      StartsStep(vs, listed, p, x);
      if ClosesAt(vs, listed, p) {
        SpanStartsFrom(vs, listed, p + 1, 0, x);
        var first := VendorVector.Range(start, vs[p]);
        assert Spans(vs, listed, p, c) == [first] + Spans(vs, listed, p + 1, 0);
        assert first in Spans(vs, listed, p, c);
      } else {
        assert p < |vs| - 1;
        SpanStartsFrom(vs, listed, p + 1, start, x);
        assert vs[p + 1] in vs;
      }
    } else {
      assert !IsStart(vs, listed, p, x);
    }
  }

  /** Where ranges begin and end: a vendor ends a range exactly when it closes one, and begins one
      exactly when it is the first vendor or the vendor before it closes one. */
  lemma SpanBoundaries(vs: seq<nat>, listed: set<nat>, x: nat)
    requires StrictlyAscending(vs) && 0 !in vs
    ensures (exists r :: r in Spans(vs, listed, 0, 0) && r.end == x) <==> IsEnd(vs, listed, 0, x)
    ensures (exists r :: r in Spans(vs, listed, 0, 0) && r.start == x)
       <==> (vs != [] && x == vs[0]) || IsStart(vs, listed, 0, x)
  {
    hide Spans, IsEnd, IsStart;
    SpanEndsFrom(vs, listed, 0, 0, x);
    SpanStartsFrom(vs, listed, 0, 0, x);
  }

  /** With positive vendor ids every range that is opened is emitted. */
  lemma {:induction false} OpeningsEmitted(vs: seq<nat>, listed: set<nat>, p: nat, c: nat)
    requires 0 !in vs && (c > 0 ==> p < |vs|)
    ensures |Spans(vs, listed, p, c)| == Openings(vs, listed, p, c) + if c > 0 then 1 else 0
    decreases |vs| - p
  {
    if p < |vs| {
      var start := if c == 0 then vs[p] else c;
      assert vs[p] in vs;
      if p == |vs| - 1 || vs[p + 1] > NextListed(listed, vs[p], vs[|vs| - 1]) {
        OpeningsEmitted(vs, listed, p + 1, 0);
      } else {
        OpeningsEmitted(vs, listed, p + 1, start);
      }
    }
  }

  /** What decoding finds under one restriction: its vendors and the ids its ranges run over. */
  function Spanned(e: Entry, listed: set<nat>): Entry {
    Entry(e.key, VendorVector.Cover(RangesOf(e, listed)))
  }

  function SpannedAll(es: seq<Entry>, listed: set<nat>): seq<Entry> {
    if es == [] then []
    else if es[0].vendors == {} then SpannedAll(es[1..], listed)
    else [Spanned(es[0], listed)] + SpannedAll(es[1..], listed)
  }

  lemma SpannedSound(e: Entry, listed: set<nat>)
    requires 0 !in e.vendors
    ensures e.vendors <= Spanned(e, listed).vendors
    ensures e.vendors == {} ==> Spanned(e, listed).vendors == {}
    ensures Spanned(e, listed).vendors * listed <= e.vendors
    ensures forall i :: 0 <= i < |RangesOf(e, listed)| ==>
                          0 < RangesOf(e, listed)[i].start <= RangesOf(e, listed)[i].end
  {
    var vs := Sorted(e.vendors);
    SpansExact(vs, listed, 0, 0);
    SpansComplete(vs, listed, 0, 0);
    SpansOrdered(vs, listed, 0, 0);
    forall v | v in e.vendors ensures v in Spanned(e, listed).vendors {
      assert v in vs;
    }
  }

  // ---- Round trip ----

  lemma {:induction false} AddAllTwice(es: seq<Entry>, key: Key, a: set<nat>, b: set<nat>)
    ensures AddAll(AddAll(es, key, a), key, b) == AddAll(es, key, a + b)
  {
    if a == {} {
      assert a + b == b;
    } else if b == {} {
      assert a + b == a;
    } else if es == [] {
    } else if es[0].key == key {
      assert es[0].vendors + a + b == es[0].vendors + (a + b);
    } else {
      AddAllTwice(es[1..], key, a, b);
      assert AddAll(es, key, a)[1..] == AddAll(es[1..], key, a);
    }
  }

  lemma {:induction false} AddAllFresh(es: seq<Entry>, key: Key, vs: set<nat>)
    requires !HasKey(es, key) && vs != {}
    ensures AddAll(es, key, vs) == es + [Entry(key, vs)]
  {
    if es != [] {
      assert es[0].key != key;
      assert forall i :: 0 <= i < |es| - 1 ==> es[1..][i] == es[i + 1];
      AddAllFresh(es[1..], key, vs);
      assert es == [es[0]] + es[1..];
    }
  }

  lemma {:induction false} ItemsRoundTrip(rs: seq<Range>, key: Key, acc: seq<Entry>, rest: Bits)
    requires VendorVector.EncodeEntries(rs).Ok? && key.IsValid()
    requires forall i :: 0 <= i < |rs| ==> rs[i].start <= rs[i].end
    ensures DecodeItems(VendorVector.EncodeEntries(rs).value + rest, |rs|, key, acc)
         == Ok((AddAll(acc, key, VendorVector.Cover(rs)), rest))
  {
    hide AddAll, VendorVector.EncodeEntry, VendorVector.DecodeEntry, VendorVector.Span;
    if rs == [] {
      assert VendorVector.EncodeEntries(rs).value + rest == rest;
      AddNothing(acc, key);
    } else {
      var first := VendorVector.EncodeEntry(rs[0]).value;
      var others := VendorVector.EncodeEntries(rs[1..]).value;
      VendorVector.EntryRoundTrip(rs[0], others + rest);
      assert first + others + rest == first + (others + rest);
      var acc' := AddAll(acc, key, VendorVector.Span(rs[0]));
      ItemsRoundTrip(rs[1..], key, acc', rest);
      AddAllTwice(acc, key, VendorVector.Span(rs[0]), VendorVector.Cover(rs[1..]));
    }
  }

  lemma OneRoundTrip(e: Entry, listed: set<nat>, count: nat, acc: seq<Entry>, rest: Bits)
    requires EncodeOne(e, listed).Ok? && e.key.IsValid() && 0 !in e.vendors && count > 0
    ensures DecodeAll(EncodeOne(e, listed).value + rest, count, acc)
         == DecodeAll(rest, count - 1, AddAll(acc, e.key, Spanned(e, listed).vendors))
  {
    var rs := RangesOf(e, listed);
    hide IntEncode, ToNat, Spans, Openings, VendorVector.Cover;
    SpannedSound(e, listed);
    OpeningsEmitted(Sorted(e.vendors), listed, 0, 0);
    var purpose := IntEncode(e.key.purposeId, PURPOSE_BITS).value;
    var kind := IntEncode(e.key.restrictionType, TYPE_BITS).value;
    var n := IntEncode(|rs|, VendorVector.ENTRIES_BITS).value;
    var entries := VendorVector.EncodeEntries(rs).value;
    var b3 := entries + rest;
    assert EncodeOne(e, listed).value + rest == purpose + (kind + (n + b3));
    TakeEncoded(e.key.purposeId, PURPOSE_BITS, kind + (n + b3));
    TakeEncoded(e.key.restrictionType, TYPE_BITS, n + b3);
    TakeEncoded(|rs|, VendorVector.ENTRIES_BITS, b3);
    ItemsRoundTrip(rs, e.key, acc, rest);
  }

  ghost predicate WellKeyed(es: seq<Entry>) {
    && DistinctKeys(es)
    && forall i :: 0 <= i < |es| ==> es[i].key.IsValid() && 0 !in es[i].vendors
  }

  lemma WellKeyedTail(es: seq<Entry>)
    requires es != [] && WellKeyed(es)
    ensures WellKeyed(es[1..])
  {
  }

  lemma HasKeyAppend(es: seq<Entry>, e: Entry, key: Key)
    requires !HasKey(es, key) && e.key != key
    ensures !HasKey(es + [e], key)
  {
  }

  lemma AddSpanned(es: seq<Entry>, listed: set<nat>, acc: seq<Entry>)
    requires es != [] && WellKeyed(es)
    requires forall i :: 0 <= i < |es| ==> !HasKey(acc, es[i].key)
    ensures var acc' := AddAll(acc, es[0].key, Spanned(es[0], listed).vendors);
            && acc' + SpannedAll(es[1..], listed) == acc + SpannedAll(es, listed)
            && forall i :: 0 <= i < |es| - 1 ==> !HasKey(acc', es[1..][i].key)
  {
    hide RangesOf, VendorVector.Cover, HasKey, AddAll;
    SpannedSound(es[0], listed);
    var s := Spanned(es[0], listed);
    if es[0].vendors == {} {
      AddNothing(acc, es[0].key);
    } else {
      AddAllFresh(acc, es[0].key, s.vendors);
      assert acc + [s] + SpannedAll(es[1..], listed) == acc + ([s] + SpannedAll(es[1..], listed));
      forall i | 0 <= i < |es| - 1 ensures !HasKey(acc + [s], es[1..][i].key) {
        HasKeyAppend(acc, s, es[i + 1].key);
      }
    }
  }

  lemma AddNothing(es: seq<Entry>, key: Key)
    ensures AddAll(es, key, {}) == es
  {
  }

  lemma EncodeAllCons(es: seq<Entry>, listed: set<nat>, rest: Bits)
    requires es != [] && EncodeAll(es, listed).Ok?
    ensures EncodeOne(es[0], listed).Ok? && EncodeAll(es[1..], listed).Ok?
    ensures EncodeAll(es, listed).value + rest
         == EncodeOne(es[0], listed).value + (EncodeAll(es[1..], listed).value + rest)
  {
    var first := EncodeOne(es[0], listed).value;
    var others := EncodeAll(es[1..], listed).value;
    assert first + others + rest == first + (others + rest);
  }

  lemma {:induction false} AllRoundTrip(es: seq<Entry>, listed: set<nat>, acc: seq<Entry>, rest: Bits)
    requires WellKeyed(es) && EncodeAll(es, listed).Ok?
    requires forall i :: 0 <= i < |es| ==> !HasKey(acc, es[i].key)
    ensures DecodeAll(EncodeAll(es, listed).value + rest, |es|, acc)
         == Ok((acc + SpannedAll(es, listed), rest))
  {
    if es == [] {
      assert EncodeAll(es, listed).value + rest == rest;
      assert acc + SpannedAll(es, listed) == acc;
    } else {
      EncodeAllCons(es, listed, rest);
      AddSpanned(es, listed, acc);
      var acc' := AddAll(acc, es[0].key, Spanned(es[0], listed).vendors);
      OneRoundTrip(es[0], listed, |es|, acc, EncodeAll(es[1..], listed).value + rest);
      WellKeyedTail(es);
      AllRoundTrip(es[1..], listed, acc', rest);
    }
  }

  /** Every stored vendor passes the check of the vendor list. */
  ghost predicate AllOk(es: seq<Entry>, gvl: Gvl) {
    forall i, v :: 0 <= i < |es| && v in es[i].vendors ==> IsOkToHave(Some(gvl), es[i].key, v)
  }

  lemma AllowedSpanned(e: Entry, gvl: Gvl)
    requires gvl.Valid() && 0 !in e.vendors
    requires forall v :: v in e.vendors ==> IsOkToHave(Some(gvl), e.key, v)
    ensures Allowed(gvl, Spanned(e, gvl.vendorIds)) == e
  {
    SpannedSound(e, gvl.vendorIds);
    forall v ensures v in Allowed(gvl, Spanned(e, gvl.vendorIds)).vendors <==> v in e.vendors {
      if v in Spanned(e, gvl.vendorIds).vendors && IsOkToHave(Some(gvl), e.key, v) {
        assert v in gvl.vendors.Keys;
        assert v in Spanned(e, gvl.vendorIds).vendors * gvl.vendorIds;
      }
    }
  }

  lemma {:induction false} AttachSpanned(es: seq<Entry>, gvl: Gvl)
    requires gvl.Valid() && WellKeyed(es) && AllOk(es, gvl)
    ensures Attach(gvl, SpannedAll(es, gvl.vendorIds)) == NonEmpty(es)
  {
    hide IsOkToHave, Spanned;
    if es != [] {
      AttachSpanned(es[1..], gvl);
      if es[0].vendors != {} {
        AllowedSpanned(es[0], gvl);
        var tail := SpannedAll(es[1..], gvl.vendorIds);
        assert Attach(gvl, [Spanned(es[0], gvl.vendorIds)] + tail)
            == [Allowed(gvl, Spanned(es[0], gvl.vendorIds))] + Attach(gvl, tail);
      }
    }
  }

  /** Restrictions that encode are read back, whatever follows them, with the ids their ranges
      run over; attaching the same vendor list then leaves exactly the original vendors of every
      restriction that has any. */
  lemma RoundTrip(es: seq<Entry>, gvl: Gvl, rest: Bits)
    requires gvl.Valid() && WellKeyed(es) && AllOk(es, gvl)
    requires Encode(es, gvl.vendorIds).Ok?
    ensures var bits := Encode(es, gvl.vendorIds).value;
            var spanned := SpannedAll(es, gvl.vendorIds);
            && Decode(bits + rest) == Ok(Decoded(spanned, |bits|))
            && Attach(gvl, spanned) == NonEmpty(es)
  {
    DecodeEncoded(es, gvl.vendorIds, rest);
    AttachSpanned(es, gvl);
  }

  lemma DecodeEncoded(es: seq<Entry>, listed: set<nat>, rest: Bits)
    requires WellKeyed(es) && Encode(es, listed).Ok?
    ensures Decode(Encode(es, listed).value + rest) == Ok(Decoded(SpannedAll(es, listed), |Encode(es, listed).value|))
  {
    var count := IntEncode(|es|, RESTRICTIONS_BITS).value;
    var all := EncodeAll(es, listed).value;
    assert count + all + rest == count + (all + rest);
    TakeEncoded(|es|, RESTRICTIONS_BITS, all + rest);
    AllRoundTrip(es, listed, [], rest);
    assert [] + SpannedAll(es, listed) == SpannedAll(es, listed);
  }

  // ---- The store, the encoder and the decoder as they run ----

  class PurposeRestrictionVector {
    var entries: seq<Entry>
    var gvl: Option<Gvl>
    var bitLength: nat

    ghost predicate Valid()
      reads this
    {
      DistinctKeys(entries) && forall i :: 0 <= i < |entries| ==> entries[i].key.IsValid()
    }

    constructor ()
      ensures Valid() && entries == [] && gvl == None && bitLength == 0
    {
      entries, gvl, bitLength := [], None, 0;
    }

    /** `add`: a vendor the list does not allow is ignored; an invalid restriction throws. */
    method Add(vendor: nat, key: Key) returns (r: Result<(), CodecError>)
      requires Valid()
      modifies this
      ensures Valid() && gvl == old(gvl)
      ensures r.Err? <==> IsOkToHave(gvl, key, vendor) && !key.IsValid()
      ensures r.Err? ==> r.error == ModelError
      ensures entries == if IsOkToHave(gvl, key, vendor) && key.IsValid()
                         then AddAll(old(entries), key, {vendor}) else old(entries)
    {
      if IsOkToHave(gvl, key, vendor) {
        if !key.IsValid() {
          return Err(ModelError);
        }
        if !HasKey(entries, key) {
          bitLength := 0;
        }
        AddAllKeys(entries, key, {vendor});
        entries := AddAll(entries, key, {vendor});
      }
      return Ok(());
    }

    /** The `gvl` setter: only the first vendor list counts, and it filters what is stored. */
    method SetGvl(list: Gvl)
      requires Valid()
      modifies this
      ensures Valid() && bitLength == old(bitLength)
      ensures old(gvl).None? ==> gvl == Some(list) && entries == Attach(list, old(entries))
      ensures old(gvl).Some? ==> gvl == old(gvl) && entries == old(entries)
    {
      if gvl.None? {
        gvl := Some(list);
        ghost var before := entries;
        for i := 0 to |entries|
          invariant gvl == Some(list) && bitLength == old(bitLength)
          invariant |entries| == |before|
          invariant forall j :: 0 <= j < |before| ==>
                                  entries[j] == if j < i then Allowed(list, before[j]) else before[j]
        {
          entries := entries[i := Allowed(list, entries[i])];
        }
        assert entries == Attach(list, before);
      }
    }
  }

  lemma {:induction false} AddAllKeys(es: seq<Entry>, key: Key, vs: set<nat>)
    requires DistinctKeys(es)
    ensures DistinctKeys(AddAll(es, key, vs))
    ensures forall i :: 0 <= i < |AddAll(es, key, vs)| ==>
                          AddAll(es, key, vs)[i].key == key || HasKey(es, AddAll(es, key, vs)[i].key)
  {
    if vs != {} && es != [] {
      var r := AddAll(es, key, vs);
      if es[0].key != key {
        AddAllKeys(es[1..], key, vs);
        forall i | 1 <= i < |r| ensures r[i].key != r[0].key && (r[i].key == key || HasKey(es, r[i].key)) {
          assert r[i] == AddAll(es[1..], key, vs)[i - 1];
          if r[i].key != key {
            var j :| 0 <= j < |es[1..]| && es[1..][j].key == r[i].key;
            assert es[j + 1].key == r[i].key;
          }
        }
      }
    }
  }

  /** Walks the sorted vendors, closing a range wherever a listed id lies before the next one. */
  method CollectRanges(vs: seq<nat>, listed: set<nat>) returns (newRanges: nat, ranges: seq<Range>)
    ensures ranges == Spans(vs, listed, 0, 0) && newRanges == Openings(vs, listed, 0, 0)
  {
    newRanges, ranges := 0, [];
    var c: nat := 0;
    for p := 0 to |vs|
      invariant Spans(vs, listed, 0, 0) == ranges + Spans(vs, listed, p, c)
      invariant Openings(vs, listed, 0, 0) == newRanges + Openings(vs, listed, p, c)
    {
      var start := if c == 0 then vs[p] else c;
      if c == 0 {
        newRanges := newRanges + 1;
      }
      if p == |vs| - 1 || vs[p + 1] > NextListed(listed, vs[p], vs[|vs| - 1]) {
        var closed := VendorVector.Range(start, vs[p]);
        assert ranges + ([closed] + Spans(vs, listed, p + 1, 0)) == ranges + [closed] + Spans(vs, listed, p + 1, 0);
        ranges := ranges + [closed];
        c := 0;
      } else {
        c := start;
      }
    }
  }

  /** `PurposeRestrictionVectorEncoder.encode` for one restriction. */
  method EncodeRestriction(e: Entry, listed: set<nat>) returns (r: Result<Bits, CodecError>)
    ensures r == EncodeOne(e, listed)
  {
    var purpose :- IntEncode(e.key.purposeId, PURPOSE_BITS);
    var kind :- IntEncode(e.key.restrictionType, TYPE_BITS);
    var newRanges, ranges := CollectRanges(Sorted(e.vendors), listed);
    var count :- IntEncode(newRanges, VendorVector.ENTRIES_BITS);
    var entries :- VendorVector.EncodeRangeList(ranges);
    return Ok(purpose + kind + count + entries);
  }

  method EncodeRestrictions(v: PurposeRestrictionVector, listed: set<nat>) returns (r: Result<Bits, CodecError>)
    ensures r == Encode(v.entries, listed)
  {
    hide IntEncode, EncodeOne;
    var out :- IntEncode(|v.entries|, RESTRICTIONS_BITS);
    ghost var count := out;
    var es := v.entries;
    assert es[0..] == es;
    for k := 0 to |es|
      invariant EncodeAll(es, listed).Ok? <==> EncodeAll(es[k..], listed).Ok?
      invariant EncodeAll(es, listed).Ok? ==>
                  count + EncodeAll(es, listed).value == out + EncodeAll(es[k..], listed).value
      invariant EncodeAll(es, listed).Err? ==> EncodeAll(es, listed) == EncodeAll(es[k..], listed)
    {
      assert es[k..][0] == es[k] && es[k..][1..] == es[k + 1..];
      var one :- EncodeRestriction(es[k], listed);
      out := out + one;
    }
    assert es[|es|..] == [] && out + EncodeAll([], listed).value == out;
    return Ok(out);
  }

  /** `PurposeRestrictionVectorEncoder.decode` */
  method DecodeRestrictions(b: Bits) returns (r: Result<PurposeRestrictionVector, CodecError>)
    ensures r.Ok? <==> Decode(b).Ok?
    ensures r.Err? ==> r.error == Decode(b).error
    ensures r.Ok? ==>
              && fresh(r.value) && r.value.Valid() && r.value.gvl == None
              && Decode(b) == Ok(Decoded(r.value.entries, r.value.bitLength))
  {
    assert b[0..] == b;
    TakeAtOffset(b, 0, RESTRICTIONS_BITS);
    var count :- IntDecode(Substr(b, 0, RESTRICTIONS_BITS), RESTRICTIONS_BITS);
    var t := RESTRICTIONS_BITS;
    var v := new PurposeRestrictionVector();
    ghost var spec := DecodeAll(b[t..], count, []);
    for i := 0 to count
      invariant fresh(v) && v.Valid() && v.gvl == None
      invariant 0 <= t <= |b|
      invariant spec == DecodeAll(b[t..], count - i, v.entries)
    {
      TakeAtOffset(b, t, PURPOSE_BITS);
      var purpose :- IntDecode(Substr(b, t, PURPOSE_BITS), PURPOSE_BITS);
      t := t + PURPOSE_BITS;
      TakeAtOffset(b, t, TYPE_BITS);
      var kind :- IntDecode(Substr(b, t, TYPE_BITS), TYPE_BITS);
      t := t + TYPE_BITS;
      TakeAtOffset(b, t, VendorVector.ENTRIES_BITS);
      var n :- IntDecode(Substr(b, t, VendorVector.ENTRIES_BITS), VendorVector.ENTRIES_BITS);
      t := t + VendorVector.ENTRIES_BITS;
      t :- ReadItems(b, t, n, Key(purpose, kind), v);
    }
    v.bitLength := t;
    return Ok(v);
  }

  /** The range entries of one restriction, added to `v`; returns the offset after them. */
  method ReadItems(b: Bits, from: nat, n: nat, key: Key, v: PurposeRestrictionVector)
    returns (r: Result<nat, CodecError>)
    requires v.Valid() && v.gvl == None && from <= |b|
    modifies v
    ensures v.Valid() && v.gvl == None
    ensures var spec := DecodeItems(b[from..], n, key, old(v.entries));
            && (r.Ok? <==> spec.Ok?)
            && (r.Err? ==> r.error == spec.error)
            && (r.Ok? ==> r.value <= |b| && spec.value == (v.entries, b[r.value..]))
  {
    var t := from;
    ghost var spec := DecodeItems(b[from..], n, key, v.entries);
    for p := 0 to n
      invariant v.Valid() && v.gvl == None
      invariant 0 <= t <= |b|
      invariant spec == DecodeItems(b[t..], n - p, key, v.entries)
    {
      var isRange := t < |b| && b[t];
      t := t + 1;
      if t > |b| {
        return Err(DecodingError);
      }
      assert b[t - 1..][1..] == b[t..];
      TakeAtOffset(b, t, VendorVector.VENDOR_BITS);
      var first :- IntDecode(Substr(b, t, VendorVector.VENDOR_BITS), VendorVector.VENDOR_BITS);
      t := t + VendorVector.VENDOR_BITS;
      var last := first;
      if isRange {
        TakeAtOffset(b, t, VendorVector.VENDOR_BITS);
        last :- IntDecode(Substr(b, t, VendorVector.VENDOR_BITS), VendorVector.VENDOR_BITS);
        t := t + VendorVector.VENDOR_BITS;
        if last < first {
          return Err(DecodingError);
        }
      }
      var _ :- AddSpan(v, key, first, last);
    }
    return Ok(t);
  }

  method AddSpan(v: PurposeRestrictionVector, key: Key, first: nat, last: nat) returns (r: Result<(), CodecError>)
    requires v.Valid() && v.gvl == None && first <= last
    modifies v
    ensures v.Valid() && v.gvl == None
    ensures r == if key.IsValid() then Ok(()) else Err(ModelError)
    ensures r.Ok? ==> v.entries == AddAll(old(v.entries), key, VendorVector.Span(VendorVector.Range(first, last)))
  {
    ghost var before := v.entries;
    var done: set<nat> := {};
    for m := first to last + 1
      invariant v.Valid() && v.gvl == None
      invariant key.IsValid() || m == first
      invariant forall x :: x in done <==> first <= x < m
      invariant v.entries == AddAll(before, key, done)
    {
      var _ :- v.Add(m, key);
      AddAllTwice(before, key, done, {m});
      done := done + {m};
    }
    var span := VendorVector.Span(VendorVector.Range(first, last));
    forall x: nat ensures x in span <==> first <= x <= last {
      assert VendorVector.Range(first, last).Has(x) <==> first <= x <= last;
    }
    assert done == span;
    return Ok(());
  }
}
