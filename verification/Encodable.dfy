/** Which models can be encoded: every emitted field fits its place. */
module Encodable {
  import opened Wrappers
  import opened Bits
  import opened Vector
  import opened Fields
  import opened Segments
  import VendorVector
  import Restrictions
  import Base64Url
  import TcString
  import PreEncoder
  import opened VendorList

  // ---- Range entries ----

  lemma {:induction false} EntriesFit(rs: seq<VendorVector.Range>)
    ensures VendorVector.EncodeEntries(rs).Ok? <==>
              forall i :: 0 <= i < |rs| ==> rs[i].start <= 65535 && rs[i].end <= 65535
  {
    if rs != [] {
      Pow2Values();
      IntRoundTrip(rs[0].start, VendorVector.VENDOR_BITS);
      IntRoundTrip(rs[0].end, VendorVector.VENDOR_BITS);
      EntriesFit(rs[1..]);
      assert forall i :: 1 <= i < |rs| ==> rs[i] == rs[1..][i - 1];
    }
  }

  lemma {:induction false} CoverBounded(rs: seq<VendorVector.Range>, bound: nat)
    requires forall i :: 0 <= i < |rs| ==> rs[i].end <= bound
    ensures forall x :: x in VendorVector.Cover(rs) ==> x <= bound
  {
    if rs != [] {
      CoverBounded(rs[1..], bound);
    }
  }

  lemma {:induction false} SpansEndAtVendors(vs: seq<nat>, listed: set<nat>, p: nat, c: nat)
    ensures forall i :: 0 <= i < |Restrictions.Spans(vs, listed, p, c)| ==> Restrictions.Spans(vs, listed, p, c)[i].end in vs
    decreases |vs| - p
  {
    if p < |vs| {
      var start := if c == 0 then vs[p] else c;
      SpansEndAtVendors(vs, listed, p + 1, 0);
      SpansEndAtVendors(vs, listed, p + 1, start);
    }
  }

  /** The ranges of a restriction fit exactly when its vendors do. */
  lemma RangesFit(e: Restrictions.Entry, listed: set<nat>)
    requires 0 !in e.vendors
    ensures VendorVector.EncodeEntries(Restrictions.RangesOf(e, listed)).Ok? <==> MaxId(e.vendors) <= 65535
  {
    var vs, rs := Restrictions.Sorted(e.vendors), Restrictions.RangesOf(e, listed);
    EntriesFit(rs);
    Restrictions.SpannedSound(e, listed);
    SpansEndAtVendors(vs, listed, 0, 0);
    if VendorVector.EncodeEntries(rs).Ok? {
      CoverBounded(rs, 65535);
    }
  }

  // ---- Restrictions ----

  predicate RestrictionFits(e: Restrictions.Entry, listed: set<nat>) {
    && e.key.purposeId < 64
    && |Restrictions.RangesOf(e, listed)| < 4096
    && MaxId(e.vendors) <= 65535
  }

  lemma RestrictionFitsIff(e: Restrictions.Entry, listed: set<nat>)
    requires e.key.IsValid() && 0 !in e.vendors
    ensures Restrictions.EncodeOne(e, listed).Ok? <==> RestrictionFits(e, listed)
  {
    hide IntEncode, VendorVector.EncodeEntries, Restrictions.Spans, Restrictions.Openings;
    Pow2Values();
    IntRoundTrip(e.key.purposeId, Restrictions.PURPOSE_BITS);
    IntRoundTrip(e.key.restrictionType, Restrictions.TYPE_BITS);
    IntRoundTrip(|Restrictions.RangesOf(e, listed)|, VendorVector.ENTRIES_BITS);
    Restrictions.OpeningsEmitted(Restrictions.Sorted(e.vendors), listed, 0, 0);
    RangesFit(e, listed);
  }

  lemma {:induction false} AllRestrictionsFit(es: seq<Restrictions.Entry>, listed: set<nat>)
    requires Restrictions.WellKeyed(es)
    ensures Restrictions.EncodeAll(es, listed).Ok? <==> forall e :: e in es ==> RestrictionFits(e, listed)
  {
    hide Restrictions.EncodeOne, RestrictionFits;
    if es != [] {
      Restrictions.WellKeyedTail(es);
      RestrictionFitsIff(es[0], listed);
      AllRestrictionsFit(es[1..], listed);
      assert es == [es[0]] + es[1..];
    }
  }

  predicate RestrictionsFit(es: seq<Restrictions.Entry>, listed: set<nat>) {
    |es| < 4096 && forall e :: e in es ==> RestrictionFits(e, listed)
  }

  /** Restrictions encode exactly when they are fewer than 4096 and each has a purpose below 64,
      fewer than 4096 ranges and no vendor above 65535. */
  lemma RestrictionsFitIff(es: seq<Restrictions.Entry>, listed: set<nat>)
    requires Restrictions.WellKeyed(es)
    ensures Restrictions.Encode(es, listed).Ok? <==> RestrictionsFit(es, listed)
  {
    hide IntEncode, Restrictions.EncodeAll, RestrictionFits;
    Pow2Values();
    IntRoundTrip(|es|, Restrictions.RESTRICTIONS_BITS);
    AllRestrictionsFit(es, listed);
  }

  // ---- Fields ----

  predicate IsLetter(c: char) {
    'A' <= c <= 'Z' || 'a' <= c <= 'z'
  }

  /** The vendor sets that encode. */
  predicate VectorFits(ids: set<nat>) {
    MaxId(ids) <= 65535 && !(MaxId(ids) >= 65533 && VendorVector.Isolated(ids) && |ids| == 4096)
  }

  /** What encoding asks of a value. */
  predicate Fits(f: Field, v: Value, width: Option<nat>, listed: set<nat>) {
    match EncoderOf(f)
    case IntEncoder => v.Num? && width.Some? && width.value > 0 && 0 <= v.n < Pow2(width.value)
    case BooleanEncoder => true
    case DateEncoder => v.Time? && width.Some? && width.value > 0 && 0 <= Deciseconds(v.ms) < Pow2(width.value)
    case LangEncoder => v.Code? && |v.s| >= 2 && IsLetter(v.s[0]) && IsLetter(v.s[1])
    case FixedVectorEncoder => true
    case VendorVectorEncoder => v.Ids? && VectorFits(v.ids)
    case RestrictionEncoder => v.Restr? && RestrictionsFit(v.entries, listed)
  }

  lemma LangFits(s: string)
    ensures LangEncode(s).Ok? <==> |s| >= 2 && IsLetter(s[0]) && IsLetter(s[1])
  {
    if |s| >= 2 {
      Pow2Values();
      IntRoundTrip(Upper(s[0]) as int - 65, 6);
      IntRoundTrip(Upper(s[1]) as int - 65, 6);
    }
  }

  lemma FieldFits(f: Field, v: Value, width: Option<nat>, listed: set<nat>)
    requires HasType(f, v)
    requires width.Some? <==> !EncoderOf(f).VendorVectorEncoder? && !EncoderOf(f).RestrictionEncoder?
    ensures EncodeValue(f, v, width, listed).Ok? <==> Fits(f, v, width, listed)
  {
    hide EncoderOf, IntEncode, LangEncode, Pow2, RestrictionsFit, VendorVector.Encode, Restrictions.Encode;
    match EncoderOf(f)
    case IntEncoder => IntRoundTrip(v.n, width.value);
    case DateEncoder => IntRoundTrip(Deciseconds(v.ms), width.value);
    case LangEncoder => LangFits(v.s);
    case VendorVectorEncoder => VendorVector.EncodeThrowsExactly(v.ids);
    case RestrictionEncoder => RestrictionsFitIff(v.entries, listed);
    case _ =>
  }

  // ---- Segments and strings ----

  predicate FieldIn(m: Model, f: Field, listed: set<nat>)
    requires HasCount(m) && f in m
  {
    Fits(f, m[f], WidthOf(m, f), listed)
  }

  lemma {:induction false} FieldsFit(fs: seq<Field>, m: Model, listed: set<nat>)
    requires WellTyped(m)
    ensures EncodeFields(fs, m, listed).Ok? <==> forall f :: f in fs ==> FieldIn(m, f, listed)
  {
    hide EncodeValue, Fits;
    if fs != [] {
      var f := fs[0];
      FieldFits(f, m[f], WidthOf(m, f), listed);
      FieldsFit(fs[1..], m, listed);
      assert EncodeValue(f, m[f], WidthOf(m, f), listed).Ok? <==> FieldIn(m, f, listed);
      assert forall g :: g in fs <==> g == f || g in fs[1..];
    }
  }

  lemma VersionBits(m: Model, listed: set<nat>)
    requires WellTyped(m) && EncodeFields(FieldSequence(Core), m, listed).Ok?
    ensures EncodeFields(FieldSequence(Core), m, listed).value != []
  {
    hide Restrictions.Encode, VendorVector.Encode;
    var fs := FieldSequence(Core);
    assert fs[0] == Version && m[Version].Num?;
    IntRoundTrip(m[Version].n, 6);
    assert EncodeValue(fs[0], m[fs[0]], WidthOf(m, fs[0]), listed).value != [];
  }

  ghost predicate SegmentFits(g: Segment, m: Model, listed: set<nat>)
    requires WellTyped(m)
  {
    forall f :: f in FieldSequence(g) ==> FieldIn(m, f, listed)
  }

  lemma SegmentFitsIff(g: Segment, m: Model, listed: set<nat>)
    requires WellTyped(m)
    ensures Segments.Encode(g, m, listed).Ok? <==> SegmentFits(g, m, listed)
  {
    hide FieldSequence, EncodeFields, FieldIn, IntEncode, Base64Url.Pad;
    FieldsFit(FieldSequence(g), m, listed);
    Pow2Values();
    IntRoundTrip(SegmentId(g), SEGMENT_TYPE_BITS);
    if g.Core? && EncodeFields(FieldSequence(g), m, listed).Ok? {
      VersionBits(m, listed);
    }
  }

  /** Every field of every emitted segment fits. */
  ghost predicate AllFit(gs: seq<Segment>, m: Model, listed: set<nat>)
    requires WellTyped(m)
  {
    forall g :: g in gs ==> SegmentFits(g, m, listed)
  }

  lemma {:induction false} PartsFit(gs: seq<Segment>, m: Model, listed: set<nat>)
    requires WellTyped(m)
    ensures TcString.EncodeParts(gs, m, listed).Ok? <==> AllFit(gs, m, listed)
  {
    hide SegmentFits, Segments.Encode;
    if gs != [] {
      SegmentFitsIff(gs[0], m, listed);
      PartsFit(gs[1..], m, listed);
      assert gs == [gs[0]] + gs[1..];
    }
  }

  /** A model encodes exactly when every emitted field fits. */
  lemma EncodesIff(gs: seq<Segment>, m: Model, listed: set<nat>)
    requires WellTyped(m)
    ensures TcString.Encode(gs, m, listed).Ok? <==> AllFit(gs, m, listed)
  {
    hide TcString.EncodeParts, AllFit;
    PartsFit(gs, m, listed);
  }

  /** A version-2 model goes through encoding and decoding exactly when every emitted field fits and
      the consent-manager id, if it is emitted, exceeds 1. */
  lemma GoesThroughIff(gs: seq<Segment>, m: Model, t: Model, listed: set<nat>)
    requires gs != [] && WellTyped(m) && m[Version] == Num(2) && TcString.Ready(gs, t)
    ensures var s := TcString.Encode(gs, m, listed);
            s.Ok? && TcString.Decode(s.value, t).Ok?
            <==> AllFit(gs, m, listed) && (Core in gs ==> m[CmpId].n > 1)
  {
    hide TcString.Encode, TcString.Decode, AllFit, TcString.RestoredAll;
    EncodesIff(gs, m, listed);
    if TcString.Encode(gs, m, listed).Ok? {
      TcString.RoundTrip(gs, m, t, listed);
    }
  }

  // ---- A model that encodes and is then refused ----

  const ALL_FIELDS: set<Field> := {
    Version, Created, LastUpdated, CmpId, CmpVersion, ConsentScreen, ConsentLanguage,
    VendorListVersion, PolicyVersion, IsServiceSpecific, UseNonStandardTexts,
    SpecialFeatureOptins, PurposeConsents, PurposeLegitimateInterests, PurposeOneTreatment,
    PublisherCountryCode, VendorConsents, VendorLegitimateInterests, PublisherRestrictions,
    VendorsDisclosed, VendorsAllowed, PublisherConsents, PublisherLegitimateInterests,
    NumCustomPurposes, PublisherCustomConsents, PublisherCustomLegitimateInterests}

  /** The value a new model has, created at time `now`. */
  function DefaultValue(f: Field, now: int): Value {
    match EncoderOf(f)
    case IntEncoder => Num(if f.Version? then 2 else if f.PolicyVersion? then 5 else 0)
    case BooleanEncoder => Flag(f.IsServiceSpecific?)
    case DateEncoder => Time(now)
    case LangEncoder => Code(if f.ConsentLanguage? then "EN" else "AA")
    case FixedVectorEncoder | VendorVectorEncoder => Ids({})
    case RestrictionEncoder => Restr([])
  }

  function DefaultModel(now: int): Model {
    map f | f in ALL_FIELDS :: DefaultValue(f, now)
  }

  lemma DefaultWellTyped(now: int)
    ensures WellTyped(DefaultModel(now))
    ensures forall f: Field :: f in DefaultModel(now) && DefaultModel(now)[f] == DefaultValue(f, now)
  {
    forall f: Field ensures f in ALL_FIELDS && HasType(f, DefaultValue(f, now)) {
      DefaultHasType(f, now);
    }
  }

  lemma DefaultHasType(f: Field, now: int)
    ensures f in ALL_FIELDS && HasType(f, DefaultValue(f, now))
  {
    match f
    case _ =>
  }

  lemma DefaultValueFits(f: Field, now: int, width: Option<nat>, listed: set<nat>)
    requires 0 <= Deciseconds(now) < Pow2(36)
    requires EncoderOf(f).IntEncoder? ==> width.Some? && width.value >= 6
    requires EncoderOf(f).DateEncoder? ==> width == Some(36)
    ensures Fits(f, DefaultValue(f, now), width, listed)
  {
    hide EncoderOf, Deciseconds, Pow2;
    if EncoderOf(f).IntEncoder? {
      Pow2AtLeast(width.value);
    }
  }

  lemma {:induction false} Pow2AtLeast(width: nat)
    requires width >= 6
    ensures Pow2(width) >= 64
  {
    if width == 6 {
      Pow2Values();
    } else {
      Pow2AtLeast(width - 1);
    }
  }

  /** The value a new model has once it has been processed for a vendor list. */
  function ProcessedValue(f: Field, now: int, gvl: Gvl): Value {
    match f
    case ConsentLanguage =>
      Code(PreEncoder.UpperAll(if |gvl.language| < 2 then gvl.language else gvl.language[..2]))
    case VendorListVersion => Num(gvl.version)
    case PolicyVersion => Num(gvl.policyVersion)
    case _ => DefaultValue(f, now)
  }

  lemma NothingKept(gvl: Gvl, basis: PreEncoder.Basis, specific: bool, rs: seq<Restrictions.Entry>)
    ensures PreEncoder.Kept(gvl, {}, basis, specific, rs) == {} && Restrictions.Attach(gvl, []) == []
  {
  }

  /** A new model has nothing to filter. */
  lemma DefaultUnfiltered(now: int, gvl: Gvl, attached: bool)
    ensures WellTyped(DefaultModel(now)) && PreEncoder.FilterBases(DefaultModel(now), gvl, attached) == DefaultModel(now)
  {
    hide PreEncoder.Kept, Restrictions.Attach, DefaultModel, WellTyped;
    DefaultWellTyped(now);
    var m := DefaultModel(now);
    NothingKept(gvl, PreEncoder.LegInt, m[IsServiceSpecific].b, []);
    NothingKept(gvl, PreEncoder.Consent, m[IsServiceSpecific].b, []);
    assert m[PublisherRestrictions] == Restr([]) && m[PurposeLegitimateInterests] == Ids({});
    assert m[VendorLegitimateInterests] == Ids({}) && m[VendorConsents] == Ids({});
    SameUpdate(m, PublisherRestrictions);
    SameUpdate(m, PurposeLegitimateInterests);
    SameUpdate(m, VendorLegitimateInterests);
    SameUpdate(m, VendorConsents);
    assert {} - PreEncoder.LEG_INT_EXCLUDED == {};
  }

  lemma SameUpdate(m: Model, f: Field)
    requires f in m
    ensures m[f := m[f]] == m
  {
  }

  lemma DefaultProcessed(now: int, gvl: Gvl, attached: bool, f: Field)
    ensures WellTyped(DefaultModel(now))
    ensures var p := PreEncoder.Process(DefaultModel(now), gvl, attached);
            WellTyped(p) && p[f] == ProcessedValue(f, now, gvl)
  {
    hide PreEncoder.FilterBases, PreEncoder.UpperAll, DefaultModel, WellTyped, EncoderOf;
    DefaultWellTyped(now);
    DefaultUnfiltered(now, gvl, attached);
    PreEncoder.TakeListValuesWellTyped(DefaultModel(now), gvl);
    DefaultVersion(now);
  }

  lemma DefaultVersion(now: int)
    ensures DefaultValue(Version, now) == Num(2)
  {
  }

  /** What the vendor list has to have for a new model to encode. */
  predicate ListFits(gvl: Gvl) {
    && gvl.version < 4096 && gvl.policyVersion < 64
    && |gvl.language| >= 2 && IsLetter(gvl.language[0]) && IsLetter(gvl.language[1])
  }

  lemma LanguageFits(s: string)
    ensures var u := PreEncoder.UpperAll(if |s| < 2 then s else s[..2]);
            |u| >= 2 && IsLetter(u[0]) && IsLetter(u[1]) <==> |s| >= 2 && IsLetter(s[0]) && IsLetter(s[1])
  {
  }

  lemma ProcessedFits(f: Field, now: int, gvl: Gvl, width: Option<nat>, listed: set<nat>)
    requires 0 <= Deciseconds(now) < Pow2(36)
    requires EncoderOf(f).IntEncoder? ==> width == BitLength(f)
    requires EncoderOf(f).DateEncoder? ==> width == Some(36)
    ensures ListFits(gvl) ==> Fits(f, ProcessedValue(f, now, gvl), width, listed)
    ensures f.ConsentLanguage? || f.VendorListVersion? || f.PolicyVersion? ==>
              (Fits(f, ProcessedValue(f, now, gvl), width, listed) <==> FieldOfListFits(f, gvl))
  {
    hide Deciseconds, Pow2, PreEncoder.UpperAll;
    Pow2Values();
    if f.ConsentLanguage? {
      LanguageFits(gvl.language);
    } else if !f.VendorListVersion? && !f.PolicyVersion? {
      hide Fits, DefaultValue;
      DefaultValueFits(f, now, width, listed);
    }
  }

  predicate FieldOfListFits(f: Field, gvl: Gvl) {
    && (f.VendorListVersion? ==> gvl.version < 4096)
    && (f.PolicyVersion? ==> gvl.policyVersion < 64)
    && (f.ConsentLanguage? ==> |gvl.language| >= 2 && IsLetter(gvl.language[0]) && IsLetter(gvl.language[1]))
  }

  const DEFAULT_SEGMENTS := [Core, Disclosed, PublisherTC]

  /** A new model, processed for a vendor list, encodes exactly when the list's own values fit. */
  lemma DefaultEncodes(now: int, gvl: Gvl, attached: bool, listed: set<nat>)
    requires 0 <= Deciseconds(now) < Pow2(36)
    ensures WellTyped(DefaultModel(now)) && WellTyped(PreEncoder.Process(DefaultModel(now), gvl, attached))
    ensures TcString.Encode(DEFAULT_SEGMENTS, PreEncoder.Process(DefaultModel(now), gvl, attached), listed).Ok?
            <==> ListFits(gvl)
  {
    hide TcString.Encode, PreEncoder.Process, ProcessedValue, Fits, DefaultModel, Pow2, Deciseconds;
    DefaultProcessed(now, gvl, attached, Version);
    var p := PreEncoder.Process(DefaultModel(now), gvl, attached);
    forall f: Field
      ensures ListFits(gvl) ==> FieldIn(p, f, listed)
      ensures f.ConsentLanguage? || f.VendorListVersion? || f.PolicyVersion? ==>
                (FieldIn(p, f, listed) <==> FieldOfListFits(f, gvl))
    {
      DefaultProcessed(now, gvl, attached, f);
      ProcessedFits(f, now, gvl, WidthOf(p, f), listed);
    }
    EncodesIff(DEFAULT_SEGMENTS, p, listed);
    if AllFit(DEFAULT_SEGMENTS, p, listed) {
      ListFieldsInCore();
      assert SegmentFits(Core, p, listed);
    }
  }

  lemma ListFieldsInCore()
    ensures Core in DEFAULT_SEGMENTS
    ensures {ConsentLanguage, VendorListVersion, PolicyVersion} <= set f | f in FieldSequence(Core)
  {
    var fs := FieldSequence(Core);
    assert fs[6] == ConsentLanguage && fs[7] == VendorListVersion && fs[8] == PolicyVersion;
  }

  /** A new model, whose consent-manager id nobody has set, encodes with any vendor list whose values
      fit, and is refused when decoded. */
  lemma DefaultRefused(now: int, gvl: Gvl, attached: bool, t: Model)
    requires 0 <= Deciseconds(now) < Pow2(36) && ListFits(gvl) && HasCount(t)
    ensures WellTyped(DefaultModel(now)) && WellTyped(PreEncoder.Process(DefaultModel(now), gvl, attached))
    ensures var s := TcString.Encode(DEFAULT_SEGMENTS, PreEncoder.Process(DefaultModel(now), gvl, attached), gvl.vendorIds);
            s.Ok? && TcString.Decode(s.value, t) == Err(ModelError)
  {
    hide TcString.Encode, TcString.Decode, TcString.RestoredAll, PreEncoder.Process, DefaultModel, Pow2;
    DefaultEncodes(now, gvl, attached, gvl.vendorIds);
    var p := PreEncoder.Process(DefaultModel(now), gvl, attached);
    DefaultProcessed(now, gvl, attached, Version);
    DefaultProcessed(now, gvl, attached, CmpId);
    ListFieldsInCore();
    TcString.RoundTrip(DEFAULT_SEGMENTS, p, t, gvl.vendorIds);
  }
}
