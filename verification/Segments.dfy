/** Segments of a consent string: a list of fields behind an optional segment type. */
module Segments {
  import opened Wrappers
  import opened Bits
  import opened Fields
  import Base64Url

  datatype Segment = Core | Disclosed | Allowed | PublisherTC

  const SEGMENT_TYPE_BITS := 3
  const VERSION_BITS := 6

  function SegmentId(g: Segment): nat {
    match g
    case Core => 0
    case Disclosed => 1
    case Allowed => 2
    case PublisherTC => 3
  }

  function SegmentOf(id: nat): Option<Segment> {
    match id
    case 0 => Some(Core)
    case 1 => Some(Disclosed)
    case 2 => Some(Allowed)
    case 3 => Some(PublisherTC)
    case _ => None
  }

  /** The field sequence of version 2. */
  function FieldSequence(g: Segment): seq<Field> {
    match g
    case Core => [
      Version, Created, LastUpdated, CmpId, CmpVersion, ConsentScreen, ConsentLanguage,
      VendorListVersion, PolicyVersion, IsServiceSpecific, UseNonStandardTexts,
      SpecialFeatureOptins, PurposeConsents, PurposeLegitimateInterests, PurposeOneTreatment,
      PublisherCountryCode, VendorConsents, VendorLegitimateInterests, PublisherRestrictions]
    case Disclosed => [VendorsDisclosed]
    case Allowed => [VendorsAllowed]
    case PublisherTC => [
      PublisherConsents, PublisherLegitimateInterests, NumCustomPurposes,
      PublisherCustomConsents, PublisherCustomLegitimateInterests]
  }

  // ---- Lists of fields ----

  function EncodeFields(fs: seq<Field>, m: Model, listed: set<nat>): Result<Bits, CodecError>
    requires WellTyped(m)
  {
    if fs == [] then Ok([]) else
      var first :- EncodeValue(fs[0], m[fs[0]], WidthOf(m, fs[0]), listed);
      var others :- EncodeFields(fs[1..], m, listed);
      Ok(first + others)
  }

  function Drop(b: Bits, n: nat): Bits {
    if n <= |b| then b[n..] else []
  }

  /** Decodes one field off the front of `b` into `t`. A field of width 0 is skipped. */
  function DecodeField(f: Field, b: Bits, t: Model): (r: Result<(Model, Bits), CodecError>)
    requires HasCount(t)
    ensures r.Ok? ==> HasCount(r.value.0)
  {
    match WidthOf(t, f)
    case None =>
      var (v, used) :- DecodeVariable(f, b);
      var t' :- Assign(t, f, v);
      Ok((t', Drop(b, used)))
    case Some(w) =>
      if w == 0 then
        Ok((t, b))
      else
        var v :- DecodeFixed(f, Substr(b, 0, w), w);
        var t' :- Assign(t, f, v);
        Ok((t', Drop(b, w)))
  }

  /** Decodes `fs` one after the other into `t`. */
  function DecodeFields(fs: seq<Field>, b: Bits, t: Model): (r: Result<Model, CodecError>)
    requires HasCount(t)
    ensures r.Ok? ==> HasCount(r.value)
  {
    if fs == [] then Ok(t) else
      var (t', rest) :- DecodeField(fs[0], b, t);
      DecodeFields(fs[1..], rest, t')
  }

  /** The model that decoding has made of `t` when it ends, whether by an error or not. */
  function FieldsReached(fs: seq<Field>, b: Bits, t: Model): (r: Model)
    requires HasCount(t)
    ensures HasCount(r)
  {
    if fs == [] then t else
      match DecodeField(fs[0], b, t)
      case Err(_) => t
      case Ok(next) => FieldsReached(fs[1..], next.1, next.0)
  }

  function At(t: Model, f: Field): Option<Value> {
    if f in t then Some(t[f]) else None
  }

  lemma AssignedAlone(t: Model, f: Field, v: Value, other: Field)
    requires Assign(t, f, v).Ok? && other != f
    ensures At(Assign(t, f, v).value, other) == At(t, other)
  {
  }

  lemma FieldDecodedAlone(f: Field, b: Bits, t: Model, other: Field)
    requires HasCount(t) && DecodeField(f, b, t).Ok? && other != f
    ensures At(DecodeField(f, b, t).value.0, other) == At(t, other)
  {
    hide DecodeFixed, DecodeVariable, WidthOf, Assign, At;
    var t' := DecodeField(f, b, t).value.0;
    if t' != t {
      var w := WidthOf(t, f);
      var v := if w.None? then DecodeVariable(f, b).value.0 else DecodeFixed(f, Substr(b, 0, w.value), w.value).value;
      AssignedAlone(t, f, v, other);
    }
  }

  /** Decoding that succeeds reaches its result; decoding that fails has still left alone every field
      it is not about. */
  lemma {:induction false} FieldsReachedMeans(fs: seq<Field>, b: Bits, t: Model, other: Field)
    requires HasCount(t)
    ensures var spec := DecodeFields(fs, b, t); spec.Ok? ==> FieldsReached(fs, b, t) == spec.value
    ensures other !in fs ==> At(FieldsReached(fs, b, t), other) == At(t, other)
  {
    hide DecodeField, At;
    if fs != [] && DecodeField(fs[0], b, t).Ok? {
      var next := DecodeField(fs[0], b, t).value;
      FieldsReachedMeans(fs[1..], next.1, next.0, other);
      if other !in fs {
        assert other != fs[0] && other !in fs[1..];
        FieldDecodedAlone(fs[0], b, t, other);
      }
    }
  }

  /** `t` with every field of `fs` that takes up bits set to the normal form of `m`'s value. */
  function Restored(fs: seq<Field>, m: Model, t: Model, listed: set<nat>): Model
    requires WellTyped(m)
  {
    if fs == [] then t else
      var w := WidthOf(m, fs[0]);
      Restored(fs[1..], m, if w == Some(0) then t else t[fs[0] := Normal(fs[0], m[fs[0]], w, listed)], listed)
  }

  /** The number of custom purposes is known before the vectors that depend on it. */
  ghost predicate CustomReady(fs: seq<Field>, m: Model, t: Model)
    requires HasCount(m) && HasCount(t)
  {
    t[NumCustomPurposes] == m[NumCustomPurposes]
    || forall i :: 0 <= i < |fs| && IsPublisherCustom(fs[i]) ==> NumCustomPurposes in fs[..i]
  }

  predicate CmpIdRefused(fs: seq<Field>, m: Model)
    requires WellTyped(m)
  {
    CmpId in fs && m[CmpId].n <= 1
  }

  /** One field is decoded to its normal form, and what follows it is decoded next. */
  lemma FieldStep(fs: seq<Field>, m: Model, t: Model, listed: set<nat>, tail: Bits)
    requires fs != [] && WellTyped(m) && HasCount(t) && CustomReady(fs, m, t)
    requires EncodeValue(fs[0], m[fs[0]], WidthOf(m, fs[0]), listed).Ok?
    requires !CmpIdRefused([fs[0]], m)
    ensures var f, w := fs[0], WidthOf(m, fs[0]);
            var b := EncodeValue(f, m[f], w, listed).value;
            var t' := if w == Some(0) then t else t[f := Normal(f, m[f], w, listed)];
            && HasCount(t')
            && DecodeFields(fs, b + tail, t) == DecodeFields(fs[1..], tail, t')
            && CustomReady(fs[1..], m, t')
  {
    var f, w := fs[0], WidthOf(m, fs[0]);
    var b := EncodeValue(f, m[f], w, listed).value;
    if IsPublisherCustom(f) {
      assert fs[..0] == [];
    }
    ReadyTail(fs, m, t);
    if w.None? {
      VariableFieldRoundTrip(f, m[f], listed, tail);
      assert Drop(b + tail, |b|) == tail;
    } else if w == Some(0) {
      assert b + tail == tail;
    } else {
      FixedFieldRoundTrip(f, m[f], w.value, listed);
      assert Substr(b + tail, 0, w.value) == b;
      assert Drop(b + tail, w.value) == tail;
    }
  }

  lemma ReadyTail(fs: seq<Field>, m: Model, t: Model)
    requires fs != [] && HasCount(m) && HasCount(t) && CustomReady(fs, m, t)
    ensures CustomReady(fs[1..], m, t) || fs[0].NumCustomPurposes?
  {
    if !fs[0].NumCustomPurposes? && t[NumCustomPurposes] != m[NumCustomPurposes] {
      forall i | 0 <= i < |fs| - 1 && IsPublisherCustom(fs[1..][i]) ensures NumCustomPurposes in fs[1..][..i] {
        assert NumCustomPurposes in fs[..i + 1];
        assert fs[..i + 1] == [fs[0]] + fs[1..][..i];
      }
    }
  }

  lemma CmpIdStep(fs: seq<Field>, m: Model, t: Model, listed: set<nat>, tail: Bits)
    requires fs != [] && WellTyped(m) && HasCount(t) && CmpIdRefused([fs[0]], m)
    requires EncodeValue(fs[0], m[fs[0]], WidthOf(m, fs[0]), listed).Ok?
    ensures var b := EncodeValue(fs[0], m[fs[0]], WidthOf(m, fs[0]), listed).value;
            DecodeFields(fs, b + tail, t) == Err(ModelError)
  {
    assert fs[0] == CmpId;
    var b := EncodeValue(CmpId, m[CmpId], Some(12), listed).value;
    FixedFieldRoundTrip(CmpId, m[CmpId], 12, listed);
    assert Substr(b + tail, 0, 12) == b;
  }

  /** Encoded fields decode to their normal forms, whatever follows them; the one thing that can
      go wrong is a CMP id below 2, which encodes but which the model refuses to take back. */
  lemma {:induction false} FieldsRoundTrip(fs: seq<Field>, m: Model, t: Model, listed: set<nat>, rest: Bits)
    requires WellTyped(m) && HasCount(t) && CustomReady(fs, m, t)
    requires EncodeFields(fs, m, listed).Ok?
    ensures DecodeFields(fs, EncodeFields(fs, m, listed).value + rest, t)
         == if CmpIdRefused(fs, m) then Err(ModelError) else Ok(Restored(fs, m, t, listed))
  {
    hide EncodeValue, DecodeFields, Normal, CustomReady;
    if fs == [] {
      DecodeNothing(EncodeFields(fs, m, listed).value + rest, t);
    } else {
      var f, w := fs[0], WidthOf(m, fs[0]);
      var b := EncodeValue(f, m[f], w, listed).value;
      var others := EncodeFields(fs[1..], m, listed).value;
      assert b + others + rest == b + (others + rest);
      assert CmpIdRefused(fs, m) <==> CmpIdRefused([f], m) || CmpIdRefused(fs[1..], m);
      if CmpIdRefused([f], m) {
        CmpIdStep(fs, m, t, listed, others + rest);
      } else {
        FieldStep(fs, m, t, listed, others + rest);
        var t' := if w == Some(0) then t else t[f := Normal(f, m[f], w, listed)];
        FieldsRoundTrip(fs[1..], m, t', listed, rest);
      }
    }
  }

  lemma DecodeNothing(b: Bits, t: Model)
    requires HasCount(t)
    ensures DecodeFields([], b, t) == Ok(t)
  {
  }

  /** The decoded model field by field. */
  lemma {:induction false} RestoredField(fs: seq<Field>, m: Model, t: Model, listed: set<nat>, f: Field)
    requires WellTyped(m) && f in t
    ensures f in Restored(fs, m, t, listed)
    ensures Restored(fs, m, t, listed)[f]
         == if f in fs && WidthOf(m, f) != Some(0) then Normal(f, m[f], WidthOf(m, f), listed) else t[f]
  {
    hide Normal, WidthOf;
    if fs != [] {
      var w := WidthOf(m, fs[0]);
      RestoredField(fs[1..], m, if w == Some(0) then t else t[fs[0] := Normal(fs[0], m[fs[0]], w, listed)], listed, f);
    }
  }

  // ---- Whole segments ----

  function SegmentBits(g: Segment, m: Model, listed: set<nat>): Result<Bits, CodecError>
    requires WellTyped(m)
  {
    var fields :- EncodeFields(FieldSequence(g), m, listed);
    if g.Core? then
      Ok(fields)
    else
      var id :- IntEncode(SegmentId(g), SEGMENT_TYPE_BITS);
      Ok(id + fields)
  }

  /** What `SegmentEncoder.encode` computes for a version-2 model. */
  function Encode(g: Segment, m: Model, listed: set<nat>): Result<string, CodecError>
    requires WellTyped(m)
  {
    var bits :- SegmentBits(g, m, listed);
    Base64Url.Encode(bits)
  }

  /** What `SegmentEncoder.decode` computes. The core segment says which version it is; the other
      segments go by the version the model has. Only version 2 is known here. */
  function Decode(s: string, g: Segment, t: Model): (r: Result<Model, CodecError>)
    requires HasCount(t)
    ensures r.Ok? ==> HasCount(r.value)
  {
    var bits :- Base64Url.Decode(s);
    if g.Core? then
      var version :- IntDecode(Substr(bits, 0, VERSION_BITS), VERSION_BITS);
      if version != 2 then Err(DecodingError) else DecodeFields(FieldSequence(g), bits, t[Version := Num(2)])
    else if Version !in t || t[Version] != Num(2) then
      Err(DecodingError)
    else
      DecodeFields(FieldSequence(g), Drop(bits, SEGMENT_TYPE_BITS), t)
  }

  /** The model that decoding a segment has made of `t` when it ends, whether by an error or not. */
  function SegmentReached(s: string, g: Segment, t: Model): (r: Model)
    requires HasCount(t)
    ensures HasCount(r)
  {
    match Base64Url.Decode(s)
    case Err(_) => t
    case Ok(bits) =>
      if g.Core? then
        match IntDecode(Substr(bits, 0, VERSION_BITS), VERSION_BITS)
        case Err(_) => t
        case Ok(version) =>
          var t' := t[Version := Num(version)];
          if version != 2 then t' else FieldsReached(FieldSequence(g), bits, t')
      else if Version !in t || t[Version] != Num(2) then t
      else FieldsReached(FieldSequence(g), Drop(bits, SEGMENT_TYPE_BITS), t)
  }

  /** Decoding a segment, even if it fails, changes no field that is not one of its own. */
  lemma SegmentReachedMeans(s: string, g: Segment, t: Model, other: Field)
    requires HasCount(t)
    ensures var spec := Decode(s, g, t); spec.Ok? ==> SegmentReached(s, g, t) == spec.value
    ensures other !in FieldSequence(g) ==> At(SegmentReached(s, g, t), other) == At(t, other)
  {
    hide FieldsReached, DecodeFields, IntDecode, Base64Url.Decode;
    if Base64Url.Decode(s).Ok? {
      var bits := Base64Url.Decode(s).value;
      FieldsReachedMeans(FieldSequence(g), bits, t[Version := Num(2)], other);
      FieldsReachedMeans(FieldSequence(g), Drop(bits, SEGMENT_TYPE_BITS), t, other);
    }
  }

  /** The segment that the first character of a string announces. */
  function Announced(s: string): Result<Segment, CodecError> {
    var bits :- Base64Url.Decode(if s == "" then "" else [s[0]]);
    var id :- IntDecode(Substr(bits, 0, SEGMENT_TYPE_BITS), SEGMENT_TYPE_BITS);
    match SegmentOf(id)
    case None => Err(DecodingError)
    case Some(g) => Ok(g)
  }

  lemma SequencesReady(g: Segment, m: Model, t: Model)
    requires HasCount(m) && HasCount(t)
    ensures CustomReady(FieldSequence(g), m, t)
    ensures NumCustomPurposes in FieldSequence(g) <==> g.PublisherTC?
  {
    if g.PublisherTC? {
      var fs := FieldSequence(g);
      assert fs[..3][2] == NumCustomPurposes && fs[..4][2] == NumCustomPurposes;
      assert forall i :: 0 <= i < |fs| && IsPublisherCustom(fs[i]) ==> i == 3 || i == 4;
    }
  }

  /** The core segment starts with the version. */
  lemma CoreStartsWithVersion(m: Model, listed: set<nat>)
    requires WellTyped(m) && m[Version] == Num(2) && SegmentBits(Core, m, listed).Ok?
    ensures [false, false, false, false, true, false] <= SegmentBits(Core, m, listed).value
  {
    var fs := FieldSequence(Core);
    var first := EncodeValue(fs[0], m[fs[0]], WidthOf(m, fs[0]), listed).value;
    assert Binary(2) == [true, false];
    assert first == [false, false, false, false, true, false];
  }

  lemma OtherStartsWithId(g: Segment, m: Model, listed: set<nat>)
    requires WellTyped(m) && !g.Core? && SegmentBits(g, m, listed).Ok?
    ensures |SegmentBits(g, m, listed).value| >= 3
    ensures ToNat(SegmentBits(g, m, listed).value[..3]) == SegmentId(g)
    ensures SegmentBits(g, m, listed).value[3..] == EncodeFields(FieldSequence(g), m, listed).value
  {
    hide EncodeFields, FieldSequence, ToNat;
    IntRoundTrip(SegmentId(g), 3);
    var id := IntEncode(SegmentId(g), 3).value;
    assert SegmentBits(g, m, listed).value[..3] == id;
  }

  /** The first three bits of a segment name it: the type of every other segment, and for the core
      segment the leading zeros of its version. */
  lemma AnnouncesItself(g: Segment, m: Model, listed: set<nat>)
    requires WellTyped(m) && m[Version] == Num(2) && Encode(g, m, listed).Ok?
    ensures Encode(g, m, listed).value != "" && Announced(Encode(g, m, listed).value) == Ok(g)
  {
    hide EncodeFields, FieldSequence, Base64Url.Encode, Base64Url.Decode;
    var bits := SegmentBits(g, m, listed).value;
    if g.Core? {
      CoreStartsWithVersion(m, listed);
    } else {
      OtherStartsWithId(g, m, listed);
    }
    Base64Url.FirstChar(bits);
    var first := Base64Url.Pad(bits)[..6];
    assert Substr(first, 0, 3) == bits[..3];
    if g.Core? {
      assert bits[..3] == Zeros(3) + [];
      LeadingZeros(3, []);
    }
  }

  predicate IsVersion2(t: Model) {
    Version in t && t[Version] == Num(2)
  }

  /** The core segment brings its version, so the one that the target had does not matter. */
  lemma CoreSetsVersion(m: Model, t: Model, listed: set<nat>)
    requires WellTyped(m)
    ensures Restored(FieldSequence(Core), m, t[Version := Num(2)], listed) == Restored(FieldSequence(Core), m, t, listed)
  {
    var fs, v := FieldSequence(Core), Normal(Version, m[Version], WidthOf(m, Version), listed);
    assert fs[0] == Version && WidthOf(m, Version) == Some(6);
    assert t[Version := Num(2)][Version := v] == t[Version := v];
    RestoredFirst(fs, m, t, listed);
    RestoredFirst(fs, m, t[Version := Num(2)], listed);
  }

  lemma RestoredFirst(fs: seq<Field>, m: Model, t: Model, listed: set<nat>)
    requires WellTyped(m) && fs != [] && WidthOf(m, fs[0]) != Some(0)
    ensures Restored(fs, m, t, listed)
         == Restored(fs[1..], m, t[fs[0] := Normal(fs[0], m[fs[0]], WidthOf(m, fs[0]), listed)], listed)
  {
  }

  /** A segment decodes into a model as the normal forms of its fields. */
  lemma RoundTrip(g: Segment, m: Model, t: Model, listed: set<nat>)
    requires WellTyped(m) && m[Version] == Num(2) && Encode(g, m, listed).Ok?
    requires HasCount(t) && (g.Core? || IsVersion2(t))
    ensures Decode(Encode(g, m, listed).value, g, t)
         == if CmpIdRefused(FieldSequence(g), m) then Err(ModelError)
            else Ok(Restored(FieldSequence(g), m, t, listed))
  {
    hide EncodeFields, DecodeFields, FieldSequence, Base64Url.Encode, Base64Url.Decode, Restored, CmpIdRefused, CustomReady;
    var fs := FieldSequence(g);
    var bits := SegmentBits(g, m, listed).value;
    var padded := Base64Url.Pad(bits);
    SequencesReady(g, m, t);
    if g.Core? {
      CoreStartsWithVersion(m, listed);
      Base64Url.RoundTrip(bits);
      var head := [false, false, false, false, true, false];
      assert Substr(padded, 0, 6) == head;
      assert ToNat(head) == 2 by {
        BinaryValue(2);
        assert Binary(2) == [true, false];
        LeadingZeros(4, Binary(2));
        assert head == Zeros(4) + Binary(2);
      }
      assert padded == bits + padded[|bits|..];
      SequencesReady(g, m, t[Version := Num(2)]);
      FieldsRoundTrip(fs, m, t[Version := Num(2)], listed, padded[|bits|..]);
      CoreSetsVersion(m, t, listed);
    } else {
      OtherStartsWithId(g, m, listed);
      Base64Url.RoundTrip(bits);
      assert Drop(padded, 3) == bits[3..] + padded[|bits|..];
      FieldsRoundTrip(fs, m, t, listed, padded[|bits|..]);
    }
  }
}
