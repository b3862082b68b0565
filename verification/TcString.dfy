/** Whole consent strings: Base64url segments joined by dots. */
module TcString {
  import opened Wrappers
  import opened Bits
  import opened Fields
  import opened Segments
  import opened VendorList
  import opened Text
  import Base64Url
  import Restrictions

  const DOT := '.'

  /** `SegmentSequence`: which segments a version-2 model is encoded as. */
  function SegmentsFor(isServiceSpecific: bool, isForVendors: bool, supportOOB: bool, anyAllowed: bool): (r: seq<Segment>)
    ensures r != [] && r[0] == Core && forall i :: 0 < i < |r| ==> r[i] != Core
  {
    if isServiceSpecific then [Core, Disclosed, PublisherTC]
    else
      [Core]
      + (if !isForVendors || supportOOB then [Disclosed] else [])
      + (if isForVendors && supportOOB && anyAllowed then [Allowed] else [])
      + (if isForVendors then [PublisherTC] else [])
  }

  /** The segments, case by case. */
  lemma SegmentsForAre(isServiceSpecific: bool, isForVendors: bool, supportOOB: bool, anyAllowed: bool)
    ensures isServiceSpecific ==>
              SegmentsFor(isServiceSpecific, isForVendors, supportOOB, anyAllowed) == [Core, Disclosed, PublisherTC]
    ensures !isServiceSpecific && !isForVendors ==>
              SegmentsFor(isServiceSpecific, isForVendors, supportOOB, anyAllowed) == [Core, Disclosed]
    ensures !isServiceSpecific && isForVendors && !supportOOB ==>
              SegmentsFor(isServiceSpecific, isForVendors, supportOOB, anyAllowed) == [Core, PublisherTC]
    ensures !isServiceSpecific && isForVendors && supportOOB ==>
              SegmentsFor(isServiceSpecific, isForVendors, supportOOB, anyAllowed)
              == if anyAllowed then [Core, Disclosed, Allowed, PublisherTC] else [Core, Disclosed, PublisherTC]
  {
  }

  function EncodeParts(gs: seq<Segment>, m: Model, listed: set<nat>): (r: Result<seq<string>, CodecError>)
    requires WellTyped(m)
    ensures r.Ok? ==> |r.value| == |gs|
  {
    if gs == [] then Ok([]) else
      var first :- Segments.Encode(gs[0], m, listed);
      var others :- EncodeParts(gs[1..], m, listed);
      Ok([first] + others)
  }

  /** What `TCString.encode` computes once the model has been pre-processed. */
  function Encode(gs: seq<Segment>, m: Model, listed: set<nat>): Result<string, CodecError>
    requires WellTyped(m)
  {
    var parts :- EncodeParts(gs, m, listed);
    Ok(Join(parts, DOT))
  }

  function DecodeParts(parts: seq<string>, t: Model): Result<Model, CodecError>
    requires HasCount(t)
  {
    if parts == [] then Ok(t) else
      var g :- Announced(parts[0]);
      var t' :- Segments.Decode(parts[0], g, t);
      DecodeParts(parts[1..], t')
  }

  /** The model that decoding the parts has made of `t` when it ends, whether by an error or not. */
  function PartsReached(parts: seq<string>, t: Model): Model
    requires HasCount(t)
  {
    if parts == [] then t else
      match Announced(parts[0])
      case Err(_) => t
      case Ok(g) =>
        var t' := SegmentReached(parts[0], g, t);
        if Segments.Decode(parts[0], g, t).Err? then t' else PartsReached(parts[1..], t')
  }

  /** What `TCString.decode` computes into the model `t`. */
  function Decode(s: string, t: Model): Result<Model, CodecError>
    requires HasCount(t)
  {
    DecodeParts(Split(s, DOT), t)
  }

  function RestoredAll(gs: seq<Segment>, m: Model, t: Model, listed: set<nat>): Model
    requires WellTyped(m)
  {
    if gs == [] then t else RestoredAll(gs[1..], m, Restored(FieldSequence(gs[0]), m, t, listed), listed)
  }

  /** The target can take these segments: one that starts with the core segment brings its version,
      any other needs a target of version 2. */
  predicate Ready(gs: seq<Segment>, t: Model) {
    HasCount(t) && ((gs != [] && gs[0].Core?) || IsVersion2(t))
  }

  lemma RestoredReady(g: Segment, m: Model, t: Model, listed: set<nat>)
    requires WellTyped(m) && m[Version] == Num(2) && HasCount(t) && (g.Core? || IsVersion2(t))
    ensures Ready([], Restored(FieldSequence(g), m, t, listed))
  {
    hide FieldSequence, Restored;
    if g.Core? {
      CoreSetsVersion(m, t, listed);
      RestoredKeepsReady(g, m, t[Version := Num(2)], listed);
    } else {
      RestoredKeepsReady(g, m, t, listed);
    }
  }

  lemma RestoredKeepsReady(g: Segment, m: Model, t: Model, listed: set<nat>)
    requires WellTyped(m) && m[Version] == Num(2) && Ready([], t)
    ensures Ready([], Restored(FieldSequence(g), m, t, listed))
  {
    hide FieldSequence, Restored;
    RestoredField(FieldSequence(g), m, t, listed, Version);
    RestoredField(FieldSequence(g), m, t, listed, NumCustomPurposes);
  }

  lemma {:induction false} PartsRoundTrip(gs: seq<Segment>, m: Model, t: Model, listed: set<nat>)
    requires WellTyped(m) && m[Version] == Num(2) && Ready(gs, t) && EncodeParts(gs, m, listed).Ok?
    ensures DecodeParts(EncodeParts(gs, m, listed).value, t)
         == if Core in gs && m[CmpId].n <= 1 then Err(ModelError) else Ok(RestoredAll(gs, m, t, listed))
  {
    hide FieldSequence, Restored, Segments.Encode, Segments.Decode, Announced, CmpIdRefused;
    if gs != [] {
      var g := gs[0];
      AnnouncesItself(g, m, listed);
      Segments.RoundTrip(g, m, t, listed);
      CmpIdOnlyInCore(g, m);
      RestoredReady(g, m, t, listed);
      PartsRoundTrip(gs[1..], m, Restored(FieldSequence(g), m, t, listed), listed);
      assert EncodeParts(gs, m, listed).value[1..] == EncodeParts(gs[1..], m, listed).value;
      assert Core in gs <==> g.Core? || Core in gs[1..];
    }
  }

  lemma CmpIdOnlyInCore(g: Segment, m: Model)
    requires WellTyped(m)
    ensures CmpIdRefused(FieldSequence(g), m) <==> g.Core? && m[CmpId].n <= 1
  {
    if g.Core? {
      assert FieldSequence(Core)[3] == CmpId;
    }
  }

  lemma {:induction false} PartsHaveNoDot(gs: seq<Segment>, m: Model, listed: set<nat>)
    requires WellTyped(m) && m[Version] == Num(2) && EncodeParts(gs, m, listed).Ok?
    ensures forall i :: 0 <= i < |gs| ==> DOT !in EncodeParts(gs, m, listed).value[i]
  {
    hide FieldSequence, SegmentBits, Base64Url.Encode, Base64Url.Decode;
    if gs != [] {
      PartsHaveNoDot(gs[1..], m, listed);
      AnnouncesItself(gs[0], m, listed);
      var bits := SegmentBits(gs[0], m, listed).value;
      NonEmptyBits(gs[0], m, listed);
      Base64Url.RoundTrip(bits);
      var s := Base64Url.Encode(bits).value;
      forall i | 0 <= i < |s| ensures s[i] != DOT {
        assert Base64Url.ReverseDict(s[i]).Some?;
      }
    }
  }

  lemma NonEmptyBits(g: Segment, m: Model, listed: set<nat>)
    requires WellTyped(m) && m[Version] == Num(2) && SegmentBits(g, m, listed).Ok?
    ensures SegmentBits(g, m, listed).value != []
  {
    hide EncodeFields, FieldSequence;
    if g.Core? {
      CoreStartsWithVersion(m, listed);
    } else {
      OtherStartsWithId(g, m, listed);
    }
  }

  /** Splitting and decoding a consent string restores the normal form of every field of every
      segment in it and leaves the other fields of the target alone, unless the core segment
      carries a CMP id below 2, which the model refuses. */
  lemma RoundTrip(gs: seq<Segment>, m: Model, t: Model, listed: set<nat>)
    requires gs != [] && WellTyped(m) && m[Version] == Num(2) && Ready(gs, t)
    requires Encode(gs, m, listed).Ok?
    ensures Decode(Encode(gs, m, listed).value, t)
         == if Core in gs && m[CmpId].n <= 1 then Err(ModelError) else Ok(RestoredAll(gs, m, t, listed))
  {
    hide EncodeParts, DecodeParts;
    PartsHaveNoDot(gs, m, listed);
    SplitJoin(EncodeParts(gs, m, listed).value, DOT);
    PartsRoundTrip(gs, m, t, listed);
  }

  predicate Emitted(gs: seq<Segment>, f: Field) {
    exists i :: 0 <= i < |gs| && f in FieldSequence(gs[i])
  }

  lemma {:induction false} RestoredAllField(gs: seq<Segment>, m: Model, t: Model, listed: set<nat>, f: Field)
    requires WellTyped(m) && f in t
    ensures f in RestoredAll(gs, m, t, listed)
    ensures RestoredAll(gs, m, t, listed)[f]
         == if Emitted(gs, f) && WidthOf(m, f) != Some(0) then Normal(f, m[f], WidthOf(m, f), listed) else t[f]
  {
    hide FieldSequence, Restored, Normal, WidthOf;
    if gs != [] {
      var t' := Restored(FieldSequence(gs[0]), m, t, listed);
      RestoredField(FieldSequence(gs[0]), m, t, listed, f);
      RestoredAllField(gs[1..], m, t', listed, f);
      assert Emitted(gs, f) <==> f in FieldSequence(gs[0]) || Emitted(gs[1..], f) by {
        if i :| 0 <= i < |gs| && f in FieldSequence(gs[i]) {
          assert i > 0 ==> f in FieldSequence(gs[1..][i - 1]);
        }
        if i :| 0 <= i < |gs[1..]| && f in FieldSequence(gs[1..][i]) {
          assert f in FieldSequence(gs[i + 1]);
        }
      }
    }
  }

  /** An emitted field comes back exactly if and only if it is no finer than its encoding. */
  lemma FieldSurvives(gs: seq<Segment>, m: Model, t: Model, listed: set<nat>, f: Field)
    requires WellTyped(m) && f in t && Emitted(gs, f) && !f.PublisherRestrictions?
    requires WidthOf(m, f) == Some(0) ==> t[f] == Ids({})
    ensures f in RestoredAll(gs, m, t, listed)
    ensures RestoredAll(gs, m, t, listed)[f] == m[f] <==> Canonical(f, m[f], WidthOf(m, f))
  {
    hide RestoredAll, Emitted;
    RestoredAllField(gs, m, t, listed, f);
    NormalIffCanonical(f, m[f], WidthOf(m, f), listed);
    if WidthOf(m, f) == Some(0) {
      assert m[f].Ids? && 0 !in m[f].ids;
      assert m[f].ids == {} <==> forall x :: x in m[f].ids ==> x <= 0;
    }
  }

  /** Restrictions come back, without the empty ones, once the same vendor list is attached. */
  lemma RestrictionsSurvive(gs: seq<Segment>, m: Model, t: Model, gvl: Gvl)
    requires WellTyped(m) && PublisherRestrictions in t && Core in gs && gvl.Valid()
    requires Restrictions.AllOk(m[PublisherRestrictions].entries, gvl)
    ensures PublisherRestrictions in RestoredAll(gs, m, t, gvl.vendorIds)
    ensures RestoredAll(gs, m, t, gvl.vendorIds)[PublisherRestrictions].Restr?
    ensures Restrictions.Attach(gvl, RestoredAll(gs, m, t, gvl.vendorIds)[PublisherRestrictions].entries)
         == Restrictions.NonEmpty(m[PublisherRestrictions].entries)
  {
    hide RestoredAll;
    RestoredAllField(gs, m, t, gvl.vendorIds, PublisherRestrictions);
    Restrictions.AttachSpanned(m[PublisherRestrictions].entries, gvl);
    var i :| 0 <= i < |gs| && gs[i] == Core;
    assert FieldSequence(gs[i])[18] == PublisherRestrictions;
  }

  // ---- Encoding and decoding as they run ----

  method EncodeString(gs: seq<Segment>, m: Model, listed: set<nat>) returns (r: Result<string, CodecError>)
    requires WellTyped(m)
    ensures r == Encode(gs, m, listed)
  {
    hide EncodeParts, Join;
    var parts :- EncodePartList(gs, m, listed);
    var out := JoinParts(parts);
    return Ok(out);
  }

  method JoinParts(parts: seq<string>) returns (out: string)
    ensures out == Join(parts, DOT)
  {
    out := "";
    for k := 0 to |parts|
      invariant out == Join(parts[..k], DOT)
    {
      if k > 0 {
        out := out + [DOT];
        JoinAppend(parts[..k], parts[k], DOT);
      }
      assert parts[..k + 1] == parts[..k] + [parts[k]];
      out := out + parts[k];
    }
    assert parts[..|parts|] == parts;
  }

  method EncodePartList(gs: seq<Segment>, m: Model, listed: set<nat>) returns (r: Result<seq<string>, CodecError>)
    requires WellTyped(m)
    ensures r == EncodeParts(gs, m, listed)
  {
    hide Segments.Encode;
    var done: seq<string> := [];
    assert gs[0..] == gs;
    for k := 0 to |gs|
      invariant EncodeParts(gs, m, listed).Ok? <==> EncodeParts(gs[k..], m, listed).Ok?
      invariant EncodeParts(gs, m, listed).Ok? ==>
                  EncodeParts(gs, m, listed).value == done + EncodeParts(gs[k..], m, listed).value
      invariant EncodeParts(gs, m, listed).Err? ==> EncodeParts(gs, m, listed) == EncodeParts(gs[k..], m, listed)
    {
      assert gs[k..][0] == gs[k] && gs[k..][1..] == gs[k + 1..];
      var part :- EncodeSegment(gs[k], m, listed);
      done := done + [part];
    }
    assert gs[|gs|..] == [] && done + [] == done;
    return Ok(done);
  }

  method EncodeSegment(g: Segment, m: Model, listed: set<nat>) returns (r: Result<string, CodecError>)
    requires WellTyped(m)
    ensures r == Segments.Encode(g, m, listed)
  {
    hide FieldSequence, EncodeValue, Base64Url.Encode;
    var head: Bits := [];
    if !g.Core? {
      Pow2Values();
      IntRoundTrip(SegmentId(g), SEGMENT_TYPE_BITS);
      head := IntEncode(SegmentId(g), SEGMENT_TYPE_BITS).value;
    }
    var fs := FieldSequence(g);
    var out := head;
    assert fs[0..] == fs;
    for k := 0 to |fs|
      invariant EncodeFields(fs, m, listed).Ok? <==> EncodeFields(fs[k..], m, listed).Ok?
      invariant EncodeFields(fs, m, listed).Ok? ==>
                  head + EncodeFields(fs, m, listed).value == out + EncodeFields(fs[k..], m, listed).value
      invariant EncodeFields(fs, m, listed).Err? ==> EncodeFields(fs, m, listed) == EncodeFields(fs[k..], m, listed)
    {
      var f := fs[k];
      assert fs[k..][0] == f && fs[k..][1..] == fs[k + 1..];
      var piece :- EncodeValue(f, m[f], WidthOf(m, f), listed);
      out := out + piece;
    }
    assert fs[|fs|..] == [];
    assert out == head + EncodeFields(fs, m, listed).value;
    if g.Core? {
      assert out == EncodeFields(fs, m, listed).value;
    }
    r := Base64Url.EncodeBits(out);
  }

  /** A consent model that decoding fills in place. */
  class TcModel {
    var fields: Model

    constructor (defaults: Model)
      ensures fields == defaults
    {
      fields := defaults;
    }
  }

  /** `SegmentEncoder.decode`: an offset moves through the bits, field by field. */
  method DecodeSegment(s: string, g: Segment, tm: TcModel) returns (r: Result<(), CodecError>)
    requires HasCount(tm.fields)
    modifies tm
    ensures HasCount(tm.fields)
    ensures match Segments.Decode(s, g, old(tm.fields))
            case Err(e) => r == Err(e)
            case Ok(t) => r == Ok(()) && tm.fields == t
    ensures tm.fields == SegmentReached(s, g, old(tm.fields))
  {
    hide FieldSequence, Base64Url.Decode, DecodeFixed, DecodeVariable;
    var bits :- Base64Url.DecodeString(s);
    var offset := 0;
    if g.Core? {
      var version :- IntDecode(Substr(bits, 0, VERSION_BITS), VERSION_BITS);
      tm.fields := tm.fields[Version := Num(version)];
    } else {
      offset := SEGMENT_TYPE_BITS;
    }
    if Version !in tm.fields || tm.fields[Version] != Num(2) {
      return Err(DecodingError);
    }
    r := DecodeFieldList(FieldSequence(g), bits, offset, tm);
  }

  method DecodeFieldList(fs: seq<Field>, bits: Bits, from: nat, tm: TcModel) returns (r: Result<(), CodecError>)
    requires HasCount(tm.fields)
    modifies tm
    ensures HasCount(tm.fields)
    ensures match DecodeFields(fs, Drop(bits, from), old(tm.fields))
            case Err(e) => r == Err(e)
            case Ok(t) => r == Ok(()) && tm.fields == t
    ensures tm.fields == FieldsReached(fs, Drop(bits, from), old(tm.fields))
  {
    hide DecodeField;
    var offset: nat := from;
    ghost var spec := DecodeFields(fs, Drop(bits, offset), tm.fields);
    ghost var reached := FieldsReached(fs, Drop(bits, offset), tm.fields);
    assert fs[0..] == fs;
    for k := 0 to |fs|
      invariant HasCount(tm.fields)
      invariant spec == DecodeFields(fs[k..], Drop(bits, offset), tm.fields)
      invariant reached == FieldsReached(fs[k..], Drop(bits, offset), tm.fields)
    {
      assert fs[k..][0] == fs[k] && fs[k..][1..] == fs[k + 1..];
      offset :- DecodeOneField(fs[k], bits, offset, tm);
    }
    return Ok(());
  }

  /** Decodes one field at `offset`; returns the offset of the next one. */
  method DecodeOneField(f: Field, bits: Bits, offset: nat, tm: TcModel) returns (r: Result<nat, CodecError>)
    requires HasCount(tm.fields)
    modifies tm
    ensures HasCount(tm.fields)
    ensures match DecodeField(f, Drop(bits, offset), old(tm.fields))
            case Err(e) => r == Err(e) && tm.fields == old(tm.fields)
            case Ok(next) => r.Ok? && next == (tm.fields, Drop(bits, r.value))
  {
    hide EncoderOf, BitLength, DecodeFixed, DecodeVariable, Assign;
    ghost var spec := DecodeField(f, Drop(bits, offset), tm.fields);
    var width := WidthOf(tm.fields, f);
    if width.None? {
      var decoded :- DecodeVariable(f, Drop(bits, offset));
      var t :- Assign(tm.fields, f, decoded.0);
      assert spec == Ok((t, Drop(Drop(bits, offset), decoded.1)));
      DropDrop(bits, offset, decoded.1);
      tm.fields := t;
      return Ok(offset + decoded.1);
    }
    var w := width.value;
    if w == 0 {
      return Ok(offset);
    }
    assert Substr(Drop(bits, offset), 0, w) == Substr(bits, offset, w);
    var v :- DecodeFixed(f, Substr(bits, offset, w), w);
    var t :- Assign(tm.fields, f, v);
    assert spec == Ok((t, Drop(Drop(bits, offset), w)));
    DropDrop(bits, offset, w);
    tm.fields := t;
    return Ok(offset + w);
  }

  lemma DropDrop(b: Bits, n: nat, k: nat)
    ensures Drop(Drop(b, n), k) == Drop(b, n + k)
  {
  }

  /** `TCString.decode` */
  method DecodeString(s: string, tm: TcModel) returns (r: Result<(), CodecError>)
    requires HasCount(tm.fields)
    modifies tm
    ensures match Decode(s, old(tm.fields))
            case Err(e) => r == Err(e)
            case Ok(t) => r == Ok(()) && tm.fields == t
    ensures tm.fields == PartsReached(Split(s, DOT), old(tm.fields))
  {
    hide Announced, SegmentReached, Segments.Decode, Split;
    var parts := Split(s, DOT);
    ghost var spec := DecodeParts(parts, tm.fields);
    ghost var reached := PartsReached(parts, tm.fields);
    assert parts[0..] == parts;
    for k := 0 to |parts|
      invariant HasCount(tm.fields)
      invariant spec == DecodeParts(parts[k..], tm.fields)
      invariant reached == PartsReached(parts[k..], tm.fields)
    {
      assert parts[k..][0] == parts[k] && parts[k..][1..] == parts[k + 1..];
      var g :- Announced(parts[k]);
      var _ :- DecodeSegment(parts[k], g, tm);
    }
    return Ok(());
  }
}
