/** The fields of a consent model: which encoder and how many bits each has, and what a single
    field goes through when it is encoded and decoded again. */
module Fields {
  import opened Wrappers
  import opened Bits
  import VendorVector
  import Restrictions

  datatype Field =
    | Version | Created | LastUpdated | CmpId | CmpVersion | ConsentScreen | ConsentLanguage
    | VendorListVersion | PolicyVersion | IsServiceSpecific | UseNonStandardTexts
    | SpecialFeatureOptins | PurposeConsents | PurposeLegitimateInterests | PurposeOneTreatment
    | PublisherCountryCode | VendorConsents | VendorLegitimateInterests | PublisherRestrictions
    | VendorsDisclosed | VendorsAllowed
    | PublisherConsents | PublisherLegitimateInterests | NumCustomPurposes
    | PublisherCustomConsents | PublisherCustomLegitimateInterests

  datatype Value =
    | Num(n: int)
    | Flag(b: bool)
    | Time(ms: int)
    | Code(s: string)
    | Ids(ids: set<nat>)
    | Restr(entries: seq<Restrictions.Entry>)

  datatype Encoder = IntEncoder | BooleanEncoder | DateEncoder | LangEncoder
                   | FixedVectorEncoder | VendorVectorEncoder | RestrictionEncoder

  type Model = map<Field, Value>

  function EncoderOf(f: Field): Encoder {
    match f
    case Created | LastUpdated => DateEncoder
    case ConsentLanguage | PublisherCountryCode => LangEncoder
    case IsServiceSpecific | UseNonStandardTexts | PurposeOneTreatment => BooleanEncoder
    case SpecialFeatureOptins | PurposeConsents | PurposeLegitimateInterests => FixedVectorEncoder
    case PublisherConsents | PublisherLegitimateInterests => FixedVectorEncoder
    case PublisherCustomConsents | PublisherCustomLegitimateInterests => FixedVectorEncoder
    case VendorConsents | VendorLegitimateInterests | VendorsDisclosed | VendorsAllowed => VendorVectorEncoder
    case PublisherRestrictions => RestrictionEncoder
    case _ => IntEncoder
  }

  /** The bit-length table, which has no entry for the variable-length fields. */
  function BitLength(f: Field): Option<nat> {
    match f
    case Created | LastUpdated => Some(36)
    case CmpId | CmpVersion | ConsentLanguage | PublisherCountryCode | VendorListVersion => Some(12)
    case SpecialFeatureOptins => Some(12)
    case Version | ConsentScreen | PolicyVersion | NumCustomPurposes => Some(6)
    case IsServiceSpecific | UseNonStandardTexts | PurposeOneTreatment => Some(1)
    case PurposeConsents | PurposeLegitimateInterests => Some(24)
    case PublisherConsents | PublisherLegitimateInterests => Some(24)
    case _ => None
  }

  predicate IsPublisherCustom(f: Field) {
    f.PublisherCustomConsents? || f.PublisherCustomLegitimateInterests?
  }

  ghost predicate HasType(f: Field, v: Value) {
    match EncoderOf(f)
    case IntEncoder => v.Num? && (f.NumCustomPurposes? ==> v.n >= 0)
    case BooleanEncoder => v.Flag?
    case DateEncoder => v.Time?
    case LangEncoder => v.Code?
    case FixedVectorEncoder | VendorVectorEncoder => v.Ids? && 0 !in v.ids
    case RestrictionEncoder => v.Restr? && Restrictions.WellKeyed(v.entries)
  }

  /** Every field is there with a value of its kind. */
  ghost predicate WellTyped(m: Model)
    ensures WellTyped(m) ==> HasCount(m)
  {
    forall f: Field :: f in m && HasType(f, m[f])
  }

  lemma FieldTyped(m: Model, f: Field)
    requires WellTyped(m)
    ensures f in m && HasType(f, m[f])
  {
  }

  predicate HasCount(m: Model) {
    NumCustomPurposes in m && m[NumCustomPurposes].Num? && m[NumCustomPurposes].n >= 0
  }

  /** The width of `f` in a model: the table's, the model's number of custom purposes for the
      publisher's custom vectors, or none. */
  function WidthOf(m: Model, f: Field): (w: Option<nat>)
    requires HasCount(m)
    ensures w.Some? <==> !EncoderOf(f).VendorVectorEncoder? && !EncoderOf(f).RestrictionEncoder?
    ensures (EncoderOf(f).BooleanEncoder? ==> w == Some(1)) && (EncoderOf(f).LangEncoder? ==> w == Some(12))
  {
    if IsPublisherCustom(f) then Some(m[NumCustomPurposes].n) else BitLength(f)
  }

  // ---- Language codes ----

  function Upper(c: char): char {
    if 'a' <= c <= 'z' then (c as nat - 32) as char else c
  }

  predicate IsUpper(c: char) {
    'A' <= c <= 'Z'
  }

  /** `LangEncoder.encode`: the first two letters, six bits each. */
  function LangEncode(s: string): Result<Bits, CodecError> {
    if |s| < 2 || !IsUpper(Upper(s[0])) || !IsUpper(Upper(s[1])) then
      Err(EncodingError)
    else
      var a :- IntEncode(Upper(s[0]) as int - 65, 6);
      var b :- IntEncode(Upper(s[1]) as int - 65, 6);
      Ok(a + b)
  }

  function LangDecode(b: Bits): Result<string, CodecError> {
    if |b| != 12 then Err(DecodingError)
    else
      ToNatBound(b[..6]);
      ToNatBound(b[6..]);
      Pow2Values();
      Ok([(ToNat(b[..6]) + 65) as char, (ToNat(b[6..]) + 65) as char])
  }

  // ---- One field ----

  /** Deciseconds, rounded half up. */
  function Deciseconds(ms: int): int {
    (ms + 50) / 100
  }

  /** The nearest number of deciseconds; a time in the middle goes up. */
  lemma DecisecondsMeans(ms: int, n: int)
    ensures Deciseconds(ms) == n <==> 100 * n - 50 <= ms < 100 * n + 50
  {
  }

  function EncodeValue(f: Field, v: Value, width: Option<nat>, listed: set<nat>): Result<Bits, CodecError>
    requires HasType(f, v)
    requires width.Some? <==> !EncoderOf(f).VendorVectorEncoder? && !EncoderOf(f).RestrictionEncoder?
  {
    match EncoderOf(f)
    case IntEncoder => IntEncode(v.n, width.value)
    case BooleanEncoder => Ok([v.b])
    case DateEncoder => IntEncode(Deciseconds(v.ms), width.value)
    case LangEncoder => LangEncode(v.s)
    case FixedVectorEncoder => Ok(VendorVector.FieldBits(v.ids, width.value))
    case VendorVectorEncoder => VendorVector.Encode(v.ids)
    case RestrictionEncoder => Restrictions.Encode(v.entries, listed)
  }

  /** Decodes a field of known width from the piece that `substr` cut out for it. */
  function DecodeFixed(f: Field, piece: Bits, width: nat): Result<Value, CodecError> {
    match EncoderOf(f)
    case IntEncoder => var n :- IntDecode(piece, width); Ok(Num(n))
    case BooleanEncoder => Ok(Flag(piece == [true]))
    case DateEncoder => var n :- IntDecode(piece, width); Ok(Time(n * 100))
    case LangEncoder => var s :- LangDecode(piece); Ok(Code(s))
    case _ => if |piece| != width then Err(DecodingError) else Ok(Ids(VendorVector.IdsOfField(piece)))
  }

  /** Decodes a field that finds its own end; the second result is its length. */
  function DecodeVariable(f: Field, b: Bits): Result<(Value, nat), CodecError> {
    match EncoderOf(f)
    case RestrictionEncoder => var d :- Restrictions.Decode(b); Ok((Restr(d.entries), d.bitLength))
    case _ => var d :- VendorVector.Decode(b); Ok((Ids(d.ids), d.bitLength))
  }

  /** The model's setters: a CMP id has to exceed 1, a country code is two characters from `A`
      to `z` and is stored in upper case. */
  function Assign(m: Model, f: Field, v: Value): Result<Model, CodecError> {
    if f.CmpId? && v.Num? && v.n <= 1 then
      Err(ModelError)
    else if f.PublisherCountryCode? && v.Code? then
      if |v.s| == 2 && 'A' <= v.s[0] <= 'z' && 'A' <= v.s[1] <= 'z' then
        Ok(m[f := Code([Upper(v.s[0]), Upper(v.s[1])])])
      else
        Err(ModelError)
    else
      Ok(m[f := v])
  }

  /** What is left of a value after encoding and decoding: times lose their milliseconds, codes
      are cut to two upper-case letters, fixed vectors lose the ids beyond their width, and
      restrictions come back with the ids their ranges run over. */
  function Normal(f: Field, v: Value, width: Option<nat>, listed: set<nat>): Value
    requires HasType(f, v)
    requires width.Some? <==> !EncoderOf(f).VendorVectorEncoder? && !EncoderOf(f).RestrictionEncoder?
  {
    match EncoderOf(f)
    case DateEncoder => Time(100 * Deciseconds(v.ms))
    case LangEncoder => if |v.s| < 2 then v else Code([Upper(v.s[0]), Upper(v.s[1])])
    case FixedVectorEncoder => Ids(VendorVector.UpTo(v.ids, width.value))
    case RestrictionEncoder => Restr(Restrictions.SpannedAll(v.entries, listed))
    case _ => v
  }

  lemma LangRoundTrip(s: string)
    requires LangEncode(s).Ok?
    ensures |s| >= 2 && |LangEncode(s).value| == 12
    ensures LangDecode(LangEncode(s).value) == Ok([Upper(s[0]), Upper(s[1])])
  {
    IntRoundTrip(Upper(s[0]) as int - 65, 6);
    IntRoundTrip(Upper(s[1]) as int - 65, 6);
    var b := LangEncode(s).value;
    assert b[..6] == IntEncode(Upper(s[0]) as int - 65, 6).value;
    assert b[6..] == IntEncode(Upper(s[1]) as int - 65, 6).value;
  }

  lemma FixedVectorRoundTrip(ids: set<nat>, width: nat)
    requires 0 !in ids
    ensures |VendorVector.FieldBits(ids, width)| == width
    ensures VendorVector.IdsOfField(VendorVector.FieldBits(ids, width)) == VendorVector.UpTo(ids, width)
  {
    var b := VendorVector.FieldBits(ids, width);
    forall x: nat ensures x in VendorVector.IdsOfField(b) <==> x in ids && x <= width {
      assert x in VendorVector.IdsOfField(b) <==> VendorVector.HasBit(b, x);
    }
  }

  /** A fixed-width field fills exactly its width and decodes to its normal form. */
  lemma FixedFieldRoundTrip(f: Field, v: Value, width: nat, listed: set<nat>)
    requires HasType(f, v) && !EncoderOf(f).VendorVectorEncoder? && !EncoderOf(f).RestrictionEncoder?
    requires (EncoderOf(f).BooleanEncoder? ==> width == 1) && (EncoderOf(f).LangEncoder? ==> width == 12)
    requires EncodeValue(f, v, Some(width), listed).Ok?
    ensures var b := EncodeValue(f, v, Some(width), listed).value;
            |b| == width && DecodeFixed(f, b, width) == Ok(Normal(f, v, Some(width), listed))
  {
    hide EncoderOf, IntEncode, IntDecode, LangEncode, LangDecode, Upper, VendorVector.FieldBits, VendorVector.IdsOfField;
    match EncoderOf(f)
    case IntEncoder => IntRoundTrip(v.n, width);
    case BooleanEncoder =>
    case DateEncoder => IntRoundTrip(Deciseconds(v.ms), width);
    case LangEncoder => LangRoundTrip(v.s);
    case FixedVectorEncoder => FixedVectorRoundTrip(v.ids, width);
  }

  /** A variable-length field ends where the next one begins. */
  lemma VariableFieldRoundTrip(f: Field, v: Value, listed: set<nat>, rest: Bits)
    requires HasType(f, v) && (EncoderOf(f).VendorVectorEncoder? || EncoderOf(f).RestrictionEncoder?)
    requires EncodeValue(f, v, None, listed).Ok?
    ensures var b := EncodeValue(f, v, None, listed).value;
            DecodeVariable(f, b + rest) == Ok((Normal(f, v, None, listed), |b|))
  {
    if EncoderOf(f).VendorVectorEncoder? {
      VendorVector.RoundTrip(v.ids, rest);
    } else {
      Restrictions.DecodeEncoded(v.entries, listed, rest);
    }
  }

  /** A field survives unchanged exactly when nothing of it is finer than its encoding. */
  predicate Canonical(f: Field, v: Value, width: Option<nat>)
  {
    match EncoderOf(f)
    case DateEncoder => v.Time? && v.ms % 100 == 0
    case LangEncoder => v.Code? && (|v.s| == 2 ==> !('a' <= v.s[0] <= 'z') && !('a' <= v.s[1] <= 'z')) && |v.s| <= 2
    case FixedVectorEncoder => v.Ids? && width.Some? && forall x :: x in v.ids ==> x <= width.value
    case _ => true
  }

  lemma NormalIffCanonical(f: Field, v: Value, width: Option<nat>, listed: set<nat>)
    requires HasType(f, v) && !f.PublisherRestrictions?
    requires width.Some? <==> !EncoderOf(f).VendorVectorEncoder?
    ensures Normal(f, v, width, listed) == v <==> Canonical(f, v, width)
  {
    match EncoderOf(f)
    case DateEncoder =>
      assert 100 * ((v.ms + 50) / 100) == v.ms <==> v.ms % 100 == 0;
    case FixedVectorEncoder =>
      var kept := VendorVector.UpTo(v.ids, width.value);
      assert kept == v.ids <==> forall x :: x in v.ids ==> x <= width.value;
    case _ =>
  }
}
