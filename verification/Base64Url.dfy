/** The Base64url alphabet of section 5 of RFC 4648, over bit strings padded with zeros
    to a multiple of 24 bits. */
module Base64Url {
  import opened Wrappers
  import opened Bits

  const BASIS := 6
  const LCM := 24

  /** The dictionary: `A` to `Z`, `a` to `z`, `0` to `9`, `-`, `_`. */
  function Dict(v: nat): char
    requires v < 64
  {
    if v < 26 then ('A' as nat + v) as char
    else if v < 52 then ('a' as nat + v - 26) as char
    else if v < 62 then ('0' as nat + v - 52) as char
    else if v == 62 then '-'
    else '_'
  }

  /** The reverse dictionary, and at the same time the alphabet test. */
  function ReverseDict(c: char): Option<nat> {
    if 'A' <= c <= 'Z' then Some(c as nat - 'A' as nat)
    else if 'a' <= c <= 'z' then Some(c as nat - 'a' as nat + 26)
    else if '0' <= c <= '9' then Some(c as nat - '0' as nat + 52)
    else if c == '-' then Some(62)
    else if c == '_' then Some(63)
    else None
  }

  lemma ReverseDictInverts(v: nat)
    requires v < 64
    ensures ReverseDict(Dict(v)) == Some(v)
  {
  }

  lemma DictInverts(c: char)
    requires ReverseDict(c).Some?
    ensures ReverseDict(c).value < 64 && Dict(ReverseDict(c).value) == c
  {
  }

  predicate InAlphabet(s: string) {
    forall i :: 0 <= i < |s| ==> ReverseDict(s[i]).Some?
  }

  /** How many zeros bring `n` bits to a multiple of 24. */
  function PadCount(n: nat): (k: nat)
    ensures (n + k) % LCM == 0 && (n + k) % BASIS == 0 && k < LCM
  {
    var t := n % LCM;
    if t == 0 then 0 else LCM - t
  }

  function Pad(b: Bits): (r: Bits)
    ensures |r| % LCM == 0 && |r| % BASIS == 0
    ensures b <= r
  {
    b + Zeros(PadCount(|b|))
  }

  function Chars(b: Bits): (s: string)
    requires |b| % BASIS == 0
    ensures |s| * BASIS == |b|
  {
    if b == [] then "" else
      ToNatBound(b[..6]);
      Pow2Values();
      [Dict(ToNat(b[..6]))] + Chars(b[6..])
  }

  /** The six bits of one character, left-padded. */
  function Sextet(c: char): (r: Bits)
    requires ReverseDict(c).Some?
    ensures |r| == BASIS
  {
    var v := ReverseDict(c).value;
    Pow2Values();
    BinaryLength(v, 6);
    Zeros(6 - |Binary(v)|) + Binary(v)
  }

  function Sextets(s: string): (r: Bits)
    requires InAlphabet(s)
    ensures |r| == BASIS * |s|
  {
    if s == "" then [] else Sextet(s[0]) + Sextets(s[1..])
  }

  /** What `Base64Url.encode` computes; the empty bit field throws. */
  function Encode(b: Bits): Result<string, CodecError> {
    if b == [] then Err(EncodingError) else Ok(Chars(Pad(b)))
  }

  /** What `Base64Url.decode` computes. */
  function Decode(s: string): Result<Bits, CodecError> {
    if s == "" || !InAlphabet(s) then Err(DecodingError) else Ok(Sextets(s))
  }

  lemma SextetOfChunk(b: Bits)
    requires |b| == 6
    ensures ToNat(b) < 64
    ensures ReverseDict(Dict(ToNat(b))).Some? && Sextet(Dict(ToNat(b))) == b
  {
    ToNatBound(b);
    Pow2Values();
    ReverseDictInverts(ToNat(b));
    IntDecodeEncode(b);
  }

  lemma {:induction false} SextetsOfChars(b: Bits)
    requires |b| % 6 == 0
    ensures InAlphabet(Chars(b)) && Sextets(Chars(b)) == b
  {
    if b != [] {
      SextetOfChunk(b[..6]);
      SextetsOfChars(b[6..]);
      assert Chars(b)[1..] == Chars(b[6..]);
      assert b == b[..6] + b[6..];
    }
  }

  lemma {:induction false} CharsOfSextets(s: string)
    requires InAlphabet(s)
    ensures Chars(Sextets(s)) == s
  {
    if s != "" {
      CharsOfSextets(s[1..]);
      var b := Sextets(s);
      assert b[..6] == Sextet(s[0]) && b[6..] == Sextets(s[1..]);
      DictInverts(s[0]);
      BinaryValue(ReverseDict(s[0]).value);
      LeadingZeros(6 - |Binary(ReverseDict(s[0]).value)|, Binary(ReverseDict(s[0]).value));
    }
  }

  /** Decoding gives back the bits, followed by the zero padding and nothing else. */
  lemma RoundTrip(b: Bits)
    requires b != []
    ensures Encode(b).Ok? && |Encode(b).value| % 4 == 0 && Encode(b).value != ""
    ensures InAlphabet(Encode(b).value)
    ensures Decode(Encode(b).value) == Ok(Pad(b))
  {
    hide Chars, Sextets, ReverseDict;
    SextetsOfChars(Pad(b));
  }

  /** The first character holds the first six bits. */
  lemma FirstChar(b: Bits)
    requires b != []
    ensures Encode(b).Ok? && Encode(b).value != "" && |Pad(b)| >= 6
    ensures Decode([Encode(b).value[0]]) == Ok(Pad(b)[..6])
  {
    hide ToNat, Dict, ReverseDict;
    var p := Pad(b);
    SextetOfChunk(p[..6]);
    var s := [Encode(b).value[0]];
    assert s[0] == Dict(ToNat(p[..6]));
    assert InAlphabet(s) && s[1..] == "" && Sextets("") == [];
    assert Sextets(s) == Sextet(s[0]) == p[..6];
  }

  /** Every alphabet string made of whole quartets is the encoding of its own bits. */
  lemma RoundTripBack(s: string)
    requires s != "" && InAlphabet(s)
    ensures Encode(Decode(s).value) == Ok(s) <==> |s| % 4 == 0
  {
    CharsOfSextets(s);
    if |s| % 4 == 0 {
      assert Pad(Sextets(s)) == Sextets(s);
    } else {
      assert |Pad(Sextets(s))| % 24 == 0;
    }
  }

  lemma CharsAt(b: Bits, s: nat)
    requires |b| % 6 == 0 && s % 6 == 0 && s < |b|
    ensures s + 6 <= |b| && ToNat(b[s..s + 6]) < 64
    ensures Chars(b[s..]) == [Dict(ToNat(b[s..s + 6]))] + Chars(b[s + 6..])
  {
    SextetOfChunk(b[s..s + 6]);
    var rest := b[s..];
    assert rest[..6] == b[s..s + 6] && rest[6..] == b[s + 6..];
  }

  method EncodeBits(b: Bits) returns (r: Result<string, CodecError>)
    ensures r == Encode(b)
  {
    hide ToNat, Dict, Pad, Chars;
    if b == [] {
      return Err(EncodingError);
    }
    var padded := Pad(b);
    var out := "";
    var s := 0;
    assert padded[0..] == padded;
    while s < |padded|
      invariant 0 <= s == BASIS * |out| <= |padded|
      invariant Chars(padded) == out + Chars(padded[s..])
    {
      CharsAt(padded, s);
      out := out + [Dict(ToNat(padded[s..s + BASIS]))];
      s := s + BASIS;
    }
    assert padded[s..] == [] && out == Chars(padded);
    return Ok(out);
  }

  method DecodeString(s: string) returns (r: Result<Bits, CodecError>)
    ensures r == Decode(s)
  {
    if s == "" || !InAlphabet(s) {
      return Err(DecodingError);
    }
    var out: Bits := [];
    assert s[0..] == s;
    for i := 0 to |s|
      invariant out + Sextets(s[i..]) == Sextets(s)
    {
      assert s[i..][1..] == s[i + 1..];
      out := out + Sextet(s[i]);
    }
    assert s[|s|..] == "" && out == Sextets(s);
    return Ok(out);
  }
}
