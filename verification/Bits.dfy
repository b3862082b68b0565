/** Fixed-width integers over bit strings. The codec's strings of '0' and '1' are
    sequences of booleans here, most significant bit first. */
module Bits {
  import opened Wrappers

  type Bits = seq<bool>

  /** The error classes the codec throws. */
  datatype CodecError = EncodingError | DecodingError | ModelError

  function Pow2(n: nat): (r: nat)
    ensures r > 0
  {
    if n == 0 then 1 else 2 * Pow2(n - 1)
  }

  function Zeros(n: nat): Bits {
    seq(n, _ => false)
  }

  function BitValue(b: bool): nat {
    if b then 1 else 0
  }

  /** `parseInt(b, 2)` */
  function ToNat(b: Bits): nat {
    if b == [] then 0 else 2 * ToNat(b[..|b| - 1]) + BitValue(b[|b| - 1])
  }

  /** `n.toString(2)` */
  function Binary(n: nat): Bits {
    if n < 2 then [n == 1] else Binary(n / 2) + [n % 2 == 1]
  }

  /** `IntEncoder.encode`: too many digits or a negative number throws. */
  function IntEncode(n: int, width: nat): Result<Bits, CodecError> {
    if n < 0 || |Binary(n)| > width then
      Err(EncodingError)
    else
      Ok(Zeros(width - |Binary(n)|) + Binary(n))
  }

  /** `IntEncoder.decode` */
  function IntDecode(b: Bits, width: nat): Result<nat, CodecError> {
    if |b| != width then Err(DecodingError) else Ok(ToNat(b))
  }

  /** `String.prototype.substr`, which stops at the end of the string. */
  function Substr(b: Bits, from: nat, count: nat): Bits {
    if from >= |b| then []
    else if from + count <= |b| then b[from..from + count]
    else b[from..]
  }

  /** Reads a fixed-width integer off the front of `b`; the second result is what is left. */
  function TakeInt(b: Bits, width: nat): Result<(nat, Bits), CodecError> {
    if |b| < width then Err(DecodingError) else Ok((ToNat(b[..width]), b[width..]))
  }

  lemma {:induction false} BinaryLength(n: nat, width: nat)
    requires width >= 1
    ensures |Binary(n)| <= width <==> n < Pow2(width)
  {
    if n < 2 {
      assert Pow2(width) == 2 * Pow2(width - 1);
    } else if width == 1 {
      assert Pow2(1) == 2;
      assert |Binary(n / 2)| >= 1;
    } else {
      BinaryLength(n / 2, width - 1);
    }
  }

  lemma {:induction false} BinaryValue(n: nat)
    ensures ToNat(Binary(n)) == n
  {
    if n >= 2 {
      BinaryValue(n / 2);
      assert Binary(n)[..|Binary(n)| - 1] == Binary(n / 2);
    }
  }

  lemma {:induction false} LeadingZeros(k: nat, b: Bits)
    ensures ToNat(Zeros(k) + b) == ToNat(b)
    decreases |b|, k
  {
    var z := Zeros(k) + b;
    if b != [] {
      assert z[..|z| - 1] == Zeros(k) + b[..|b| - 1];
      LeadingZeros(k, b[..|b| - 1]);
    } else if k > 0 {
      assert z[..|z| - 1] == Zeros(k - 1) + [];
      LeadingZeros(k - 1, []);
    }
  }

  lemma {:induction false} ToNatBound(b: Bits)
    ensures ToNat(b) < Pow2(|b|)
  {
    if b != [] {
      ToNatBound(b[..|b| - 1]);
    }
  }

  /** An integer encodes exactly when it fits, and then decodes to itself. */
  lemma IntRoundTrip(n: int, width: nat)
    ensures IntEncode(n, width).Ok? <==> width >= 1 && 0 <= n < Pow2(width)
    ensures IntEncode(n, width).Ok? ==>
              && |IntEncode(n, width).value| == width
              && IntDecode(IntEncode(n, width).value, width) == Ok(n)
  {
    if n >= 0 {
      if width >= 1 {
        BinaryLength(n, width);
      }
      BinaryValue(n);
      if |Binary(n)| <= width {
        LeadingZeros(width - |Binary(n)|, Binary(n));
      }
    }
  }

  lemma {:induction false} ToNatInjective(a: Bits, b: Bits)
    requires |a| == |b| && ToNat(a) == ToNat(b)
    ensures a == b
  {
    if a != [] {
      ToNatInjective(a[..|a| - 1], b[..|b| - 1]);
      assert a == a[..|a| - 1] + [a[|a| - 1]];
      assert b == b[..|b| - 1] + [b[|b| - 1]];
    }
  }

  /** Every bit string is the encoding of the number it decodes to. */
  lemma IntDecodeEncode(b: Bits)
    requires b != []
    ensures IntEncode(ToNat(b), |b|) == Ok(b)
  {
    ToNatBound(b);
    IntRoundTrip(ToNat(b), |b|);
    ToNatInjective(IntEncode(ToNat(b), |b|).value, b);
  }

  /** An encoded integer is read back off the front of any longer string. */
  lemma TakeEncoded(n: int, width: nat, rest: Bits)
    requires IntEncode(n, width).Ok?
    ensures n >= 0 && TakeInt(IntEncode(n, width).value + rest, width) == Ok((n, rest))
  {
    IntRoundTrip(n, width);
    var b := IntEncode(n, width).value + rest;
    assert b[..width] == IntEncode(n, width).value;
    assert b[width..] == rest;
  }

  /** Reading at an offset is reading off the front of the suffix at that offset. */
  lemma TakeAtOffset(b: Bits, from: nat, width: nat)
    requires from <= |b|
    ensures TakeInt(b[from..], width).Ok? <==> IntDecode(Substr(b, from, width), width).Ok?
    ensures TakeInt(b[from..], width).Ok? ==>
              && from + width <= |b|
              && TakeInt(b[from..], width).value == (IntDecode(Substr(b, from, width), width).value, b[from + width..])
  {
    if from + width <= |b| {
      assert b[from..][..width] == b[from..from + width];
      assert Substr(b, from, width) == b[from..from + width];
    }
  }

  lemma Pow2Values()
    ensures Pow2(1) == 2 && Pow2(2) == 4 && Pow2(3) == 8 && Pow2(6) == 64
    ensures Pow2(12) == 4096 && Pow2(16) == 65536
  {
    assert Pow2(6) == 64;
    assert Pow2(12) == 4096;
  }
}
