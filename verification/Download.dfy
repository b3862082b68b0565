/** Downloading a release: the bytes as they come, and progress reports throttled to whole
    percentages. Fractions are exact. */
module Download {
  import opened Wrappers

  type Byte = bv8
  type Chunk = seq<Byte>

  // ---- What is downloaded ----

  /** The chunks up to the first empty read, which ends the body. */
  function Body(incoming: seq<Chunk>): (r: seq<Chunk>)
    ensures forall i :: 0 <= i < |r| ==> r[i] != []
  {
    if incoming == [] || incoming[0] == [] then [] else [incoming[0]] + Body(incoming[1..])
  }

  function Flatten(chunks: seq<Chunk>): seq<Byte> {
    if chunks == [] then [] else Flatten(chunks[..|chunks| - 1]) + chunks[|chunks| - 1]
  }

  // ---- What is reported ----

  function Fraction(downloaded: nat, total: nat): (f: real)
    requires total > 0
    ensures 0.0 <= f <= 1.0
  {
    var f := downloaded as real / total as real;
    if f > 1.0 then 1.0 else f
  }

  function Percent(f: real): (p: int)
    requires 0.0 <= f <= 1.0
    ensures 0 <= p <= 100
    ensures p == 100 <==> f == 1.0
  {
    (f * 100.0).Floor
  }

  lemma FractionMonotone(a: nat, b: nat, total: nat)
    requires a <= b && total > 0
    ensures Fraction(a, total) <= Fraction(b, total)
  {
    assert a as real / total as real <= b as real / total as real;
  }

  lemma PercentMonotone(f: real, g: real)
    requires 0.0 <= f <= g <= 1.0
    ensures Percent(f) <= Percent(g)
  {
  }

  /** The fraction after each chunk. */
  function Fractions(chunks: seq<Chunk>, total: nat): (r: seq<real>)
    requires total > 0
    ensures |r| == |chunks|
    ensures forall i :: 0 <= i < |r| ==> 0.0 <= r[i] <= 1.0
  {
    if chunks == [] then [] else Fractions(chunks[..|chunks| - 1], total) + [Fraction(|Flatten(chunks)|, total)]
  }

  /** The file holds the chunks up to the first empty one, one behind the other. */
  lemma {:induction false} BodyIs(incoming: seq<Chunk>)
    ensures Body(incoming) <= incoming
    ensures |Body(incoming)| < |incoming| ==> incoming[|Body(incoming)|] == []
  {
    if incoming != [] && incoming[0] != [] {
      BodyIs(incoming[1..]);
      assert incoming == [incoming[0]] + incoming[1..];
    }
  }

  lemma {:induction false} FlattenConcat(a: seq<Chunk>, b: seq<Chunk>)
    ensures Flatten(a + b) == Flatten(a) + Flatten(b)
  {
    if b == [] {
      assert a + b == a;
    } else {
      var n := |b| - 1;
      assert (a + b)[..|a + b| - 1] == a + b[..n];
      FlattenConcat(a, b[..n]);
    }
  }

  lemma FractionIs(downloaded: nat, total: nat)
    requires total > 0
    ensures Fraction(downloaded, total) * total as real == if downloaded <= total then downloaded as real else total as real
  {
  }

  /** A whole percentage is the fraction rounded down to hundredths. */
  lemma PercentIs(f: real)
    requires 0.0 <= f <= 1.0
    ensures Percent(f) as real <= 100.0 * f < Percent(f) as real + 1.0
  {
  }

  lemma {:induction false} FractionOf(chunks: seq<Chunk>, total: nat, i: nat)
    requires total > 0 && i < |chunks|
    ensures Fractions(chunks, total)[i] == Fraction(|Flatten(chunks[..i + 1])|, total)
  {
    hide Fraction;
    var n := |chunks| - 1;
    if i < n {
      FractionOf(chunks[..n], total, i);
      assert chunks[..n][..i + 1] == chunks[..i + 1];
    } else {
      assert chunks[..i + 1] == chunks;
    }
  }

  /** The fraction behind chunk `i` is the part of the whole that has come by then, and at most 1. */
  lemma FractionAt(chunks: seq<Chunk>, total: nat, i: nat)
    requires total > 0 && i < |chunks|
    ensures var got := |Flatten(chunks[..i + 1])|;
            Fractions(chunks, total)[i] * total as real == if got <= total then got as real else total as real
  {
    hide Fraction, Fractions, Flatten;
    FractionOf(chunks, total, i);
    FractionIs(|Flatten(chunks[..i + 1])|, total);
  }

  ghost predicate Unit(fs: seq<real>) {
    forall i :: 0 <= i < |fs| ==> 0.0 <= fs[i] <= 1.0
  }

  ghost predicate Ascending(fs: seq<real>) {
    forall i, j :: 0 <= i < j < |fs| ==> fs[i] <= fs[j]
  }

  /** The fractions whose whole percentage differs from the last one reported. */
  function Throttled(fs: seq<real>): (r: seq<real>)
    requires forall i :: 0 <= i < |fs| ==> 0.0 <= fs[i] <= 1.0
    ensures forall i :: 0 <= i < |r| ==> 0.0 <= r[i] <= 1.0
  {
    if fs == [] then [] else
      var n := |fs| - 1;
      var r := Throttled(fs[..n]);
      if r != [] && Percent(r[|r| - 1]) == Percent(fs[n]) then r else r + [fs[n]]
  }

  /** All reports of a download: the throttled fractions, and a final 1 unless it is there already. */
  function Reports(chunks: seq<Chunk>, total: nat): (r: seq<real>)
    requires total > 0
    ensures forall i :: 0 <= i < |r| ==> 0.0 <= r[i] <= 1.0
  {
    var r := Throttled(Fractions(chunks, total));
    if r != [] && Percent(r[|r| - 1]) == 100 then r else r + [1.0]
  }

  lemma {:induction false} FractionsAscend(chunks: seq<Chunk>, total: nat)
    requires total > 0
    ensures Ascending(Fractions(chunks, total))
    ensures chunks != [] ==> Fractions(chunks, total)[|chunks| - 1] == Fraction(|Flatten(chunks)|, total)
  {
    if chunks != [] {
      var n := |chunks| - 1;
      FractionsAscend(chunks[..n], total);
      FractionMonotone(|Flatten(chunks[..n])|, |Flatten(chunks)|, total);
    }
  }

  /** Percentages of the reports strictly increase. */
  ghost predicate Stepwise(r: seq<real>)
    requires Unit(r)
  {
    forall i, j :: 0 <= i < j < |r| ==> Percent(r[i]) < Percent(r[j])
  }

  lemma StepwiseAppend(r: seq<real>, f: real)
    requires Unit(r) && Stepwise(r) && Ascending(r) && 0.0 <= f <= 1.0
    requires r != [] ==> Percent(r[|r| - 1]) < Percent(f) && r[|r| - 1] <= f
    ensures Unit(r + [f]) && Stepwise(r + [f]) && Ascending(r + [f])
  {
    hide Percent;
    var s := r + [f];
    forall i, j | 0 <= i < j < |s| ensures Percent(s[i]) < Percent(s[j]) && s[i] <= s[j] {
      if j == |r| && i < |r| - 1 {
        assert Percent(r[i]) < Percent(r[|r| - 1]) && r[i] <= r[|r| - 1];
      }
    }
  }

  lemma {:induction false} ThrottledSteps(fs: seq<real>)
    requires Unit(fs) && Ascending(fs)
    ensures Stepwise(Throttled(fs)) && Ascending(Throttled(fs))
    ensures fs != [] ==> Throttled(fs) != []
    ensures fs != [] ==> Percent(Throttled(fs)[|Throttled(fs)| - 1]) == Percent(fs[|fs| - 1])
    ensures fs != [] ==> Throttled(fs)[|Throttled(fs)| - 1] <= fs[|fs| - 1]
  {
    hide Percent;
    if fs != [] {
      var n := |fs| - 1;
      ThrottledSteps(fs[..n]);
      var r := Throttled(fs[..n]);
      if n > 0 {
        PercentMonotone(fs[n - 1], fs[n]);
      }
      if !(r != [] && Percent(r[|r| - 1]) == Percent(fs[n])) {
        StepwiseAppend(r, fs[n]);
      }
    }
  }

  /** Every fraction is reported, up to its whole percentage, by the first one that reaches it. */
  lemma {:induction false} ThrottledCovers(fs: seq<real>, i: nat) returns (k: nat)
    requires Unit(fs) && Ascending(fs) && i < |fs|
    ensures k < |Throttled(fs)| && Percent(Throttled(fs)[k]) == Percent(fs[i]) && Throttled(fs)[k] <= fs[i]
    ensures Throttled(fs)[k] in fs
  {
    var n := |fs| - 1;
    if i < n {
      k := ThrottledCovers(fs[..n], i);
      assert fs[..n][i] == fs[i];
    } else {
      ThrottledSteps(fs);
      k := |Throttled(fs)| - 1;
      ThrottledFrom(fs);
    }
  }

  lemma {:induction false} ThrottledFrom(fs: seq<real>)
    requires Unit(fs)
    ensures forall x :: x in Throttled(fs) ==> x in fs
  {
    if fs != [] {
      ThrottledFrom(fs[..|fs| - 1]);
    }
  }

  lemma {:induction false} StepwiseBound(r: seq<real>)
    requires Unit(r) && Stepwise(r) && r != []
    ensures |r| <= Percent(r[|r| - 1]) + 1
  {
    if |r| > 1 {
      StepwiseBound(r[..|r| - 1]);
    }
  }

  /** Reports lie between 0 and 1, never decrease, end at exactly 1, and number at most 101. */
  lemma ReportsBehave(chunks: seq<Chunk>, total: nat)
    requires total > 0
    ensures var r := Reports(chunks, total);
            Unit(r) && Ascending(r) && Stepwise(r) && 1 <= |r| <= 101 && r[|r| - 1] == 1.0
  {
    hide Percent, Fractions, Throttled;
    var fs := Fractions(chunks, total);
    FractionsAscend(chunks, total);
    ThrottledSteps(fs);
    var t, r := Throttled(fs), Reports(chunks, total);
    if r != t {
      assert Percent(1.0) == 100;
      StepwiseAppend(t, 1.0);
    }
    StepwiseBound(r);
  }

  /** One more chunk adds one more fraction, which is reported or not. */
  lemma ThrottledNext(done: seq<Chunk>, chunk: Chunk, total: nat)
    requires total > 0
    ensures Flatten(done + [chunk]) == Flatten(done) + chunk
    ensures var r := Throttled(Fractions(done, total));
            var f := Fraction(|Flatten(done + [chunk])|, total);
            Throttled(Fractions(done + [chunk], total))
            == if r != [] && Percent(r[|r| - 1]) == Percent(f) then r else r + [f]
  {
    hide Percent, Fraction;
    var next := done + [chunk];
    assert next[..|next| - 1] == done;
    var fs := Fractions(next, total);
    assert fs[..|fs| - 1] == Fractions(done, total);
  }

  lemma NothingYet(total: nat)
    requires total > 0
    ensures Flatten([]) == [] && Throttled(Fractions([], total)) == []
  {
  }

  lemma BodyNext(incoming: seq<Chunk>, k: nat, done: seq<Chunk>)
    requires k < |incoming| && incoming[k] != [] && Body(incoming) == done + Body(incoming[k..])
    ensures Body(incoming) == done + [incoming[k]] + Body(incoming[k + 1..])
  {
    assert incoming[k..][0] == incoming[k] && incoming[k..][1..] == incoming[k + 1..];
  }

  lemma BodyEnds(incoming: seq<Chunk>, k: nat)
    requires k <= |incoming| && (k < |incoming| ==> incoming[k] == [])
    ensures Body(incoming[k..]) == []
  {
  }

  /** `download_release`: appends each chunk to the file and reports whenever the whole percentage
      changes; an unknown or zero size reports nothing. */
  method DownloadRelease(incoming: seq<Chunk>, contentLength: Option<nat>)
    returns (file: seq<Byte>, reports: seq<real>)
    ensures file == Flatten(Body(incoming))
    ensures reports == if contentLength.Some? && contentLength.value > 0
                       then Reports(Body(incoming), contentLength.value) else []
  {
    hide Percent, Fraction, Throttled, Fractions, Flatten, Body;
    file, reports := [], [];
    var known := contentLength.Some? && contentLength.value > 0;
    var total := if known then contentLength.value else 1;
    var lastPercent := -1;
    NothingYet(total);
    ghost var done: seq<Chunk> := [];
    assert incoming[0..] == incoming;
    var k := 0;
    while k < |incoming| && incoming[k] != []
      invariant 0 <= k <= |incoming|
      invariant Body(incoming) == done + Body(incoming[k..])
      invariant file == Flatten(done)
      invariant known ==> reports == Throttled(Fractions(done, total))
      invariant !known ==> reports == []
      invariant known ==> lastPercent == if reports == [] then -1 else Percent(reports[|reports| - 1])
    {
      BodyNext(incoming, k, done);
      ThrottledNext(done, incoming[k], total);
      file := file + incoming[k];
      done := done + [incoming[k]];
      if known {
        var fraction := Fraction(|file|, total);
        var percent := Percent(fraction);
        if lastPercent != percent {
          lastPercent := percent;
          reports := reports + [fraction];
        }
      }
      k := k + 1;
    }
    BodyEnds(incoming, k);
    assert Body(incoming) == done;
    if known && lastPercent != 100 {
      reports := reports + [1.0];
    }
  }
}
