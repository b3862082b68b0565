/** How long encoded vendor vectors are, and whether the shorter form was chosen. */
module VectorLength {
  import opened Bits
  import opened Vector
  import opened VendorVector

  /** Runs of one id, and longer runs. */
  function Singles(rs: seq<Range>): nat {
    if rs == [] then 0 else Singles(rs[..|rs| - 1]) + if rs[|rs| - 1].start == rs[|rs| - 1].end then 1 else 0
  }

  function Longs(rs: seq<Range>): nat {
    if rs == [] then 0 else Longs(rs[..|rs| - 1]) + if rs[|rs| - 1].start == rs[|rs| - 1].end then 0 else 1
  }

  lemma CountsAppend(rs: seq<Range>, r: Range)
    ensures Singles(rs + [r]) == Singles(rs) + if r.start == r.end then 1 else 0
    ensures Longs(rs + [r]) == Longs(rs) + if r.start == r.end then 0 else 1
  {
    assert (rs + [r])[..|rs|] == rs;
  }

  lemma {:induction false} EntriesAppend(rs: seq<Range>, r: Range)
    requires EncodeEntries(rs + [r]).Ok?
    ensures EncodeEntries(rs).Ok? && EncodeEntry(r).Ok?
    ensures EncodeEntries(rs + [r]).value == EncodeEntries(rs).value + EncodeEntry(r).value
  {
    hide EncodeEntry;
    if rs == [] {
      assert rs + [r] == [r] && [r][1..] == [];
    } else {
      assert (rs + [r])[1..] == rs[1..] + [r] && (rs + [r])[0] == rs[0];
      EntriesAppend(rs[1..], r);
    }
  }

  lemma EntryLength(r: Range)
    requires EncodeEntry(r).Ok?
    ensures |EncodeEntry(r).value| == if r.start == r.end then 17 else 33
  {
    hide IntEncode;
    IntRoundTrip(r.start, VENDOR_BITS);
    IntRoundTrip(r.end, VENDOR_BITS);
  }

  lemma {:induction false} EntriesLength(rs: seq<Range>)
    requires EncodeEntries(rs).Ok?
    ensures |EncodeEntries(rs).value| == 17 * Singles(rs) + 33 * Longs(rs)
  {
    hide EncodeEntry;
    if rs != [] {
      var init, r := rs[..|rs| - 1], rs[|rs| - 1];
      assert rs == init + [r];
      EntriesAppend(init, r);
      EntriesLength(init);
      EntryLength(r);
      CountsAppend(init, r);
    }
  }

  /** The running estimate is right but for the flag of a single id, which it leaves out. */
  lemma {:induction false} EstimateIs(ids: set<nat>, n: nat)
    requires 0 !in ids
    ensures var rs := Runs(ids, n);
            Estimate(ids, n) == 29 + 16 * Singles(rs) + 33 * Longs(rs)
                                + if n in ids && n + 1 in ids then 17 else 0
  {
    if n > 0 {
      EstimateIs(ids, n - 1);
      if n in ids && n + 1 !in ids {
        CountsAppend(Runs(ids, n - 1), Range(RunStart(ids, n), n));
      }
    }
  }

  /** The bits that range form takes. */
  function RangeLength(ids: set<nat>): nat
    requires 0 !in ids
  {
    var rs := Runs(ids, MaxId(ids));
    29 + 17 * Singles(rs) + 33 * Longs(rs)
  }

  function FieldLength(ids: set<nat>): nat {
    17 + MaxId(ids)
  }

  lemma EncodedLength(ids: set<nat>)
    requires 0 !in ids && Encode(ids).Ok?
    ensures |Encode(ids).value| == if UseRange(ids) then RangeLength(ids) else FieldLength(ids)
  {
    hide IntEncode, EncodeEntries, UseRange, Runs;
    var m := MaxId(ids);
    IntRoundTrip(m, MAX_ID_BITS);
    if UseRange(ids) {
      IntRoundTrip(|Runs(ids, m)|, ENTRIES_BITS);
      EntriesLength(Runs(ids, m));
    }
  }

  /** When range form is chosen: the maximum exceeds 45 and 16 bits for every single id and
      33 for every longer run are less than the maximum and four. */
  lemma UseRangeIff(ids: set<nat>)
    requires 0 !in ids
    ensures var m := MaxId(ids);
            var rs := Runs(ids, m);
            UseRange(ids) <==> m > 45 && 16 * Singles(rs) + 33 * Longs(rs) < m + 4
  {
    hide Runs, Singles, Longs;
    var m := MaxId(ids);
    if m > 0 {
      EstimateIs(ids, m);
      assert m in ids && m + 1 !in ids;
      assert Estimate(ids, m) == Estimate(ids, m - 1) + 16;
    }
  }

  function Shorter(ids: set<nat>): nat
    requires 0 !in ids
  {
    if RangeLength(ids) < FieldLength(ids) then RangeLength(ids) else FieldLength(ids)
  }

  /** The encoder takes more bits than the shorter of the two forms exactly when the maximum, above
      45, lies in a window where the estimate errs, or, up to 45, would make range form shorter. */
  lemma LongerIff(ids: set<nat>)
    requires 0 !in ids && Encode(ids).Ok?
    ensures var m := MaxId(ids);
            var rs := Runs(ids, m);
            |Encode(ids).value| > Shorter(ids) <==>
              if m > 45
              then 16 * Singles(rs) + 33 * Longs(rs) - 4 < m < 17 * Singles(rs) + 33 * Longs(rs) + 12
              else m > 17 * Singles(rs) + 33 * Longs(rs) + 12
  {
    hide Runs, Singles, Longs, Encode, UseRange;
    EncodedLength(ids);
    UseRangeIff(ids);
  }

  /** The form that is wrongly chosen: range form above 45, field form up to it. */
  lemma LongerForm(ids: set<nat>)
    requires 0 !in ids && Encode(ids).Ok? && |Encode(ids).value| > Shorter(ids)
    ensures UseRange(ids) <==> MaxId(ids) > 45
  {
    hide Runs, Singles, Longs, Encode, UseRange;
    EncodedLength(ids);
    UseRangeIff(ids);
  }

  lemma NoNeighbour(ids: set<nat>, n: nat)
    requires Isolated(ids) && n > 0 && n in ids
    ensures n - 1 !in ids
  {
    var x: nat := n - 1;
    assert x in ids ==> x + 1 !in ids;
  }

  lemma {:induction false} AllSingles(ids: set<nat>, n: nat)
    requires 0 !in ids && Isolated(ids)
    ensures Singles(Runs(ids, n)) == |Runs(ids, n)| && Longs(Runs(ids, n)) == 0
  {
    hide Isolated, Singles, Longs;
    if n == 0 {
      NothingCounted();
    } else {
      AllSingles(ids, n - 1);
      if n in ids && n + 1 !in ids {
        NoNeighbour(ids, n);
        CountsAppend(Runs(ids, n - 1), Range(RunStart(ids, n), n));
      }
    }
  }

  lemma NothingCounted()
    ensures Singles([]) == 0 && Longs([]) == 0
  {
  }

  /** Every sixteenth id up to 157: 199 bits in the form that is chosen, 174 in the other. */
  lemma LongerExists()
    ensures 0 !in Stride(157) && Encode(Stride(157)).Ok?
    ensures |Encode(Stride(157)).value| == 199 && FieldLength(Stride(157)) == 174
  {
    hide Runs, Encode, UseRange;
    var ids := Stride(157);
    StrideRuns(157, 157);
    assert 157 in ids && MaxId(ids) == 157;
    assert Isolated(ids) by {
      forall x | x in ids ensures x + 1 !in ids {}
    }
    AllSingles(ids, 157);
    EncodeThrowsExactly(ids);
    EncodedLength(ids);
    UseRangeIff(ids);
  }

  /** One id alone: up to 45 field form is chosen, which takes 17 bits more than the id; from 46 on
      range form, which always takes 46. */
  lemma OneId(x: nat)
    requires 0 < x <= 65535
    ensures Encode({x}).Ok? && RangeLength({x}) == 46
    ensures |Encode({x}).value| == if x <= 45 then 17 + x else 46
  {
    hide Runs, Encode, UseRange;
    var ids: set<nat> := {x};
    assert MaxId(ids) == x;
    assert Isolated(ids) && UpTo(ids, x) == ids;
    AllSingles(ids, x);
    IsolatedRuns(ids, x);
    EncodeThrowsExactly(ids);
    EncodedLength(ids);
    UseRangeIff(ids);
  }

  /** So the id 45 alone takes 62 bits where 46 suffice, and the id 46 alone takes 46. */
  lemma LongerBelowThreshold()
    ensures Encode({45}).Ok? && |Encode({45}).value| == 62 && RangeLength({45}) == 46
    ensures Encode({46}).Ok? && |Encode({46}).value| == 46 && FieldLength({46}) == 63
  {
    hide Encode, RangeLength;
    OneId(45);
    OneId(46);
    var ids: set<nat> := {46};
    assert MaxId(ids) == 46;
  }
}
