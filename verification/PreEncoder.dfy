/** What happens to a model before it is encoded: vendors that may not have a legal basis lose
    it, and the vendor list's own values take the place of the model's. */
module PreEncoder {
  import opened Wrappers
  import opened Fields
  import opened Segments
  import opened VendorList
  import V = Vector
  import TcString
  import Restrictions

  datatype Basis = LegInt | Consent

  function DeclaredFor(v: Vendor, basis: Basis): set<nat> {
    if basis.LegInt? then v.legIntPurposes else v.purposes
  }

  /** A restriction that moves the vendor to this legal basis. */
  predicate Requires(e: Restrictions.Entry, vendor: nat, basis: Basis) {
    && vendor in e.vendors
    && e.key.restrictionType == if basis.LegInt? then Restrictions.REQUIRE_LI else Restrictions.REQUIRE_CONSENT
  }

  /** Whether a vendor keeps the legal basis it was given. */
  predicate Keeps(gvl: Gvl, vendor: nat, basis: Basis, serviceSpecific: bool, rs: seq<Restrictions.Entry>) {
    && vendor in gvl.vendors
    && var v := gvl.vendors[vendor];
       && !v.deleted
       && (|| DeclaredFor(v, basis) != {}
           || (basis.LegInt? && v.specialPurposes != {})
           || (serviceSpecific && v.flexiblePurposes != {}
               && exists i :: 0 <= i < |rs| && Requires(rs[i], vendor, basis)))
  }

  function Kept(gvl: Gvl, ids: set<nat>, basis: Basis, serviceSpecific: bool, rs: seq<Restrictions.Entry>): set<nat> {
    set x | x in ids && Keeps(gvl, x, basis, serviceSpecific, rs)
  }

  /** `forEach` with `unset` inside: the loop re-reads the maximum, which shrinks under it, and still
      visits every id. */
  method Filter(vec: V.Vector, gvl: Gvl, basis: Basis, serviceSpecific: bool, rs: seq<Restrictions.Entry>)
    requires vec.Valid()
    modifies vec
    ensures vec.Valid() && vec.ids == Kept(gvl, old(vec.ids), basis, serviceSpecific, rs)
  {
    ghost var before := vec.ids;
    var a := 1;
    while a <= vec.maxId
      invariant vec.Valid() && a >= 1
      invariant forall x :: x in vec.ids <==> x in before && (x < a ==> Keeps(gvl, x, basis, serviceSpecific, rs))
      decreases V.MaxId(before) + 1 - a
    {
      assert vec.maxId in vec.ids;
      if a in vec.ids {
        if a !in gvl.vendors || gvl.vendors[a].deleted {
          vec.Unset(a);
        } else {
          var v := gvl.vendors[a];
          if |DeclaredFor(v, basis)| == 0 {
            if basis.LegInt? && |v.purposes| == 0 && |v.legIntPurposes| == 0 && |v.specialPurposes| > 0 {
              var _ := vec.Set(a);
            } else if basis.LegInt? && |v.purposes| > 0 && |v.legIntPurposes| == 0 && |v.specialPurposes| > 0 {
              var _ := vec.Set(a);
            } else if serviceSpecific {
              if |v.flexiblePurposes| == 0 {
                vec.Unset(a);
              } else {
                var required := AnyRequires(rs, a, basis);
                if !required {
                  vec.Unset(a);
                }
              }
            } else {
              vec.Unset(a);
            }
          }
        }
      }
      a := a + 1;
    }
  }

  method AnyRequires(rs: seq<Restrictions.Entry>, vendor: nat, basis: Basis) returns (found: bool)
    ensures found <==> exists i :: 0 <= i < |rs| && Requires(rs[i], vendor, basis)
  {
    found := false;
    var d := 0;
    while d < |rs| && !found
      invariant 0 <= d <= |rs|
      invariant found <==> exists i :: 0 <= i < d && Requires(rs[i], vendor, basis)
    {
      found := Requires(rs[d], vendor, basis);
      d := d + 1;
    }
  }

  /** No vendor keeps a legal basis that the vendor list does not have as a live vendor. */
  lemma OnlyLiveVendors(gvl: Gvl, ids: set<nat>, basis: Basis, serviceSpecific: bool, rs: seq<Restrictions.Entry>)
    requires gvl.Valid()
    ensures Kept(gvl, ids, basis, serviceSpecific, rs) <= gvl.vendors.Keys * ids
    ensures V.MaxId(Kept(gvl, ids, basis, serviceSpecific, rs)) <= V.MaxId(gvl.vendorIds)
  {
    var kept := Kept(gvl, ids, basis, serviceSpecific, rs);
    if kept != {} {
      assert V.MaxId(kept) in gvl.vendors.Keys;
    }
  }

  const LEG_INT_EXCLUDED: set<nat> := {1, 3, 4, 5, 6}

  /** The version-2 processor: restrictions filtered by the vendor list unless they have one
      already, purposes that cannot rest on legitimate interest dropped, vendors filtered. */
  function FilterBases(m: Model, gvl: Gvl, attached: bool): Model
    requires WellTyped(m)
  {
    var rs := if attached then m[PublisherRestrictions].entries
              else Restrictions.Attach(gvl, m[PublisherRestrictions].entries);
    var specific := m[IsServiceSpecific].b;
    m[PublisherRestrictions := Restr(rs)]
     [PurposeLegitimateInterests := Ids(m[PurposeLegitimateInterests].ids - LEG_INT_EXCLUDED)]
     [VendorLegitimateInterests := Ids(Kept(gvl, m[VendorLegitimateInterests].ids, LegInt, specific, rs))]
     [VendorConsents := Ids(Kept(gvl, m[VendorConsents].ids, Consent, specific, rs))]
  }

  /** The values that come from the vendor list, and the version. */
  function TakeListValues(m: Model, gvl: Gvl): Model {
    m[ConsentLanguage := Code(UpperAll(if |gvl.language| < 2 then gvl.language else gvl.language[..2]))]
     [VendorListVersion := Num(gvl.version)]
     [PolicyVersion := Num(gvl.policyVersion)]
     [Version := Num(2)]
  }

  /** `SemanticPreEncoder.process` to version 2. */
  function Process(m: Model, gvl: Gvl, attached: bool): Model
    requires WellTyped(m)
  {
    TakeListValues(FilterBases(m, gvl, attached), gvl)
  }

  function UpperAll(s: string): string {
    seq(|s|, i requires 0 <= i < |s| => Upper(s[i]))
  }

  lemma AttachWellKeyed(gvl: Gvl, es: seq<Restrictions.Entry>)
    requires Restrictions.WellKeyed(es)
    ensures Restrictions.WellKeyed(Restrictions.Attach(gvl, es))
    ensures Restrictions.AllOk(Restrictions.Attach(gvl, es), gvl)
  {
  }

  lemma FilterBasesWellTyped(m: Model, gvl: Gvl, attached: bool)
    requires WellTyped(m)
    ensures WellTyped(FilterBases(m, gvl, attached))
  {
    hide Kept, Restrictions.Attach, Restrictions.WellKeyed;
    AttachWellKeyed(gvl, m[PublisherRestrictions].entries);
    var p := FilterBases(m, gvl, attached);
    var rs := p[PublisherRestrictions].entries;
    KeptSubset(gvl, m[VendorConsents].ids, Consent, m[IsServiceSpecific].b, rs);
    KeptSubset(gvl, m[VendorLegitimateInterests].ids, LegInt, m[IsServiceSpecific].b, rs);
    forall f: Field ensures f in p && HasType(f, p[f]) {
      assert f in m && HasType(f, m[f]);
    }
  }

  lemma TakeListValuesWellTyped(m: Model, gvl: Gvl)
    requires WellTyped(m)
    ensures WellTyped(TakeListValues(m, gvl))
  {
    hide UpperAll, Restrictions.WellKeyed;
    var p := TakeListValues(m, gvl);
    forall f: Field ensures f in p && HasType(f, p[f]) {
      assert f in m && HasType(f, m[f]);
    }
  }

  /** What the filtering promises: only live vendors and allowed restrictions are left. */
  ghost predicate Filtered(p: Model, gvl: Gvl)
    requires WellTyped(p)
  {
    && p[VendorConsents].ids <= gvl.vendors.Keys
    && p[VendorLegitimateInterests].ids <= gvl.vendors.Keys
    && p[PurposeLegitimateInterests].ids !! LEG_INT_EXCLUDED
    && Restrictions.AllOk(p[PublisherRestrictions].entries, gvl)
  }

  lemma FilterBasesFilters(m: Model, gvl: Gvl, attached: bool)
    requires WellTyped(m) && WellTyped(FilterBases(m, gvl, attached)) && gvl.Valid()
    requires attached ==> Restrictions.AllOk(m[PublisherRestrictions].entries, gvl)
    ensures Filtered(FilterBases(m, gvl, attached), gvl)
  {
    hide Kept, Restrictions.Attach, Restrictions.AllOk;
    AttachWellKeyed(gvl, m[PublisherRestrictions].entries);
    var rs := FilterBases(m, gvl, attached)[PublisherRestrictions].entries;
    OnlyLiveVendors(gvl, m[VendorConsents].ids, Consent, m[IsServiceSpecific].b, rs);
    OnlyLiveVendors(gvl, m[VendorLegitimateInterests].ids, LegInt, m[IsServiceSpecific].b, rs);
  }

  /** A model that is ready to be encoded against a vendor list. */
  ghost predicate Processed(p: Model, gvl: Gvl) {
    WellTyped(p) && p[Version] == Num(2) && Filtered(p, gvl)
  }

  /** Processing leaves only live vendors and allowed restrictions. */
  lemma ProcessProcesses(m: Model, gvl: Gvl, attached: bool)
    requires WellTyped(m) && gvl.Valid()
    requires attached ==> Restrictions.AllOk(m[PublisherRestrictions].entries, gvl)
    ensures Processed(Process(m, gvl, attached), gvl)
  {
    hide FilterBases, Restrictions.AllOk, UpperAll;
    FilterBasesWellTyped(m, gvl, attached);
    FilterBasesFilters(m, gvl, attached);
    TakeListValuesWellTyped(FilterBases(m, gvl, attached), gvl);
  }

  // ---- What processing makes of a model ----

  /** Some restriction of this type names the vendor. */
  predicate RestrictedTo(rs: seq<Restrictions.Entry>, kind: nat, vendor: nat) {
    exists i :: 0 <= i < |rs| && rs[i].key.restrictionType == kind && vendor in rs[i].vendors
  }

  predicate Live(gvl: Gvl, vendor: nat) {
    vendor in gvl.vendors && !gvl.vendors[vendor].deleted
  }

  /** A live vendor may have consent if it declares purposes for it, or, on a service-specific string, is
      flexible and has consent required of it. */
  predicate MayHaveConsent(gvl: Gvl, vendor: nat, specific: bool, rs: seq<Restrictions.Entry>) {
    && Live(gvl, vendor)
    && var v := gvl.vendors[vendor];
       v.purposes != {} || (specific && v.flexiblePurposes != {} && RestrictedTo(rs, 1, vendor))
  }

  /** A live vendor may have a legitimate interest if it declares purposes for it or special purposes,
      or, on a service-specific string, is flexible and has legitimate interest required of it. */
  predicate MayHaveInterest(gvl: Gvl, vendor: nat, specific: bool, rs: seq<Restrictions.Entry>) {
    && Live(gvl, vendor)
    && var v := gvl.vendors[vendor];
       || v.legIntPurposes != {} || v.specialPurposes != {}
       || (specific && v.flexiblePurposes != {} && RestrictedTo(rs, 2, vendor))
  }

  lemma KeptConsent(gvl: Gvl, ids: set<nat>, specific: bool, rs: seq<Restrictions.Entry>, x: nat)
    ensures x in Kept(gvl, ids, Consent, specific, rs) <==> x in ids && MayHaveConsent(gvl, x, specific, rs)
  {
    assert (exists i :: 0 <= i < |rs| && Requires(rs[i], x, Consent)) <==> RestrictedTo(rs, 1, x) by {
      RequiresIs(rs, x);
    }
  }

  lemma KeptInterest(gvl: Gvl, ids: set<nat>, specific: bool, rs: seq<Restrictions.Entry>, x: nat)
    ensures x in Kept(gvl, ids, LegInt, specific, rs) <==> x in ids && MayHaveInterest(gvl, x, specific, rs)
  {
    assert (exists i :: 0 <= i < |rs| && Requires(rs[i], x, LegInt)) <==> RestrictedTo(rs, 2, x) by {
      RequiresIs(rs, x);
    }
  }

  lemma RequiresIs(rs: seq<Restrictions.Entry>, x: nat)
    ensures forall i :: 0 <= i < |rs| ==>
                          (Requires(rs[i], x, Consent) <==> rs[i].key.restrictionType == 1 && x in rs[i].vendors)
    ensures forall i :: 0 <= i < |rs| ==>
                          (Requires(rs[i], x, LegInt) <==> rs[i].key.restrictionType == 2 && x in rs[i].vendors)
  {
  }

  lemma Vectors(m: Model, gvl: Gvl, attached: bool)
    requires WellTyped(m)
    ensures VendorConsents in m && m[VendorConsents].Ids? && VendorLegitimateInterests in m && m[VendorLegitimateInterests].Ids?
    ensures IsServiceSpecific in m && m[IsServiceSpecific].Flag? && PublisherRestrictions in m && m[PublisherRestrictions].Restr?
    ensures var p := Process(m, gvl, attached);
            && PublisherRestrictions in p && p[PublisherRestrictions].Restr?
            && var specific, rs := m[IsServiceSpecific].b, p[PublisherRestrictions].entries;
               && VendorConsents in p && p[VendorConsents] == Ids(Kept(gvl, m[VendorConsents].ids, Consent, specific, rs))
               && VendorLegitimateInterests in p
               && p[VendorLegitimateInterests] == Ids(Kept(gvl, m[VendorLegitimateInterests].ids, LegInt, specific, rs))
  {
    hide Kept, Restrictions.Attach, UpperAll, WellTyped;
    FieldTyped(m, VendorConsents);
    FieldTyped(m, VendorLegitimateInterests);
    FieldTyped(m, IsServiceSpecific);
    FieldTyped(m, PublisherRestrictions);
  }

  /** Which vendors a processed model keeps in either vector. */
  lemma ProcessKeeps(m: Model, gvl: Gvl, attached: bool, x: nat)
    requires WellTyped(m)
    ensures WellTyped(Process(m, gvl, attached))
    ensures var p := Process(m, gvl, attached);
            var specific, rs := m[IsServiceSpecific].b, p[PublisherRestrictions].entries;
            && (x in p[VendorConsents].ids <==> x in m[VendorConsents].ids && MayHaveConsent(gvl, x, specific, rs))
            && (x in p[VendorLegitimateInterests].ids <==>
                  x in m[VendorLegitimateInterests].ids && MayHaveInterest(gvl, x, specific, rs))
  {
    hide Kept, Process, MayHaveConsent, MayHaveInterest, WellTyped;
    ProcessTyped(m, gvl, attached);
    Vectors(m, gvl, attached);
    var p := Process(m, gvl, attached);
    var rs := p[PublisherRestrictions].entries;
    KeptConsent(gvl, m[VendorConsents].ids, m[IsServiceSpecific].b, rs, x);
    KeptInterest(gvl, m[VendorLegitimateInterests].ids, m[IsServiceSpecific].b, rs, x);
  }

  lemma ProcessTyped(m: Model, gvl: Gvl, attached: bool)
    requires WellTyped(m)
    ensures WellTyped(Process(m, gvl, attached))
  {
    hide FilterBases, UpperAll, WellTyped;
    FilterBasesWellTyped(m, gvl, attached);
    TakeListValuesWellTyped(FilterBases(m, gvl, attached), gvl);
  }

  const SET_BY_PROCESSING: set<Field> := {
    Version, VendorListVersion, PolicyVersion, ConsentLanguage, PurposeLegitimateInterests, PublisherRestrictions,
    VendorConsents, VendorLegitimateInterests}

  /** The other fields that processing sets, and all that it leaves alone. */
  lemma ProcessSets(m: Model, gvl: Gvl, attached: bool, f: Field)
    requires WellTyped(m)
    ensures WellTyped(Process(m, gvl, attached))
    ensures var p := Process(m, gvl, attached);
            && p[Version] == Num(2) && p[VendorListVersion] == Num(gvl.version) && p[PolicyVersion] == Num(gvl.policyVersion)
            && p[PurposeLegitimateInterests].ids == m[PurposeLegitimateInterests].ids - {1, 3, 4, 5, 6}
            && p[PublisherRestrictions].entries
               == (if attached then m[PublisherRestrictions].entries
                   else Restrictions.Attach(gvl, m[PublisherRestrictions].entries))
            && (f !in SET_BY_PROCESSING ==> p[f] == m[f])
  {
    hide Kept, Restrictions.Attach, UpperAll;
    FilterBasesWellTyped(m, gvl, attached);
    TakeListValuesWellTyped(FilterBases(m, gvl, attached), gvl);
  }

  /** The language of a processed model is that of the list: at most two characters, in upper case. */
  lemma ProcessLanguage(m: Model, gvl: Gvl, attached: bool)
    requires WellTyped(m)
    ensures var p := Process(m, gvl, attached);
            && ConsentLanguage in p && p[ConsentLanguage].Code?
            && var s := p[ConsentLanguage].s;
               && |s| == (if |gvl.language| < 2 then |gvl.language| else 2)
               && forall i :: 0 <= i < |s| ==> s[i] == if 'a' <= gvl.language[i] <= 'z' then (gvl.language[i] as int - 32) as char
                                                       else gvl.language[i]
  {
    hide FilterBases;
  }

  // ---- The processor as it runs ----

  method CopyVector(ids: set<nat>) returns (v: V.Vector)
    requires 0 !in ids
    ensures fresh(v) && v.Valid() && v.ids == ids
  {
    v := new V.Vector();
    var rest := ids;
    while rest != {}
      invariant v.Valid() && rest <= ids && v.ids == ids - rest
      decreases rest
    {
      var x :| x in rest;
      var _ := v.Set(x);
      rest := rest - {x};
    }
  }

  method UnsetAll(v: V.Vector, drop: seq<nat>)
    requires v.Valid()
    modifies v
    ensures v.Valid() && forall x :: x in v.ids <==> x in old(v.ids) && x !in drop
  {
    for k := 0 to |drop|
      invariant v.Valid() && forall x :: x in v.ids <==> x in old(v.ids) && x !in drop[..k]
    {
      v.Unset(drop[k]);
      assert drop[..k + 1] == drop[..k] + [drop[k]];
    }
    assert drop[..|drop|] == drop;
  }

  method FilterVector(ids: set<nat>, gvl: Gvl, basis: Basis, specific: bool, rs: seq<Restrictions.Entry>)
    returns (kept: set<nat>)
    requires 0 !in ids
    ensures kept == Kept(gvl, ids, basis, specific, rs)
  {
    var vec := CopyVector(ids);
    Filter(vec, gvl, basis, specific, rs);
    kept := vec.ids;
  }

  method DropExcluded(ids: set<nat>) returns (kept: set<nat>)
    requires 0 !in ids
    ensures kept == ids - {1, 3, 4, 5, 6}
  {
    var vec := CopyVector(ids);
    UnsetAll(vec, [1, 3, 4, 5, 6]);
    kept := vec.ids;
  }

  /** `SemanticPreEncoder.process`: a copy of the model, its vectors filtered one after the other. */
  method ProcessModel(m: Model, gvl: Gvl, attached: bool) returns (p: Model)
    requires WellTyped(m)
    ensures p == Process(m, gvl, attached)
  {
    hide Kept, Restrictions.Attach, UpperAll, WellTyped;
    FieldTyped(m, VendorConsents);
    FieldTyped(m, VendorLegitimateInterests);
    FieldTyped(m, IsServiceSpecific);
    FieldTyped(m, PublisherRestrictions);
    FieldTyped(m, PurposeLegitimateInterests);
    var entries, specific := m[PublisherRestrictions].entries, m[IsServiceSpecific].b;
    var rs := if attached then entries else Restrictions.Attach(gvl, entries);
    var purposes := DropExcluded(m[PurposeLegitimateInterests].ids);
    var interests := FilterVector(m[VendorLegitimateInterests].ids, gvl, LegInt, specific, rs);
    var consents := FilterVector(m[VendorConsents].ids, gvl, Consent, specific, rs);
    p := m[PublisherRestrictions := Restr(rs)]
          [PurposeLegitimateInterests := Ids(purposes)]
          [VendorLegitimateInterests := Ids(interests)]
          [VendorConsents := Ids(consents)];
    assert p == FilterBases(m, gvl, attached);
    p := TakeListValues(p, gvl);
  }

  lemma KeptSubset(gvl: Gvl, ids: set<nat>, basis: Basis, serviceSpecific: bool, rs: seq<Restrictions.Entry>)
    ensures Kept(gvl, ids, basis, serviceSpecific, rs) <= ids
  {
  }

  /** A decoded model has the vendor vectors of `p`, and its restrictions once the list is attached. */
  ghost predicate CameBack(p: Model, d: Model, gvl: Gvl)
    requires WellTyped(p)
  {
    && VendorConsents in d && d[VendorConsents] == p[VendorConsents]
    && VendorLegitimateInterests in d && d[VendorLegitimateInterests] == p[VendorLegitimateInterests]
    && PublisherRestrictions in d && d[PublisherRestrictions].Restr?
    && Restrictions.Attach(gvl, d[PublisherRestrictions].entries)
       == Restrictions.NonEmpty(p[PublisherRestrictions].entries)
  }

  /** From a processed model to a string and back. */
  lemma EndToEnd(p: Model, gvl: Gvl, gs: seq<Segment>, t: Model, s: string) returns (d: Model)
    requires Processed(p, gvl) && gvl.Valid() && p[CmpId].n > 1 && HasCount(t)
    requires VendorConsents in t && VendorLegitimateInterests in t && PublisherRestrictions in t
    requires gs != [] && gs[0] == Core && TcString.Encode(gs, p, gvl.vendorIds) == Ok(s)
    ensures TcString.Decode(s, t) == Ok(d)
    ensures CameBack(p, d, gvl)
  {
    hide TcString.Encode, TcString.Decode, TcString.RestoredAll, Restrictions.Attach, Canonical;
    TcString.RoundTrip(gs, p, t, gvl.vendorIds);
    d := TcString.RestoredAll(gs, p, t, gvl.vendorIds);
    CoreFields(gs);
    VectorsCanonical(p);
    TcString.FieldSurvives(gs, p, t, gvl.vendorIds, VendorConsents);
    TcString.FieldSurvives(gs, p, t, gvl.vendorIds, VendorLegitimateInterests);
    TcString.RestrictionsSurvive(gs, p, t, gvl);
  }

  lemma CoreFields(gs: seq<Segment>)
    requires gs != [] && gs[0] == Core
    ensures TcString.Emitted(gs, VendorConsents) && TcString.Emitted(gs, VendorLegitimateInterests)
  {
    assert FieldSequence(gs[0])[16] == VendorConsents && FieldSequence(gs[0])[17] == VendorLegitimateInterests;
  }

  lemma VectorsCanonical(p: Model)
    requires WellTyped(p)
    ensures WidthOf(p, VendorConsents).None? && Canonical(VendorConsents, p[VendorConsents], None)
    ensures WidthOf(p, VendorLegitimateInterests).None?
    ensures Canonical(VendorLegitimateInterests, p[VendorLegitimateInterests], None)
  {
  }
}
