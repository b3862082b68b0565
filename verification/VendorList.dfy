/** The part of the global vendor list that the codec reads. */
module VendorList {

  datatype Vendor = Vendor(
    purposes: set<nat>,
    legIntPurposes: set<nat>,
    flexiblePurposes: set<nat>,
    specialPurposes: set<nat>,
    deleted: bool)

  /** `vendorIds` also names vendors that were deleted; `vendors` holds only the live ones. */
  datatype Gvl = Gvl(
    vendorIds: set<nat>,
    vendors: map<nat, Vendor>,
    version: nat,
    policyVersion: nat,
    language: string)
  {
    /** What `mapVendors` establishes. */
    ghost predicate Valid() {
      && 0 !in vendorIds
      && vendors.Keys <= vendorIds
      && forall v :: v in vendors ==> !vendors[v].deleted
    }
  }
}
