/** The driver table, as a sequence, and the queries the services run on it. */
module DeliveryPersonRepository {
  import opened Core
  import opened Collections
  import opened DeliveryPersonEntity

  /** `GetByIdAsync`: the driver with that primary key, or null. */
  function GetById(ds: seq<DeliveryPerson>, id: Guid): (r: Option<DeliveryPerson>)
    ensures r.Some? ==> r.value in ds && r.value.id == id
    ensures r.None? <==> forall d :: d in ds ==> d.id != id
  {
    FirstWhere(ds, (d: DeliveryPerson) => d.id == id)
  }

  /** `AddAsync`. */
  function Add(ds: seq<DeliveryPerson>, d: DeliveryPerson): (ds': seq<DeliveryPerson>)
    ensures ds' == ds + [d]
  {
    ds + [d]
  }

  /** `UpdateAsync`: the stored row with the entity's key takes its values. */
  function Update(ds: seq<DeliveryPerson>, d: DeliveryPerson): (ds': seq<DeliveryPerson>)
    ensures |ds'| == |ds|
    ensures forall i :: 0 <= i < |ds| ==> ds'[i] == (if ds[i].id == d.id then d else ds[i])
  {
    ReplaceWhere(ds, (x: DeliveryPerson) => x.id == d.id, d)
  }

  /** `GetByTaxIdNumberAsync`: a driver with exactly that tax id, or null. */
  function GetByTaxIdNumber(ds: seq<DeliveryPerson>, taxIdNumber: string): (r: Option<DeliveryPerson>)
    ensures r.Some? ==> r.value in ds && r.value.taxIdNumber == taxIdNumber
    ensures r.None? <==> forall d :: d in ds ==> d.taxIdNumber != taxIdNumber
  {
    FirstWhere(ds, (d: DeliveryPerson) => d.taxIdNumber == taxIdNumber)
  }

  /** `GetByLicenseNumberAsync`: a driver with exactly that licence number,
      or null. */
  function GetByLicenseNumber(ds: seq<DeliveryPerson>, licenseNumber: string): (r: Option<DeliveryPerson>)
    ensures r.Some? ==> r.value in ds && r.value.licenseNumber == licenseNumber
    ensures r.None? <==> forall d :: d in ds ==> d.licenseNumber != licenseNumber
  {
    FirstWhere(ds, (d: DeliveryPerson) => d.licenseNumber == licenseNumber)
  }

  /** The rows that are not the one to exclude (all of them when none is). */
  function Excluding(ds: seq<DeliveryPerson>, excludeId: Option<Guid>): (r: seq<DeliveryPerson>)
    ensures forall d :: d in r <==> d in ds && (excludeId.None? || d.id != excludeId.value)
  {
    if excludeId.Some? then Filter(ds, (d: DeliveryPerson) => d.id != excludeId.value) else ds
  }

  /** `TaxIdNumberExistsAsync`: some driver has exactly that tax id and, when
      an id to exclude is given, a different id. */
  function TaxIdNumberExists(ds: seq<DeliveryPerson>, taxIdNumber: string, excludeId: Option<Guid>): (b: bool)
    ensures b <==> exists d :: d in ds && d.taxIdNumber == taxIdNumber
                               && (excludeId.None? || d.id != excludeId.value)
  {
    var query := Filter(ds, (d: DeliveryPerson) => d.taxIdNumber == taxIdNumber);
    NonEmptyIffMember(Excluding(query, excludeId));
    |Excluding(query, excludeId)| > 0
  }

  /** `LicenseNumberExistsAsync`: the same rule for the licence number. */
  function LicenseNumberExists(ds: seq<DeliveryPerson>, licenseNumber: string, excludeId: Option<Guid>): (b: bool)
    ensures b <==> exists d :: d in ds && d.licenseNumber == licenseNumber
                               && (excludeId.None? || d.id != excludeId.value)
  {
    var query := Filter(ds, (d: DeliveryPerson) => d.licenseNumber == licenseNumber);
    NonEmptyIffMember(Excluding(query, excludeId));
    |Excluding(query, excludeId)| > 0
  }

  /** The existence checks and the lookups agree: a tax id exists (with no
      exclusion) exactly when the lookup by it finds a driver, and likewise
      for the licence number. */
  lemma ExistsIffFound(ds: seq<DeliveryPerson>, taxIdNumber: string, licenseNumber: string)
    ensures TaxIdNumberExists(ds, taxIdNumber, None) <==> GetByTaxIdNumber(ds, taxIdNumber).Some?
    ensures LicenseNumberExists(ds, licenseNumber, None) <==> GetByLicenseNumber(ds, licenseNumber).Some?
  {
  }
}
