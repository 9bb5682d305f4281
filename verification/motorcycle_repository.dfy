/** The vehicle table, as a sequence, and the queries the services run on it. */
module MotorcycleRepository {
  import opened Core
  import opened Text
  import opened Collections
  import opened MotorcycleEntity

  /** `GetByIdAsync`: the vehicle with that primary key, or null. */
  function GetById(ms: seq<Motorcycle>, id: Guid): (r: Option<Motorcycle>)
    ensures r.Some? ==> r.value in ms && r.value.id == id
    ensures r.None? <==> forall m :: m in ms ==> m.id != id
  {
    FirstWhere(ms, (m: Motorcycle) => m.id == id)
  }

  /** `AddAsync`. */
  function Add(ms: seq<Motorcycle>, m: Motorcycle): (ms': seq<Motorcycle>)
    ensures ms' == ms + [m]
  {
    ms + [m]
  }

  /** `UpdateAsync`: the stored row with the entity's key takes its values. */
  function Update(ms: seq<Motorcycle>, m: Motorcycle): (ms': seq<Motorcycle>)
    ensures |ms'| == |ms|
    ensures forall i :: 0 <= i < |ms| ==> ms'[i] == (if ms[i].id == m.id then m else ms[i])
  {
    ReplaceWhere(ms, (x: Motorcycle) => x.id == m.id, m)
  }

  /** `DeleteAsync`: the row with the entity's key is removed. */
  function Delete(ms: seq<Motorcycle>, m: Motorcycle): (ms': seq<Motorcycle>)
    ensures forall x :: x in ms' <==> x in ms && x.id != m.id
  {
    Filter(ms, (x: Motorcycle) => x.id != m.id)
  }

  /** `GetByLicensePlateAsync`: a vehicle with exactly that plate, or null. */
  function GetByLicensePlate(ms: seq<Motorcycle>, licensePlate: string): (r: Option<Motorcycle>)
    ensures r.Some? ==> r.value in ms && r.value.licensePlate == licensePlate
    ensures r.None? <==> forall m :: m in ms ==> m.licensePlate != licensePlate
  {
    FirstWhere(ms, (m: Motorcycle) => m.licensePlate == licensePlate)
  }

  /** `GetByLicensePlateFilterAsync`: every vehicle when the filter is null
      or blank, otherwise exactly those whose plate contains the filter. */
  function GetByLicensePlateFilter(ms: seq<Motorcycle>, licensePlate: Option<string>): (result: seq<Motorcycle>)
    ensures IsNullOrWhiteSpace(licensePlate) ==> result == ms
    ensures !IsNullOrWhiteSpace(licensePlate) ==>
      forall m :: m in result <==> m in ms && Contains(m.licensePlate, licensePlate.value)
  {
    if !IsNullOrWhiteSpace(licensePlate) then
      Filter(ms, (m: Motorcycle) => Contains(m.licensePlate, licensePlate.value))
    else ms
  }

  /** `LicensePlateExistsAsync`: some vehicle has exactly that plate and, when
      an id to exclude is given, a different id. */
  function LicensePlateExists(ms: seq<Motorcycle>, licensePlate: string, excludeId: Option<Guid>): (b: bool)
    ensures b <==> exists m :: m in ms && m.licensePlate == licensePlate
                               && (excludeId.None? || m.id != excludeId.value)
  {
    var query := Filter(ms, (m: Motorcycle) => m.licensePlate == licensePlate);
    var query' := if excludeId.Some? then Filter(query, (m: Motorcycle) => m.id != excludeId.value)
                  else query;
    assert forall m :: m in query' <==> m in ms && m.licensePlate == licensePlate
                                        && (excludeId.None? || m.id != excludeId.value);
    NonEmptyIffMember(query');
    |query'| > 0
  }

  /** Every vehicle is found by filtering on its own plate. */
  lemma FilterFindsOwnPlate(ms: seq<Motorcycle>, m: Motorcycle)
    requires m in ms && !IsBlank(m.licensePlate)
    ensures m in GetByLicensePlateFilter(ms, Some(m.licensePlate))
  {
    ContainsItself(m.licensePlate);
  }

  /** After a delete, looking the vehicle up by its id finds nothing. */
  lemma DeletedNotFound(ms: seq<Motorcycle>, m: Motorcycle)
    ensures GetById(Delete(ms, m), m.id).None?
  {
  }

  /** Excluding a vehicle's own id, its current plate is free exactly when no
      other vehicle uses it. */
  lemma OwnPlateExcluded(ms: seq<Motorcycle>, m: Motorcycle)
    requires m in ms
    ensures LicensePlateExists(ms, m.licensePlate, None)
    ensures !LicensePlateExists(ms, m.licensePlate, Some(m.id)) <==>
            forall x :: x in ms && x.licensePlate == m.licensePlate ==> x.id == m.id
  {
  }
}
