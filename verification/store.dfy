/** The state the services act on: the three tables, the messages published
    on the bus, the calls made to file storage, and a count of the times the
    database context saved. A service call maps a store to an outcome and a
    new store. */
module Store {
  import opened Core
  import opened MotorcycleEntity
  import opened DeliveryPersonEntity
  import opened RentalEntity
  import RentalRepository

  /** A call on the file storage service: an upload under a key with a
      content type, or the deletion of a previously returned URL. */
  datatype StorageCall =
    | Upload(key: Guid, contentType: string)
    | Delete(url: string)

  datatype Store = Store(
    motorcycles: seq<Motorcycle>,
    deliveryPersons: seq<DeliveryPerson>,
    rentals: seq<Rental>,
    events: seq<MotorcycleRegisteredEvent>,
    storage: seq<StorageCall>,
    saves: nat)

  /** The outcome of a service call (a value or the exception it throws) and
      the store it leaves behind. */
  datatype Step<+T> = Step(outcome: Result<T>, store: Store)

  /** Every stored rental carries its plan's rate, as the constructor sets it. */
  predicate RentalsPriced(st: Store) {
    forall r :: r in st.rentals ==> Priced(r)
  }

  /** No driver has two unreturned rentals. */
  predicate OneActiveRentalPerDriver(st: Store) {
    forall i, j :: 0 <= i < j < |st.rentals| && st.rentals[i].returnDate.None?
                   && st.rentals[j].returnDate.None?
                   ==> st.rentals[i].deliveryPersonId != st.rentals[j].deliveryPersonId
  }

  /** No two vehicles share an id. */
  predicate UniqueMotorcycleIds(st: Store) {
    forall i, j :: 0 <= i < j < |st.motorcycles| ==> st.motorcycles[i].id != st.motorcycles[j].id
  }

  /** No two drivers share an id. */
  predicate UniqueDeliveryPersonIds(st: Store) {
    forall i, j :: 0 <= i < j < |st.deliveryPersons| ==> st.deliveryPersons[i].id != st.deliveryPersons[j].id
  }

  /** No two vehicles share a plate. */
  predicate UniquePlates(st: Store) {
    forall i, j :: 0 <= i < j < |st.motorcycles|
                   ==> st.motorcycles[i].licensePlate != st.motorcycles[j].licensePlate
  }

  /** No two drivers share a tax id, nor a licence number. */
  predicate UniqueDriverDocuments(st: Store) {
    forall i, j :: 0 <= i < j < |st.deliveryPersons|
                   ==> && st.deliveryPersons[i].taxIdNumber != st.deliveryPersons[j].taxIdNumber
                       && st.deliveryPersons[i].licenseNumber != st.deliveryPersons[j].licenseNumber
  }

  /** Every rental names a stored vehicle. */
  predicate RentalsReferenceMotorcycles(st: Store) {
    forall r :: r in st.rentals ==> exists m :: m in st.motorcycles && m.id == r.motorcycleId
  }
}
