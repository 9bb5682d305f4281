/** The vehicle use cases: registration, plate change, listing and removal. */
module MotorcycleService {
  import opened Core
  import opened Dates
  import opened Dtos
  import opened MotorcycleEntity
  import opened Store
  import MotorcycleRepository
  import RentalRepository

  /** `CreateMotorcycleAsync`, with `id` and `utcNow` the identifier and
      clock reading the new vehicle gets. A plate already registered is
      refused and nothing changes. Otherwise exactly one vehicle is added
      (saved once) and exactly one registration event describing it is
      published. */
  function CreateMotorcycle(st: Store, dto: CreateMotorcycleDto, id: Guid, utcNow: DateTime): (s: Step<MotorcycleDto>)
    ensures (exists m :: m in st.motorcycles && m.licensePlate == dto.licensePlate) ==>
              s == Step(Failure(InvalidOperation(DuplicateLicensePlate)), st)
    ensures (forall m :: m in st.motorcycles ==> m.licensePlate != dto.licensePlate) ==>
              var m := Motorcycle(id, dto.year, dto.model, dto.licensePlate, utcNow);
              && s.outcome == Success(MotorcycleDto(id, dto.year, dto.model, dto.licensePlate))
              && s.store == st.(motorcycles := st.motorcycles + [m],
                                events := st.events + [RegisteredEvent(m)],
                                saves := st.saves + 1)
  {
    if MotorcycleRepository.LicensePlateExists(st.motorcycles, dto.licensePlate, None) then
      Step(Failure(InvalidOperation(DuplicateLicensePlate)), st)
    else
      var m := NewMotorcycle(id, dto.year, dto.model, dto.licensePlate, utcNow);
      var st' := st.(motorcycles := MotorcycleRepository.Add(st.motorcycles, m), saves := st.saves + 1);
      Step(Success(ToMotorcycleDto(m)), st'.(events := st'.events + [RegisteredEvent(m)]))
  }

  /** `GetMotorcycleByIdAsync`: the vehicle with that id as a response, or
      nothing. */
  function GetMotorcycle(st: Store, id: Guid): (r: Option<MotorcycleDto>)
    ensures r.None? <==> forall m :: m in st.motorcycles ==> m.id != id
    ensures r.Some? ==> exists m :: m in st.motorcycles && m.id == id && r.value == ToMotorcycleDto(m)
  {
    match MotorcycleRepository.GetById(st.motorcycles, id)
    case None => None
    case Some(m) => Some(ToMotorcycleDto(m))
  }

  /** A vehicle registered under a fresh id is found by it, as the
      registration answered. */
  lemma CreatedMotorcycleFound(st: Store, dto: CreateMotorcycleDto, id: Guid, utcNow: DateTime)
    requires forall m :: m in st.motorcycles ==> m.id != id
    ensures var s := CreateMotorcycle(st, dto, id, utcNow);
            s.outcome.Success? ==> GetMotorcycle(s.store, id) == Some(s.outcome.value)
  {
  }

  /** `ListMotorcyclesAsync`: the vehicles the plate filter selects, as
      responses; the store is only read. */
  function ListMotorcycles(st: Store, licensePlate: Option<string>): (dtos: seq<MotorcycleDto>)
    ensures forall dto :: dto in dtos <==>
              exists m :: m in MotorcycleRepository.GetByLicensePlateFilter(st.motorcycles, licensePlate)
                          && dto == ToMotorcycleDto(m)
  {
    var ms := MotorcycleRepository.GetByLicensePlateFilter(st.motorcycles, licensePlate);
    var dtos := seq(|ms|, i requires 0 <= i < |ms| => ToMotorcycleDto(ms[i]));
    assert forall dto :: dto in dtos ==> exists i :: 0 <= i < |ms| && dto == ToMotorcycleDto(ms[i]);
    assert forall i :: 0 <= i < |ms| ==> dtos[i] == ToMotorcycleDto(ms[i]);
    dtos
  }

  /** `UpdateLicensePlateAsync`. Refused, leaving everything as it was, when
      the vehicle does not exist, then when another vehicle has the new
      plate, then (by the entity) when the new plate is blank. Otherwise the
      vehicle's plate, and nothing else, changes, and the change is saved
      once. */
  function UpdateLicensePlate(st: Store, id: Guid, licensePlate: string): (s: Step<MotorcycleDto>)
    ensures s.outcome.Failure? ==> s.store == st
    ensures MotorcycleRepository.GetById(st.motorcycles, id).None? ==>
              s.outcome == Failure(InvalidOperation(MotorcycleNotFound))
    ensures MotorcycleRepository.GetById(st.motorcycles, id).Some? ==>
              var m := MotorcycleRepository.GetById(st.motorcycles, id).value;
              && ((exists x :: x in st.motorcycles && x.licensePlate == licensePlate && x.id != id) ==>
                    s.outcome == Failure(InvalidOperation(DuplicateLicensePlate)))
              && ((forall x :: x in st.motorcycles && x.licensePlate == licensePlate ==> x.id == id) ==>
                    && (Text.IsBlank(licensePlate) ==> s.outcome == Failure(Argument(BlankLicensePlate)))
                    && (!Text.IsBlank(licensePlate) ==>
                          && s.outcome == Success(ToMotorcycleDto(m.(licensePlate := licensePlate)))
                          && s.store == st.(motorcycles := MotorcycleRepository.Update(st.motorcycles, m.(licensePlate := licensePlate)),
                                            saves := st.saves + 1)))
  {
    match MotorcycleRepository.GetById(st.motorcycles, id)
    case None => Step(Failure(InvalidOperation(MotorcycleNotFound)), st)
    case Some(m) =>
      if MotorcycleRepository.LicensePlateExists(st.motorcycles, licensePlate, Some(id)) then
        Step(Failure(InvalidOperation(DuplicateLicensePlate)), st)
      else
        match MotorcycleEntity.UpdateLicensePlate(m, licensePlate)
        case Failure(e) => Step(Failure(e), st)
        case Success(m') =>
          Step(Success(ToMotorcycleDto(m')),
               st.(motorcycles := MotorcycleRepository.Update(st.motorcycles, m'), saves := st.saves + 1))
  }

  /** `RemoveMotorcycleAsync`. Refused, leaving everything as it was, when
      the vehicle does not exist, then when any rental, returned or not,
      names it. Otherwise exactly that vehicle is removed and the removal
      saved once. */
  function RemoveMotorcycle(st: Store, id: Guid): (s: Step<()>)
    ensures s.outcome.Failure? ==> s.store == st
    ensures (forall m :: m in st.motorcycles ==> m.id != id) ==>
              s.outcome == Failure(InvalidOperation(MotorcycleNotFound))
    ensures (exists m :: m in st.motorcycles && m.id == id) ==>
              && ((exists r :: r in st.rentals && r.motorcycleId == id) <==>
                    s.outcome == Failure(InvalidOperation(MotorcycleHasRentals)))
              && ((forall r :: r in st.rentals ==> r.motorcycleId != id) ==>
                    && s.outcome == Success(())
                    && (forall m :: m in s.store.motorcycles <==> m in st.motorcycles && m.id != id)
                    && s.store == st.(motorcycles := s.store.motorcycles, saves := st.saves + 1))
  {
    match MotorcycleRepository.GetById(st.motorcycles, id)
    case None => Step(Failure(InvalidOperation(MotorcycleNotFound)), st)
    case Some(m) =>
      if RentalRepository.HasRentalsByMotorcycleId(st.rentals, id) then
        Step(Failure(InvalidOperation(MotorcycleHasRentals)), st)
      else
        Step(Success(()), st.(motorcycles := MotorcycleRepository.Delete(st.motorcycles, m), saves := st.saves + 1))
  }

  /** Registering a vehicle keeps plates unique. */
  lemma CreateKeepsPlatesUnique(st: Store, dto: CreateMotorcycleDto, id: Guid, utcNow: DateTime)
    requires UniquePlates(st)
    ensures UniquePlates(CreateMotorcycle(st, dto, id, utcNow).store)
  {
    var s := CreateMotorcycle(st, dto, id, utcNow);
    if s.outcome.Success? {
      var ms := s.store.motorcycles;
      forall i, j | 0 <= i < j < |ms| ensures ms[i].licensePlate != ms[j].licensePlate {
        if j == |st.motorcycles| {
          assert ms[i] == st.motorcycles[i] && st.motorcycles[i] in st.motorcycles;
        }
      }
    }
  }

  /** Changing a plate keeps plates unique, provided ids are unique. */
  lemma UpdateKeepsPlatesUnique(st: Store, id: Guid, licensePlate: string)
    requires UniquePlates(st) && UniqueMotorcycleIds(st)
    ensures UniquePlates(UpdateLicensePlate(st, id, licensePlate).store)
  {
    var s := UpdateLicensePlate(st, id, licensePlate);
    if s.outcome.Success? {
      var ms := st.motorcycles;
      var ms' := s.store.motorcycles;
      forall i, j | 0 <= i < j < |ms'| ensures ms'[i].licensePlate != ms'[j].licensePlate {
        if ms[i].id == id {
          assert ms[j].id != id && ms[j] in ms;
        } else if ms[j].id == id {
          assert ms[i] in ms;
        }
      }
    }
  }

  /** Registering a vehicle under a fresh id keeps ids unique. */
  lemma CreateKeepsIdsUnique(st: Store, dto: CreateMotorcycleDto, id: Guid, utcNow: DateTime)
    requires UniqueMotorcycleIds(st)
    requires forall m :: m in st.motorcycles ==> m.id != id
    ensures UniqueMotorcycleIds(CreateMotorcycle(st, dto, id, utcNow).store)
  {
    var s := CreateMotorcycle(st, dto, id, utcNow);
    if s.outcome.Success? {
      var ms := s.store.motorcycles;
      forall i, j | 0 <= i < j < |ms| ensures ms[i].id != ms[j].id {
        if j == |st.motorcycles| {
          assert ms[i] == st.motorcycles[i] && st.motorcycles[i] in st.motorcycles;
        }
      }
    }
  }

  /** Removing a vehicle never leaves a rental naming a missing vehicle. */
  lemma RemoveKeepsReferences(st: Store, id: Guid)
    requires RentalsReferenceMotorcycles(st)
    ensures RentalsReferenceMotorcycles(RemoveMotorcycle(st, id).store)
  {
    var s := RemoveMotorcycle(st, id);
    if s.outcome.Success? {
      forall r | r in s.store.rentals
        ensures exists m :: m in s.store.motorcycles && m.id == r.motorcycleId
      {
        var m :| m in st.motorcycles && m.id == r.motorcycleId;
        assert r.motorcycleId != id;
        assert m in s.store.motorcycles;
      }
    }
  }

  /** A registration is announced with the vehicle's own data. */
  lemma CreatePublishesItsVehicle(st: Store, dto: CreateMotorcycleDto, id: Guid, utcNow: DateTime)
    requires forall m :: m in st.motorcycles ==> m.licensePlate != dto.licensePlate
    ensures var s := CreateMotorcycle(st, dto, id, utcNow);
            && |s.store.events| == |st.events| + 1
            && var e := s.store.events[|st.events|];
               e.motorcycleId == id && e.year == dto.year && e.model == dto.model
               && e.licensePlate == dto.licensePlate && e.registrationDate == utcNow
  {
  }
}
