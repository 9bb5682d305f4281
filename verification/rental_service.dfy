/** The rental use cases: opening a rental, registering its return, and
    previewing what a return on some date would cost. */
module RentalService {
  import opened Core
  import opened Dates
  import opened Dtos
  import opened RentalEntity
  import opened DeliveryPersonEntity
  import opened Store
  import MotorcycleRepository
  import DeliveryPersonRepository
  import RentalRepository
  import RentalValidator

  /** The plans the service accepts, as it lists them. */
  const ValidPlans: seq<int> := [7, 15, 30, 45, 50]

  /** Why `CreateRental` would refuse `dto` against `st`, checking in the
      service's order: the vehicle, the driver, the driver's licence, an
      open rental of the driver, the plan. */
  function CreateRefusal(st: Store, dto: CreateRentalDto): (e: Option<Error>)
    ensures e == Some(InvalidOperation(MotorcycleNotFound)) <==>
              forall m :: m in st.motorcycles ==> m.id != dto.motorcycleId
    ensures e == Some(InvalidOperation(DeliveryPersonNotFound)) <==>
              && (exists m :: m in st.motorcycles && m.id == dto.motorcycleId)
              && (forall d :: d in st.deliveryPersons ==> d.id != dto.deliveryPersonId)
    ensures e == Some(InvalidOperation(LicenseNotEligible)) ==>
              exists d :: d in st.deliveryPersons && d.id == dto.deliveryPersonId && !CanRent(d)
    ensures e == Some(InvalidOperation(ActiveRentalExists)) ==>
              exists r :: r in st.rentals && RentalRepository.IsActiveFor(r, dto.deliveryPersonId)
    ensures e == Some(InvalidOperation(InvalidPlan)) ==> dto.planDays !in {7, 15, 30, 45, 50}
    ensures var driver := DeliveryPersonRepository.GetById(st.deliveryPersons, dto.deliveryPersonId);
            e == Some(InvalidOperation(LicenseNotEligible)) <==>
              && (exists m :: m in st.motorcycles && m.id == dto.motorcycleId)
              && driver.Some? && !CanRent(driver.value)
    ensures var driver := DeliveryPersonRepository.GetById(st.deliveryPersons, dto.deliveryPersonId);
            e == Some(InvalidOperation(ActiveRentalExists)) <==>
              && (exists m :: m in st.motorcycles && m.id == dto.motorcycleId)
              && driver.Some? && CanRent(driver.value)
              && (exists r :: r in st.rentals && RentalRepository.IsActiveFor(r, dto.deliveryPersonId))
    ensures var driver := DeliveryPersonRepository.GetById(st.deliveryPersons, dto.deliveryPersonId);
            e == Some(InvalidOperation(InvalidPlan)) <==>
              && (exists m :: m in st.motorcycles && m.id == dto.motorcycleId)
              && driver.Some? && CanRent(driver.value)
              && (forall r :: r in st.rentals ==> !RentalRepository.IsActiveFor(r, dto.deliveryPersonId))
              && dto.planDays !in {7, 15, 30, 45, 50}
    ensures e.None? ==>
              && (exists m :: m in st.motorcycles && m.id == dto.motorcycleId)
              && (exists d :: d in st.deliveryPersons && d.id == dto.deliveryPersonId && CanRent(d))
              && (forall r :: r in st.rentals ==> !RentalRepository.IsActiveFor(r, dto.deliveryPersonId))
              && dto.planDays in {7, 15, 30, 45, 50}
    ensures && (exists m :: m in st.motorcycles && m.id == dto.motorcycleId)
            && (exists d :: d in st.deliveryPersons && d.id == dto.deliveryPersonId)
            && (forall d :: d in st.deliveryPersons && d.id == dto.deliveryPersonId ==> CanRent(d))
            && (forall r :: r in st.rentals ==> !RentalRepository.IsActiveFor(r, dto.deliveryPersonId))
            && dto.planDays in {7, 15, 30, 45, 50}
            ==> e.None?
  {
    if MotorcycleRepository.GetById(st.motorcycles, dto.motorcycleId).None? then
      Some(InvalidOperation(MotorcycleNotFound))
    else if DeliveryPersonRepository.GetById(st.deliveryPersons, dto.deliveryPersonId).None? then
      Some(InvalidOperation(DeliveryPersonNotFound))
    else if !CanRent(DeliveryPersonRepository.GetById(st.deliveryPersons, dto.deliveryPersonId).value) then
      Some(InvalidOperation(LicenseNotEligible))
    else if RentalRepository.GetActiveByDeliveryPersonId(st.rentals, dto.deliveryPersonId).Some? then
      Some(InvalidOperation(ActiveRentalExists))
    else if dto.planDays !in ValidPlans then
      Some(InvalidOperation(InvalidPlan))
    else None
  }

  /** The first day of a rental opened at `utcNow`: midnight UTC of the next
      calendar day. The UTC clock's reading always has the Utc kind, and so
      does the date derived from it. */
  function StartDateFor(utcNow: DateTime): (d: DateTime)
    ensures d.day == utcNow.day + 1 && d.time == 0 && d.kind == Utc
  {
    AddDays(DateOf(SpecifyKind(utcNow, Utc)), 1)
  }

  /** `CreateRentalAsync`, with `utcNow` the clock's reading and `id` the new
      rental's identifier. A refused request changes nothing. An accepted one
      opens exactly one rental for the vehicle and driver, starting tomorrow
      and expected back `planDays` days later, priced by the table, and
      saves once. */
  function CreateRental(st: Store, dto: CreateRentalDto, utcNow: DateTime, id: Guid): (s: Step<RentalDto>)
    ensures CreateRefusal(st, dto).Some? ==> s == Step(Failure(CreateRefusal(st, dto).value), st)
    ensures CreateRefusal(st, dto).None? ==> s.outcome.Success?
    ensures s.outcome.Success? ==>
      exists r :: && s.store == st.(rentals := st.rentals + [r], saves := st.saves + 1)
                  && s.outcome.value == ToRentalDto(r)
                  && r.id == id && r.createdAt == utcNow
                  && r.motorcycleId == dto.motorcycleId
                  && r.deliveryPersonId == dto.deliveryPersonId
                  && r.planDays == dto.planDays && Priced(r)
                  && r.startDate == StartDateFor(utcNow)
                  && r.expectedEndDate.day == utcNow.day + 1 + dto.planDays
                  && r.expectedEndDate.time == 0
                  && r.endDate == r.expectedEndDate
                  && r.totalAmount == TotalAmount(r.planDays, r.dailyRate)
                  && r.returnDate.None? && r.fineAmount.None? && r.additionalAmount.None?
  {
    match CreateRefusal(st, dto)
    case Some(e) => Step(Failure(e), st)
    case None =>
      var startDate := StartDateFor(utcNow);
      var expectedEndDate := AddDays(startDate, dto.planDays);
      match NewRental(id, dto.motorcycleId, dto.deliveryPersonId, startDate, expectedEndDate,
                      dto.planDays, utcNow)
      case Failure(e) => Step(Failure(e), st)
      case Success(r) =>
        Step(Success(ToRentalDto(r)),
             st.(rentals := RentalRepository.Add(st.rentals, r), saves := st.saves + 1))
  }

  /** `GetRentalByIdAsync`: the rental with that id as a response, or
      nothing. */
  function GetRental(st: Store, id: Guid): (r: Option<RentalDto>)
    ensures r.None? <==> forall x :: x in st.rentals ==> x.id != id
    ensures r.Some? ==> exists x :: x in st.rentals && x.id == id && r.value == ToRentalDto(x)
  {
    match RentalRepository.GetById(st.rentals, id)
    case None => None
    case Some(x) => Some(ToRentalDto(x))
  }

  /** A rental opened under a fresh id is found by it, as the opening
      answered. */
  lemma CreatedRentalFound(st: Store, dto: CreateRentalDto, utcNow: DateTime, id: Guid)
    requires forall x :: x in st.rentals ==> x.id != id
    ensures var s := CreateRental(st, dto, utcNow, id);
            s.outcome.Success? ==> GetRental(s.store, id) == Some(s.outcome.value)
  {
    var s := CreateRental(st, dto, utcNow, id);
    if s.outcome.Success? {
      var r :| s.store == st.(rentals := st.rentals + [r], saves := st.saves + 1)
               && s.outcome.value == ToRentalDto(r) && r.id == id;
      assert r in s.store.rentals;
    }
  }

  /** The service's plan list, the validator's and the pricing table agree. */
  lemma PlanListsAgree(planDays: int)
    ensures planDays in ValidPlans <==> planDays in RentalValidator.AcceptedPlans
    ensures planDays in ValidPlans <==> DailyRate(planDays).Some?
  {
  }

  /** The return-date normalisation and settlement applied to a stored
      rental. */
  function Returned(r: Rental, returnDate: DateTime, toUniversal: DateTime -> DateTime): (r': Rental)
    ensures r'.returnDate == Some(NormalizeToUtc(returnDate, toUniversal))
    ensures SameTerms(r, r')
    ensures SettlementOf(r') == SettlementOnDay(r, NormalizeToUtc(returnDate, toUniversal).day)
  {
    var utcReturn := NormalizeToUtc(returnDate, toUniversal);
    RegisterReturnSettlesByDay(r, utcReturn);
    RegisterReturn(r, utcReturn)
  }

  /** `ReturnRentalAsync`: an unknown id is refused with an argument error
      and changes nothing; otherwise the stored rental is settled at the
      normalised return date, written back, and saved once. */
  function ReturnRental(st: Store, id: Guid, returnDate: DateTime,
                        toUniversal: DateTime -> DateTime): (s: Step<RentalDto>)
    ensures RentalRepository.GetById(st.rentals, id).None? ==>
              s == Step(Failure(Argument(RentalNotFound)), st)
    ensures RentalRepository.GetById(st.rentals, id).Some? ==>
              var r' := Returned(RentalRepository.GetById(st.rentals, id).value, returnDate, toUniversal);
              && s.outcome == Success(ToRentalDto(r'))
              && s.store == st.(rentals := RentalRepository.Update(st.rentals, r'), saves := st.saves + 1)
              && RentalRepository.GetById(s.store.rentals, id) == Some(r')
  {
    match RentalRepository.GetById(st.rentals, id)
    case None => Step(Failure(Argument(RentalNotFound)), st)
    case Some(r) =>
      var r' := Returned(r, returnDate, toUniversal);
      RentalRepository.UpdatedFound(st.rentals, r');
      Step(Success(ToRentalDto(r')),
           st.(rentals := RentalRepository.Update(st.rentals, r'), saves := st.saves + 1))
  }

  /** `CalculateRentalAsync`: never changes the store. An unknown id is
      refused with an argument error. Otherwise a fresh rental with the same
      vehicle, driver, start, expected end and plan is settled at the
      normalised date, and its figures are returned under the stored
      rental's id. `freshId` and `utcNow` are the identifier and clock the
      throw-away rental is built with. */
  function CalculateRental(st: Store, id: Guid, returnDate: DateTime,
                           toUniversal: DateTime -> DateTime,
                           freshId: Guid, utcNow: DateTime): (s: Step<RentalDto>)
    ensures s.store == st
    ensures RentalRepository.GetById(st.rentals, id).None? ==>
              s.outcome == Failure(Argument(RentalNotFound))
    ensures RentalRepository.GetById(st.rentals, id).Some? ==>
              var r := RentalRepository.GetById(st.rentals, id).value;
              && (s.outcome.Success? <==> DailyRate(r.planDays).Some?)
              && (s.outcome.Failure? ==> s.outcome.error == Argument(InvalidPlan))
              && (s.outcome.Success? ==>
                    && s.outcome.value.id == id
                    && s.outcome.value.returnDate == Some(NormalizeToUtc(returnDate, toUniversal))
                    && s.outcome.value.dailyRate == DailyRate(r.planDays).value
                    && s.outcome.value.planDays == r.planDays
                    && s.outcome.value.startDate == r.startDate
                    && s.outcome.value.expectedEndDate == r.expectedEndDate)
  {
    match RentalRepository.GetById(st.rentals, id)
    case None => Step(Failure(Argument(RentalNotFound)), st)
    case Some(r) =>
      var utcReturn := NormalizeToUtc(returnDate, toUniversal);
      match NewRental(freshId, r.motorcycleId, r.deliveryPersonId, r.startDate,
                      r.expectedEndDate, r.planDays, utcNow)
      case Failure(e) => Step(Failure(e), st)
      case Success(calculation) =>
        var settled := RegisterReturn(calculation, utcReturn);
        Step(Success(ToRentalDto(settled).(id := r.id)), st)
  }

  /** For a rental priced as the constructor prices it, the preview on a date
      is exactly what registering the return on that date would answer. */
  lemma PreviewMatchesReturn(st: Store, id: Guid, returnDate: DateTime,
                             toUniversal: DateTime -> DateTime, freshId: Guid, utcNow: DateTime)
    requires RentalRepository.GetById(st.rentals, id).Some?
    requires Priced(RentalRepository.GetById(st.rentals, id).value)
    ensures CalculateRental(st, id, returnDate, toUniversal, freshId, utcNow).outcome
            == ReturnRental(st, id, returnDate, toUniversal).outcome
  {
    var r := RentalRepository.GetById(st.rentals, id).value;
    var utcReturn := NormalizeToUtc(returnDate, toUniversal);
    var calculation := NewRental(freshId, r.motorcycleId, r.deliveryPersonId, r.startDate,
                                 r.expectedEndDate, r.planDays, utcNow).value;
    SettlementDependsOnTermsOnly(calculation, r, utcReturn);
  }

  /** Registering a return first does not change what the preview answers
      afterwards: the preview reads only the agreed terms. */
  lemma PreviewUnaffectedByReturn(st: Store, id: Guid, d1: DateTime, d2: DateTime,
                                  toUniversal: DateTime -> DateTime, freshId: Guid, utcNow: DateTime)
    requires RentalRepository.GetById(st.rentals, id).Some?
    ensures var after := ReturnRental(st, id, d1, toUniversal).store;
            CalculateRental(after, id, d2, toUniversal, freshId, utcNow).outcome
            == CalculateRental(st, id, d2, toUniversal, freshId, utcNow).outcome
  {
  }

  /** Opening a rental keeps every stored rental priced by the table. */
  lemma CreatePreservesPricing(st: Store, dto: CreateRentalDto, utcNow: DateTime, id: Guid)
    requires RentalsPriced(st)
    ensures RentalsPriced(CreateRental(st, dto, utcNow, id).store)
  {
  }

  /** Registering a return keeps every stored rental priced by the table. */
  lemma ReturnPreservesPricing(st: Store, id: Guid, returnDate: DateTime,
                               toUniversal: DateTime -> DateTime)
    requires RentalsPriced(st)
    ensures RentalsPriced(ReturnRental(st, id, returnDate, toUniversal).store)
  {
    var found := RentalRepository.GetById(st.rentals, id);
    if found.Some? {
      assert found.value in st.rentals;
      UpdateKeepsPricing(st.rentals, Returned(found.value, returnDate, toUniversal));
    }
  }

  /** Writing back a priced rental keeps every rental priced. */
  lemma UpdateKeepsPricing(rs: seq<Rental>, r: Rental)
    requires forall x :: x in rs ==> Priced(x)
    requires Priced(r)
    ensures forall x :: x in RentalRepository.Update(rs, r) ==> Priced(x)
  {
    var rs' := RentalRepository.Update(rs, r);
    forall x | x in rs' ensures Priced(x) {
      var i :| 0 <= i < |rs'| && rs'[i] == x;
      assert rs[i] in rs;
    }
  }

  /** Appending a rental for a driver with no open rental keeps at most one
      open rental per driver. */
  lemma AppendKeepsOneActiveRental(st: Store, r: Rental)
    requires OneActiveRentalPerDriver(st)
    requires forall x :: x in st.rentals ==> !RentalRepository.IsActiveFor(x, r.deliveryPersonId)
    ensures OneActiveRentalPerDriver(st.(rentals := st.rentals + [r], saves := st.saves + 1))
  {
    var rs := st.rentals + [r];
    forall i | 0 <= i < |st.rentals| && rs[i].returnDate.None?
      ensures rs[i].deliveryPersonId != r.deliveryPersonId
    {
      assert rs[i] == st.rentals[i] && st.rentals[i] in st.rentals;
    }
  }

  /** Opening a rental never gives a driver a second open rental. */
  lemma CreateKeepsOneActiveRental(st: Store, dto: CreateRentalDto, utcNow: DateTime, id: Guid)
    requires OneActiveRentalPerDriver(st)
    ensures OneActiveRentalPerDriver(CreateRental(st, dto, utcNow, id).store)
  {
    var s := CreateRental(st, dto, utcNow, id);
    if s.outcome.Success? {
      var r :| s.store == st.(rentals := st.rentals + [r], saves := st.saves + 1)
               && r.deliveryPersonId == dto.deliveryPersonId;
      AppendKeepsOneActiveRental(st, r);
    }
  }

  /** Registering a return never gives a driver a second open rental. */
  lemma ReturnKeepsOneActiveRental(st: Store, id: Guid, returnDate: DateTime,
                                   toUniversal: DateTime -> DateTime)
    requires OneActiveRentalPerDriver(st)
    ensures OneActiveRentalPerDriver(ReturnRental(st, id, returnDate, toUniversal).store)
  {
    var rs := st.rentals;
    var rs' := ReturnRental(st, id, returnDate, toUniversal).store.rentals;
    forall i | 0 <= i < |rs|
      ensures |rs'| == |rs| && (rs'[i] == rs[i] || rs'[i].returnDate.Some?)
    {
    }
  }

  /** A rental can only be opened on a stored vehicle. */
  lemma CreateKeepsReferences(st: Store, dto: CreateRentalDto, utcNow: DateTime, id: Guid)
    requires RentalsReferenceMotorcycles(st)
    ensures RentalsReferenceMotorcycles(CreateRental(st, dto, utcNow, id).store)
  {
    var s := CreateRental(st, dto, utcNow, id);
    if s.outcome.Success? {
      var m := MotorcycleRepository.GetById(st.motorcycles, dto.motorcycleId).value;
      assert m in st.motorcycles && m.id == dto.motorcycleId;
    }
  }
}
