/** The vehicle entity and the event announcing its registration. */
module MotorcycleEntity {
  import opened Core
  import opened Dates
  import opened Text

  datatype Motorcycle = Motorcycle(
    id: Guid,
    year: int,
    model: string,
    licensePlate: string,
    createdAt: DateTime)

  /** The message published when a vehicle is registered. */
  datatype MotorcycleRegisteredEvent = MotorcycleRegisteredEvent(
    motorcycleId: Guid,
    year: int,
    model: string,
    licensePlate: string,
    registrationDate: DateTime)

  /** The constructor stores what it is given. */
  function NewMotorcycle(id: Guid, year: int, model: string, licensePlate: string,
                         createdAt: DateTime): (m: Motorcycle)
    ensures m.id == id && m.year == year && m.model == model
    ensures m.licensePlate == licensePlate && m.createdAt == createdAt
  {
    Motorcycle(id, year, model, licensePlate, createdAt)
  }

  /** `UpdateLicensePlate`: a blank plate is refused and the vehicle left as
      it was; any other string becomes the plate, and nothing else changes. */
  function UpdateLicensePlate(m: Motorcycle, newLicensePlate: string): (r: Result<Motorcycle>)
    ensures r.Failure? <==> IsBlank(newLicensePlate)
    ensures r.Failure? ==> r.error == Argument(BlankLicensePlate)
    ensures r.Success? ==> r.value == m.(licensePlate := newLicensePlate)
  {
    if IsBlank(newLicensePlate) then Failure(Argument(BlankLicensePlate))
    else Success(m.(licensePlate := newLicensePlate))
  }

  /** Putting the old plate back after a change restores the vehicle. */
  lemma PlateChangeUndone(m: Motorcycle, p: string)
    requires !IsBlank(p) && !IsBlank(m.licensePlate)
    ensures UpdateLicensePlate(m, p).Success?
    ensures UpdateLicensePlate(UpdateLicensePlate(m, p).value, m.licensePlate) == Success(m)
  {
  }

  /** The empty string is blank, so it is always refused. */
  lemma EmptyPlateRefused(m: Motorcycle)
    ensures UpdateLicensePlate(m, "") == Failure(Argument(BlankLicensePlate))
    ensures UpdateLicensePlate(m, "   ") == Failure(Argument(BlankLicensePlate))
  {
  }

  /** The registration event describes the vehicle it announces. */
  function RegisteredEvent(m: Motorcycle): (e: MotorcycleRegisteredEvent)
    ensures e.motorcycleId == m.id && e.year == m.year && e.model == m.model
    ensures e.licensePlate == m.licensePlate && e.registrationDate == m.createdAt
  {
    MotorcycleRegisteredEvent(m.id, m.year, m.model, m.licensePlate, m.createdAt)
  }
}
