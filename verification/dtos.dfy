/** The request and response shapes the services exchange with their callers,
    and the entity-to-response mappings. */
module Dtos {
  import opened Core
  import opened Dates
  import opened RentalEntity
  import opened MotorcycleEntity
  import opened DeliveryPersonEntity

  /** An uploaded file: its client-side name and declared content type (the
      bytes themselves are not modelled). */
  datatype FormFile = FormFile(fileName: string, contentType: Option<string>)

  datatype CreateRentalDto = CreateRentalDto(motorcycleId: Guid, deliveryPersonId: Guid, planDays: int)

  datatype CreateMotorcycleDto = CreateMotorcycleDto(year: int, model: string, licensePlate: string)

  datatype CreateDeliveryPersonDto = CreateDeliveryPersonDto(
    name: string,
    taxIdNumber: string,
    birthDate: DateTime,
    licenseNumber: string,
    licenseType: string,
    licenseImage: Option<FormFile>)

  /** A rental as the API returns it: every stored field but the creation time. */
  datatype RentalDto = RentalDto(
    id: Guid,
    motorcycleId: Guid,
    deliveryPersonId: Guid,
    startDate: DateTime,
    endDate: DateTime,
    expectedEndDate: DateTime,
    planDays: int,
    dailyRate: Money,
    totalAmount: Money,
    returnDate: Option<DateTime>,
    fineAmount: Option<Money>,
    additionalAmount: Option<Money>)

  datatype MotorcycleDto = MotorcycleDto(id: Guid, year: int, model: string, licensePlate: string)

  datatype DeliveryPersonDto = DeliveryPersonDto(
    id: Guid,
    name: string,
    taxIdNumber: string,
    birthDate: DateTime,
    licenseNumber: string,
    licenseType: string,
    licenseImageUrl: Option<string>)

  /** The rental mapping copies the fields by name. */
  function ToRentalDto(r: Rental): (dto: RentalDto)
    ensures dto.id == r.id && dto.motorcycleId == r.motorcycleId
    ensures dto.deliveryPersonId == r.deliveryPersonId
    ensures dto.startDate == r.startDate && dto.endDate == r.endDate
    ensures dto.expectedEndDate == r.expectedEndDate && dto.planDays == r.planDays
    ensures dto.dailyRate == r.dailyRate && dto.totalAmount == r.totalAmount
    ensures dto.returnDate == r.returnDate && dto.fineAmount == r.fineAmount
    ensures dto.additionalAmount == r.additionalAmount
  {
    RentalDto(r.id, r.motorcycleId, r.deliveryPersonId, r.startDate, r.endDate,
              r.expectedEndDate, r.planDays, r.dailyRate, r.totalAmount,
              r.returnDate, r.fineAmount, r.additionalAmount)
  }

  /** Two rentals that differ at most in their creation time map to the same
      response. */
  lemma RentalDtoIgnoresCreationTime(r: Rental, t: DateTime)
    ensures ToRentalDto(r.(createdAt := t)) == ToRentalDto(r)
  {
  }

  function ToMotorcycleDto(m: Motorcycle): (dto: MotorcycleDto)
    ensures dto.id == m.id && dto.year == m.year
    ensures dto.model == m.model && dto.licensePlate == m.licensePlate
  {
    MotorcycleDto(m.id, m.year, m.model, m.licensePlate)
  }

  /** `LicenseType.ToString()`: the member's name. */
  function LicenseTypeName(t: LicenseType): (s: string)
    ensures 1 <= |s| <= 2
  {
    match t
    case A => "A"
    case B => "B"
    case AB => "AB"
  }

  /** Distinct categories have distinct names. */
  lemma LicenseTypeNameInjective(s: LicenseType, t: LicenseType)
    ensures LicenseTypeName(s) == LicenseTypeName(t) ==> s == t
  {
  }

  /** The driver mapping copies the fields by name and writes the licence
      category as its name. */
  function ToDeliveryPersonDto(d: DeliveryPerson): (dto: DeliveryPersonDto)
    ensures dto.id == d.id && dto.name == d.name && dto.taxIdNumber == d.taxIdNumber
    ensures dto.birthDate == d.birthDate && dto.licenseNumber == d.licenseNumber
    ensures dto.licenseType == LicenseTypeName(d.licenseType)
    ensures dto.licenseImageUrl == d.licenseImageUrl
  {
    DeliveryPersonDto(d.id, d.name, d.taxIdNumber, d.birthDate, d.licenseNumber,
                      LicenseTypeName(d.licenseType), d.licenseImageUrl)
  }
}
