/** Shared vocabulary of the rental system: optional values, results that
    carry the exception a C# member would throw, and entity identities. */
module Core {

  /** A value that may be missing (a C# nullable reference or `T?`). */
  datatype Option<+T> = None | Some(value: T)

  /** The outcome of an operation that may throw. */
  datatype Result<+T> = Success(value: T) | Failure(error: Error)

  /** A `Guid`; the value 0 plays the part of `Guid.Empty`. */
  type Guid = nat

  const EmptyGuid: Guid := 0

  /** Why an operation was refused; one constructor per distinct message the
      services and entities raise. */
  datatype Reason =
    | MotorcycleNotFound
    | DeliveryPersonNotFound
    | RentalNotFound
    | LicenseNotEligible
    | ActiveRentalExists
    | InvalidPlan
    | DuplicateLicensePlate
    | DuplicateTaxIdNumber
    | DuplicateLicenseNumber
    | InvalidLicenseType
    | InvalidImageFormat
    | MotorcycleHasRentals
    | BlankLicensePlate

  /** The two exception types the core throws. */
  datatype Error =
    | InvalidOperation(reason: Reason)
    | Argument(reason: Reason)
}
