# RentABike core in Dafny

This project is a Dafny model of the core of RentABike, a motorcycle-rental back end for delivery drivers.

- The rental entity prices plans and commits a total when a rental is opened. When the vehicle comes back, it settles the rental by comparing calendar dates:
  - an early return pays the days used plus a penalty on the unused days;
  - a late return pays the full plan plus a flat fee per extra day;
  - an on-time return pays the days used, counted inclusively.
- Three application services sit around the entity: rentals, vehicles and drivers. Their rules are:
  - a guard chain that refuses a request in a fixed order;
  - uniqueness of plates, tax ids and licence numbers;
  - a driver must hold an A or AB licence to rent;
  - a vehicle with rentals cannot be removed;
  - a rental's cost can be previewed without persisting anything;
  - licence images must be PNG or BMP.
- Three FluentValidation validators check requests before the services run.
- The repositories answer the queries the guards depend on.

## How the model is built

- **Money** is a `real`. The source uses `decimal`, and every amount and factor in it is exact in decimal.
- **`DateTime`** has three parts:
  - a day number counted from 0001-01-01;
  - a time of day in 100-nanosecond ticks;
  - a `Kind`.

  `.Date` drops the time. Comparisons look at ticks only, as .NET's operators do. `TimeSpan.Days` truncates toward zero. `DateTime.Year` is computed the way .NET computes it, by peeling off 400-, 100-, 4- and 1-year stretches.
- **The store** (module `Store`) holds:
  - the three tables, as sequences;
  - the log of published registration events;
  - the log of calls made on file storage (uploads and deletions);
  - a count of database saves.
- **Service operations** are pure functions from a store and a request to a `Step`: an outcome and the store left behind. An exception becomes `Failure` with the error kind the source throws: `InvalidOperation` for `InvalidOperationException` and `Argument` for `ArgumentException`. A refused request always leaves the store as it was.
- **Things the code reads from its host** become parameters:
  - the clock (`utcNow`, and the validators' `now`). Opening a rental reads the UTC clock twice, once for the start date and once for the creation time; the model uses one reading `utcNow` for both;
  - `Guid.NewGuid()` (`id`, `freshId`, `imageKey`);
  - the URL storage answers with (`imageUrl`);
  - the host's `ToUniversalTime` (`toUniversal`).
- **Lookups without an ordering** (`FindAsync`, `FirstOrDefaultAsync`) return the first matching row in table order.
- **Strings** are compared literally, and `Contains` is a substring test.
  - `ToLowerInvariant` maps the ASCII letters only.
  - `ToUpper` maps the ASCII letters only.
  - `Path.GetExtension` treats `/` as the only directory separator.
- **Validators**:
  - FluentValidation's `NotEmpty` means "not blank" for strings and "not the default value" for `int`, `Guid` and `DateTime`.
  - Every rule of a validator is evaluated, and every broken one is reported.
  - A validator's `DateTime.Now` is read when it is built, so it is the parameter `now`.

The modules follow the source's layers:

- shared: `Core`, `Dates`, `Text`, `Collections`;
- entities: `RentalEntity`, `MotorcycleEntity`, `DeliveryPersonEntity`;
- response and request shapes: `Dtos`;
- validators: `RentalValidator`, `MotorcycleValidator`, `DeliveryPersonValidator`;
- repositories: `RentalRepository`, `MotorcycleRepository`, `DeliveryPersonRepository`;
- state: `Store`;
- services: `RentalService`, `MotorcycleService`, `DeliveryPersonService`.

## Model

| member | source | states |
|---|---|---|
| RentalEntity.DailyRate | src/RentABike.Domain/Entities/Rental.cs:76-87 | A plan has a rate exactly when it is 7, 15, 30, 45 or 50 days, and every rate lies between 18.00 and 30.00. |
| RentalEntity.PlanRates | src/RentABike.Domain/Entities/Rental.cs:80-84 | The table's rates: 30.00 for 7 days, 28.00 for 15, 22.00 for 30, 20.00 for 45 and 18.00 for 50. |
| RentalEntity.LongerPlansCheaper | src/RentABike.Domain/Entities/Rental.cs:76-87 | Of two priced plans, the longer one always has the strictly lower daily rate. |
| RentalEntity.TotalAmount | src/RentABike.Domain/Entities/Rental.cs:89-92 | The committed total is never negative for a plan length and rate that are not negative. |
| RentalEntity.EarlyReturnFine | src/RentABike.Domain/Entities/Rental.cs:94-102 | Only the 7- and 15-day plans are fined. The fine is at most 40% of the unused days' value, and it is positive exactly for those two plans when unused value remains. |
| RentalEntity.NewRental | src/RentABike.Domain/Entities/Rental.cs:21-34 | Construction fails, with an argument error, exactly for a plan outside the table. A new rental has the table's rate and ends, for now, on its expected date. It owes the plan in full and has no return, fine or surcharge. |
| RentalEntity.RegisterReturn | src/RentABike.Domain/Entities/Rental.cs:36-74 | A return records its instant as both return and end date and keeps the agreed terms. A fine is set exactly for an earlier calendar day than expected, and a surcharge exactly for a later one, so never both. |
| RentalEntity.RegisterReturnSettlesByDay | src/RentABike.Domain/Entities/Rental.cs:41-73 | The settlement computed from `DateTime`s, their `.Date` parts and `TimeSpan.Days` equals the pricing rules written over day numbers. |
| RentalEntity.EarlyReturnSettlement | src/RentABike.Domain/Entities/Rental.cs:45-55 | An early return carries no surcharge. Its fine is the plan's penalty on the unused days' value, and its total is the days used, counted inclusively, plus that fine. |
| RentalEntity.LateReturnSettlement | src/RentABike.Domain/Entities/Rental.cs:56-64 | A late return carries no fine. It adds 50.00 per extra day, and its total is the committed total plus that surcharge. |
| RentalEntity.OnTimeSettlement | src/RentABike.Domain/Entities/Rental.cs:65-73 | An on-time return carries neither fine nor surcharge. It pays start to return, counted inclusively. |
| RentalEntity.SameDaySameSettlement | src/RentABike.Domain/Entities/Rental.cs:41-43 | Two return instants on the same calendar day settle identically. |
| RentalEntity.LastReturnWins | src/RentABike.Domain/Entities/Rental.cs:36-74 | A second return overwrites everything the first one settled. |
| RentalEntity.SettlementDependsOnTermsOnly | src/RentABike.Domain/Entities/Rental.cs:41-73 | The settlement reads only the start, expected end, plan and rate. |
| RentalEntity.SettlementNonNegative | src/RentABike.Domain/Entities/Rental.cs:45-73 | For a priced rental returned no earlier than its start day: the fine is not negative, the surcharge is positive, and the total is at least one day's rate. |
| RentalEntity.ReturnBeforeStartSettlesNegative | src/RentABike.Domain/Entities/Rental.cs:49-54 | Nothing stops a return dated before the start. A 7-day rental from 2024-01-01 returned on 2023-12-27 settles to -48.00 with a 72.00 fine. |
| RentalEntity.SettlementIncreasesWithReturnDay | src/RentABike.Domain/Entities/Rental.cs:45-73 | When a rental's expected end is its start plus its plan, a later return day always costs strictly more, across the three cases. |
| RentalEntity.DocumentedSettlements | tests/RentABike.Tests/Domain/Entities/RentalTests.cs:8-135 | The documented figures hold: 210.00 committed for 7 days, fines of 18.00 (7 days) and 67.20 (15 days), a fine of exactly 0 (30 days), a 100.00 surcharge, and 240.00 on time. |
| DeliveryPersonEntity.NewDeliveryPerson | src/RentABike.Domain/Entities/DeliveryPerson.cs:16-25 | The constructor stores every given field unchanged and starts without an image. |
| DeliveryPersonEntity.UpdateLicenseImage | src/RentABike.Domain/Entities/DeliveryPerson.cs:27-30 | Setting the image changes the image URL and nothing else. |
| DeliveryPersonEntity.CanRentUnlessB | src/RentABike.Domain/Entities/DeliveryPerson.cs:32-35 | A driver may rent exactly when the licence is not category B. |
| DeliveryPersonEntity.LastImageWins | src/RentABike.Domain/Entities/DeliveryPerson.cs:27-30 | The last image written is the one kept. |
| DeliveryPersonEntity.ImageDoesNotAffectEligibility | src/RentABike.Domain/Entities/DeliveryPerson.cs:27-35 | Setting the image never changes whether the driver may rent. |
| MotorcycleEntity.NewMotorcycle | src/RentABike.Domain/Entities/Motorcycle.cs:13-20 | The constructor stores year, model, plate and creation time unchanged. |
| MotorcycleEntity.UpdateLicensePlate | src/RentABike.Domain/Entities/Motorcycle.cs:22-28 | A plate change fails, with an argument error, exactly for a blank plate. Otherwise the plate becomes the given string and no other field changes. |
| MotorcycleEntity.PlateChangeUndone | src/RentABike.Domain/Entities/Motorcycle.cs:22-28 | Putting the old plate back restores the vehicle exactly. |
| MotorcycleEntity.EmptyPlateRefused | src/RentABike.Domain/Entities/Motorcycle.cs:24-25 | The empty and the all-space plate are refused. |
| MotorcycleEntity.RegisteredEvent | src/RentABike.Application/Services/MotorcycleService.cs:39-46 | The registration event carries the vehicle's id, year, model and plate, and its creation time as the registration date. |
| Dtos.ToRentalDto | src/RentABike.Application/Mappings/MappingProfile.cs:20 | The rental response copies every field of the rental by name. |
| Dtos.RentalDtoIgnoresCreationTime | src/RentABike.Application/DTOs/RentalDTO.cs:3-17 | The response does not depend on the creation time, which it does not carry. |
| Dtos.ToMotorcycleDto | src/RentABike.Application/Mappings/MappingProfile.cs:12 | The vehicle response copies id, year, model and plate. |
| Dtos.LicenseTypeName | src/RentABike.Application/Mappings/MappingProfile.cs:16-17 | A category's name is one or two characters. |
| Dtos.LicenseTypeNameInjective | src/RentABike.Application/Mappings/MappingProfile.cs:16-17 | Distinct categories get distinct names in responses. |
| Dtos.ToDeliveryPersonDto | src/RentABike.Application/Mappings/MappingProfile.cs:16-17 | The driver response copies the fields and writes the category as its name. |
| Dates.DateOf | src/RentABike.Domain/Entities/Rental.cs:41-43 | `.Date` is the midnight that starts the instant's day. |
| Dates.DaysBetweenIsDayDifference | src/RentABike.Domain/Entities/Rental.cs:49-50 | `(a.Date - b.Date).Days` is the difference of the day numbers, whatever the times of day. |
| Dates.DateOrder | src/RentABike.Domain/Entities/Rental.cs:45-56 | Comparing `.Date` parts compares day numbers. |
| Dates.NormalizeToUtc | src/RentABike.Application/Services/RentalService.cs:89-95 | The result is always UTC. A UTC date is kept, an Unspecified one keeps its wall-clock value, and a Local one is converted by the host. |
| Dates.NormalizeIdempotent | src/RentABike.Application/Services/RentalService.cs:89-95 | Normalising twice is normalising once. |
| Dates.YearBoundaries | src/RentABike.Application/Validators/CreateMotorcycleDTOValidator.cs:13 | The year of a date matches the Gregorian calendar at the boundaries of 2023/2024, 2024/2025 and the leap year 2000. |
| Text.Extension | src/RentABike.Application/Services/DeliveryPersonService.cs:62 | The extension is either empty or a suffix that starts at a dot, with no dot or separator after it. Whenever such a suffix exists, the extension is that suffix. |
| Text.ExtensionShape | src/RentABike.Application/Services/DeliveryPersonService.cs:62 | A non-empty extension starts with a dot and has at least one more character. |
| Collections.Filter | src/RentABike.Infrastructure/Repositories/RentalRepository.cs:51-63 | `Where` keeps exactly the elements satisfying the predicate, and keeps all of them when all satisfy it. |
| Collections.FilterEmpty | src/RentABike.Infrastructure/Repositories/MotorcycleRepository.cs:68-78 | `Where(p)` is empty exactly when nothing satisfies `p`. |
| Collections.FirstWhere | src/RentABike.Infrastructure/Repositories/MotorcycleRepository.cs:51-54 | `FirstOrDefault(p)` is null exactly when nothing satisfies `p`. Otherwise it is the first element that does. |
| Collections.Any | src/RentABike.Infrastructure/Repositories/RentalRepository.cs:73-76 | `Any(p)` holds exactly when some element satisfies `p`. |
| RentalRepository.GetById | src/RentABike.Infrastructure/Repositories/RentalRepository.cs:17-20 | A lookup finds a stored rental with that id, and is null exactly when none has it. |
| RentalRepository.Update | src/RentABike.Infrastructure/Repositories/RentalRepository.cs:34-38 | An update replaces the rows with the entity's key and keeps all others in place. |
| RentalRepository.Delete | src/RentABike.Infrastructure/Repositories/RentalRepository.cs:40-44 | A delete keeps exactly the rows with another key. |
| RentalRepository.GetByMotorcycleId | src/RentABike.Infrastructure/Repositories/RentalRepository.cs:51-56 | The result is exactly the rentals of that vehicle. |
| RentalRepository.GetByDeliveryPersonId | src/RentABike.Infrastructure/Repositories/RentalRepository.cs:58-63 | The result is exactly the rentals of that driver. |
| RentalRepository.Latest | src/RentABike.Infrastructure/Repositories/RentalRepository.cs:69-70 | Ordering by creation time, descending, and taking the first gives a rental with the greatest creation time, or null only for no rows. |
| RentalRepository.GetActiveByDeliveryPersonId | src/RentABike.Infrastructure/Repositories/RentalRepository.cs:65-71 | The active lookup is null exactly when the driver has no unreturned rental. Otherwise it is one of that driver's unreturned rentals with the latest creation time. |
| RentalRepository.HasRentalsByMotorcycleId | src/RentABike.Infrastructure/Repositories/RentalRepository.cs:73-76 | Holds exactly when some rental, returned or not, names the vehicle. |
| RentalRepository.DeletedNotFound | src/RentABike.Infrastructure/Repositories/RentalRepository.cs:40-44 | After a delete, the lookup by that id finds nothing. |
| RentalRepository.UpdatedFound | src/RentABike.Infrastructure/Repositories/RentalRepository.cs:34-38 | After updating a stored rental, the lookup finds the new values. |
| RentalRepository.UpdateKeepsOthers | src/RentABike.Infrastructure/Repositories/RentalRepository.cs:34-38 | An update leaves the lookup of every other id unchanged. |
| MotorcycleRepository.GetById | src/RentABike.Infrastructure/Repositories/MotorcycleRepository.cs:17-20 | A lookup finds a stored vehicle with that id, and is null exactly when none has it. |
| MotorcycleRepository.Update | src/RentABike.Infrastructure/Repositories/MotorcycleRepository.cs:34-38 | An update replaces the rows with the entity's key and keeps all others in place. |
| MotorcycleRepository.Delete | src/RentABike.Infrastructure/Repositories/MotorcycleRepository.cs:40-44 | A delete keeps exactly the rows with another key. |
| MotorcycleRepository.GetByLicensePlate | src/RentABike.Infrastructure/Repositories/MotorcycleRepository.cs:51-54 | The lookup finds a vehicle with exactly that plate, and is null exactly when none has it. |
| MotorcycleRepository.GetByLicensePlateFilter | src/RentABike.Infrastructure/Repositories/MotorcycleRepository.cs:56-66 | A null or blank filter returns every vehicle. Any other filter returns exactly the vehicles whose plate contains it. |
| MotorcycleRepository.LicensePlateExists | src/RentABike.Infrastructure/Repositories/MotorcycleRepository.cs:68-78 | Holds exactly when some vehicle has that exact plate and, if an id is excluded, a different id. |
| MotorcycleRepository.FilterFindsOwnPlate | src/RentABike.Infrastructure/Repositories/MotorcycleRepository.cs:56-66 | Filtering by a vehicle's own non-blank plate finds it. |
| MotorcycleRepository.DeletedNotFound | src/RentABike.Infrastructure/Repositories/MotorcycleRepository.cs:40-44 | After a delete, the lookup by that id finds nothing. |
| MotorcycleRepository.OwnPlateExcluded | src/RentABike.Infrastructure/Repositories/MotorcycleRepository.cs:68-78 | A stored plate exists. With the vehicle's own id excluded, it counts as free exactly when no other vehicle uses it. |
| DeliveryPersonRepository.GetById | src/RentABike.Infrastructure/Repositories/DeliveryPersonRepository.cs:17-20 | A lookup finds a stored driver with that id, and is null exactly when none has it. |
| DeliveryPersonRepository.Update | src/RentABike.Infrastructure/Repositories/DeliveryPersonRepository.cs:34-38 | An update replaces the rows with the entity's key and keeps all others in place. |
| DeliveryPersonRepository.GetByTaxIdNumber | src/RentABike.Infrastructure/Repositories/DeliveryPersonRepository.cs:51-54 | The lookup finds a driver with exactly that tax id, and is null exactly when none has it. |
| DeliveryPersonRepository.GetByLicenseNumber | src/RentABike.Infrastructure/Repositories/DeliveryPersonRepository.cs:56-59 | The lookup finds a driver with exactly that licence number, and is null exactly when none has it. |
| DeliveryPersonRepository.TaxIdNumberExists | src/RentABike.Infrastructure/Repositories/DeliveryPersonRepository.cs:61-71 | Holds exactly when some driver has that exact tax id and, if an id is excluded, a different id. |
| DeliveryPersonRepository.LicenseNumberExists | src/RentABike.Infrastructure/Repositories/DeliveryPersonRepository.cs:73-83 | Holds exactly when some driver has that exact licence number and, if an id is excluded, a different id. |
| DeliveryPersonRepository.ExistsIffFound | src/RentABike.Infrastructure/Repositories/DeliveryPersonRepository.cs:51-83 | The existence checks agree with the lookups by the same document. |
| RentalValidator.Validate | src/RentABike.Application/Validators/CreateRentalDTOValidator.cs:10-19 | Each failure is reported exactly when its rule is broken. A request passes exactly when both ids are set and the plan is offered. |
| RentalValidator.MissingPlanReportedTwice | src/RentABike.Application/Validators/CreateRentalDTOValidator.cs:15-19 | A zero plan breaks both plan rules, reported in rule order. |
| RentalValidator.AcceptedPlansArePriced | src/RentABike.Application/Validators/CreateRentalDTOValidator.cs:17 | The validator's plans are exactly the ones the pricing table prices. |
| RentalValidator.WellFormedPlanConstructs | src/RentABike.Application/Validators/CreateRentalDTOValidator.cs:15-19 | A request the validator accepts names a plan the rental constructor accepts. |
| MotorcycleValidator.Validate | src/RentABike.Application/Validators/CreateMotorcycleDTOValidator.cs:10-21 | A failure is reported exactly when its rule is broken, and there are never more failures than rules. |
| MotorcycleValidator.ValidIffWellFormed | src/RentABike.Application/Validators/CreateMotorcycleDTOValidator.cs:10-21 | A request passes exactly when its year is from 1901 to next year and its model and plate are neither blank nor too long. |
| MotorcycleValidator.BrokenRule | src/RentABike.Application/Validators/CreateMotorcycleDTOValidator.cs:10-21 | Every request that is not well-formed breaks some rule. |
| MotorcycleValidator.MissingYearReportedTwice | src/RentABike.Application/Validators/CreateMotorcycleDTOValidator.cs:10-12 | A year of 0 breaks the presence rule and the lower bound, and nothing else. |
| MotorcycleValidator.NextYearAccepted | src/RentABike.Application/Validators/CreateMotorcycleDTOValidator.cs:13 | In 2024, model year 2025 is accepted and 2026 is refused. |
| MotorcycleValidator.WellFormedPlateAccepted | src/RentABike.Application/Validators/CreateMotorcycleDTOValidator.cs:19-21 | A plate the validator accepts is one the vehicle entity accepts too. |
| DeliveryPersonValidator.Validate | src/RentABike.Application/Validators/CreateDeliveryPersonDTOValidator.cs:10-29 | A failure is reported exactly when its rule is broken, and there are never more failures than rules. |
| DeliveryPersonValidator.ValidIffWellFormed | src/RentABike.Application/Validators/CreateDeliveryPersonDTOValidator.cs:10-29 | A request passes exactly when: name, tax id and licence number are present and within 200, 18 and 20 characters; the birth date is set and before `now`; and the category is spelled exactly "A", "B" or "AB". |
| DeliveryPersonValidator.BrokenRule | src/RentABike.Application/Validators/CreateDeliveryPersonDTOValidator.cs:10-29 | Every request that is not well-formed breaks some rule. |
| DeliveryPersonValidator.LicenseTypeFailures | src/RentABike.Application/Validators/CreateDeliveryPersonDTOValidator.cs:26-29 | An empty category breaks both category rules, and a lower-case "a" only the spelling rule. |
| RentalService.CreateRefusal | src/RentABike.Application/Services/RentalService.cs:28-57 | The guards run in order, and each refusal is given exactly when every earlier guard passes and its own fails: a missing vehicle, a missing driver, a found driver who may not rent, an open rental of the driver, a plan not offered. Nothing is refused exactly when all pass. |
| RentalService.StartDateFor | src/RentABike.Application/Services/RentalService.cs:59 | A rental starts at midnight UTC of the day after the clock's day. |
| RentalService.CreateRental | src/RentABike.Application/Services/RentalService.cs:28-73 | A refusal changes nothing. An accepted request appends exactly one rental and saves once. The rental is for the requested vehicle, driver and plan; it starts tomorrow, is expected back `planDays` days later, and is priced by the table. |
| RentalService.GetRental | src/RentABike.Application/Services/RentalService.cs:75-79 | The lookup answers a stored rental with that id as a response, and nothing exactly when none exists. |
| RentalService.CreatedRentalFound | src/RentABike.Application/Services/RentalService.cs:70-78 | A rental opened under a fresh id is then found by it, exactly as the opening answered. |
| RentalService.PlanListsAgree | src/RentABike.Application/Services/RentalService.cs:53 | The service's plan list, the validator's list and the pricing table agree. |
| RentalService.Returned | src/RentABike.Application/Services/RentalService.cs:89-97 | A returned rental records the UTC-normalised date, keeps its terms, and settles by that date's day. |
| RentalService.ReturnRental | src/RentABike.Application/Services/RentalService.cs:81-101 | An unknown id is refused with an argument error and changes nothing. Otherwise the stored rental is settled, written back and saved once, and the lookup then finds the settled rental. |
| RentalService.CalculateRental | src/RentABike.Application/Services/RentalService.cs:103-133 | The preview never changes the store and refuses an unknown id. It fails, with the constructor's argument error for the plan, exactly when the stored plan has no rate. Otherwise its answer carries the stored rental's id, plan, start and expected end, the table's rate and the normalised return date. |
| RentalService.PreviewMatchesReturn | src/RentABike.Application/Services/RentalService.cs:103-133 | For a rental priced by the table, the preview on a date answers exactly what registering the return on that date answers. |
| RentalService.PreviewUnaffectedByReturn | src/RentABike.Application/Services/RentalService.cs:119-127 | Registering a return first does not change what the preview answers afterwards. |
| RentalService.CreatePreservesPricing | src/RentABike.Application/Services/RentalService.cs:62-70 | Opening a rental keeps every stored rental priced by the table. |
| RentalService.ReturnPreservesPricing | src/RentABike.Application/Services/RentalService.cs:97-98 | Registering a return keeps every stored rental priced by the table. |
| RentalService.CreateKeepsOneActiveRental | src/RentABike.Application/Services/RentalService.cs:47-51 | Opening a rental never gives a driver a second unreturned rental. |
| RentalService.ReturnKeepsOneActiveRental | src/RentABike.Application/Services/RentalService.cs:97-98 | Registering a return never gives a driver a second unreturned rental. |
| RentalService.CreateKeepsReferences | src/RentABike.Application/Services/RentalService.cs:30-34 | A rental is only opened on a stored vehicle, so every rental keeps naming one. |
| MotorcycleService.CreateMotorcycle | src/RentABike.Application/Services/MotorcycleService.cs:29-51 | A plate already registered is refused, with no vehicle added and no event published. Otherwise exactly one vehicle is added and saved once, and exactly one event describing it is published. |
| MotorcycleService.GetMotorcycle | src/RentABike.Application/Services/MotorcycleService.cs:59-63 | The lookup answers a stored vehicle with that id as a response, and nothing exactly when none exists. |
| MotorcycleService.CreatedMotorcycleFound | src/RentABike.Application/Services/MotorcycleService.cs:36-63 | A vehicle registered under a fresh id is then found by it, exactly as the registration answered. |
| MotorcycleService.ListMotorcycles | src/RentABike.Application/Services/MotorcycleService.cs:53-57 | The listing holds exactly the responses of the vehicles the plate filter selects. |
| MotorcycleService.UpdateLicensePlate | src/RentABike.Application/Services/MotorcycleService.cs:65-82 | The guards run in order: a missing vehicle, then a plate another vehicle uses, then a blank plate; each refusal changes nothing. Otherwise only that vehicle's plate changes, saved once. |
| MotorcycleService.RemoveMotorcycle | src/RentABike.Application/Services/MotorcycleService.cs:84-98 | A missing vehicle, or one that any rental names, is refused with nothing deleted. Otherwise exactly that vehicle is removed, saved once. |
| MotorcycleService.CreateKeepsPlatesUnique | src/RentABike.Application/Services/MotorcycleService.cs:31-37 | Registration keeps plates unique. |
| MotorcycleService.UpdateKeepsPlatesUnique | src/RentABike.Application/Services/MotorcycleService.cs:73-79 | A plate change keeps plates unique, given unique ids. |
| MotorcycleService.CreateKeepsIdsUnique | src/RentABike.Application/Services/MotorcycleService.cs:36-37 | Registration under a fresh id keeps ids unique. |
| MotorcycleService.RemoveKeepsReferences | src/RentABike.Application/Services/MotorcycleService.cs:92-97 | Removal never leaves a rental naming a missing vehicle. |
| MotorcycleService.CreatePublishesItsVehicle | src/RentABike.Application/Services/MotorcycleService.cs:39-48 | An accepted registration publishes one event, with the requested year, model and plate, the new id and the clock's time. |
| DeliveryPersonService.ParseLicenseType | src/RentABike.Application/Services/DeliveryPersonService.cs:38-42 | A category parses exactly when its upper-cased spelling is "A", "B" or "AB". |
| DeliveryPersonService.ParseLicenseTypeName | src/RentABike.Application/Services/DeliveryPersonService.cs:38-42 | Parsing a category's name gives that category back. |
| DeliveryPersonService.LowerCaseParses | src/RentABike.Application/Services/DeliveryPersonService.cs:38-42 | "a" and "Ab" parse, while "C" and "" do not. The service thus accepts spellings that the validator refuses. |
| DeliveryPersonService.AcceptedImageNameIffSuffix | src/RentABike.Application/Services/DeliveryPersonService.cs:62-63 | The extension check accepts exactly the names ending in ".png" or ".bmp", in any case. |
| DeliveryPersonService.SuffixIsExtension | src/RentABike.Application/Services/DeliveryPersonService.cs:62 | An image suffix is the name's extension. |
| DeliveryPersonService.ExtensionIsSuffix | src/RentABike.Application/Services/DeliveryPersonService.cs:62-63 | An accepted extension is the name's last four characters. |
| DeliveryPersonService.AcceptedImageNames | src/RentABike.Application/Services/DeliveryPersonService.cs:62-63 | "cnh.png" and "CNH.BMP" end in an image suffix. |
| DeliveryPersonService.RefusedImageNames | src/RentABike.Application/Services/DeliveryPersonService.cs:62-63 | "cnh.jpg", "png" and "cnh.png.exe" do not end in an image suffix. |
| DeliveryPersonService.CreateRefusal | src/RentABike.Application/Services/DeliveryPersonService.cs:28-66 | The guards run in order, and each refusal is given exactly when every earlier guard passes and its own fails: a tax id taken, a licence number taken, an unknown category, an image with a non-empty name not ending in ".png" or ".bmp". Nothing is refused exactly when none of these applies. |
| DeliveryPersonService.CreateDeliveryPerson | src/RentABike.Application/Services/DeliveryPersonService.cs:26-79 | A refusal changes nothing. Otherwise one driver is appended and saved once. The driver has the parsed category and the birth date in UTC. An image with a non-empty name is uploaded once, with the client's content type or "image/png", and its URL recorded; without one, storage is not called and no URL is set. |
| DeliveryPersonService.UpdateLicenseImage | src/RentABike.Application/Services/DeliveryPersonService.cs:87-112 | An unknown driver, then a bad extension, is refused with an argument error, and nothing is stored or uploaded. Otherwise a recorded image is deleted first, exactly when one exists; the new one is uploaded once; only the driver's URL changes, saved once. |
| DeliveryPersonService.GetDeliveryPerson | src/RentABike.Application/Services/DeliveryPersonService.cs:81-85 | The lookup answers a stored driver with that id as a response, and nothing exactly when none exists. |
| DeliveryPersonService.CreatedDeliveryPersonFound | src/RentABike.Application/Services/DeliveryPersonService.cs:76-84 | A driver registered under a fresh id is then found by it, exactly as the registration answered. |
| DeliveryPersonService.CreateKeepsDocumentsUnique | src/RentABike.Application/Services/DeliveryPersonService.cs:28-36 | Registration keeps tax ids and licence numbers unique. |
| DeliveryPersonService.UpdateImageChangesOnlyImage | src/RentABike.Application/Services/DeliveryPersonService.cs:101-109 | Given unique ids, an image update changes no field of any driver but the image URL. |
| DeliveryPersonService.UpdateImageKeepsDocumentsUnique | src/RentABike.Application/Services/DeliveryPersonService.cs:108-109 | An image update keeps tax ids and licence numbers unique, given unique ids. |

## Left out

- HTTP controllers, `Program.cs` and the dependency-injection set-up: these do routing, status codes and wiring, and hold no domain rule.
- File storage: the bytes, file names and directories. An upload is recorded as its key and content type, and a deletion as its URL. The URL storage returns is a parameter.
- Messaging: the bus is an append-only event log. The consumer, its worker and the rule that it stores only 2024 vehicles are not modelled.
- EF Core plumbing:
  - column types and indexes;
  - the context's `SaveChanges` UTC hook;
  - the notification repository;
  - database collation. Strings are compared literally.
- `GetAllAsync` and `ExistsAsync` of the repositories: no service calls them.
- The repositories' `Delete` is modelled for vehicles and rentals only, because no driver is ever deleted by a service. `DeliveryPersonRepository.DeleteAsync` is not modelled.
- `ToUniversalTime` for Local dates depends on host time-zone data, so it is the parameter `toUniversal`. Only the UTC and Unspecified cases are exact.
- RentalService.CreateRental: the source reads `DateTime.UtcNow` for the start date and again in the rental's constructor for `CreatedAt`. The model uses one reading for both, so the instants between the two reads are not modelled.
- Concurrency: the race between a guard and the insert that follows it is a property of the database.
- Null strings in requests. Strings are never null in the model, except the optional filter, the image and its content type, which are `Option`s.
- String lengths count characters, not UTF-16 code units.
- Integer widths: `int` plan lengths and years are unbounded, which matters only beyond two billion.
- DeliveryPersonService.ParseLicenseType: `Enum.TryParse` also accepts surrounding white space, numeric strings and comma-separated lists. The enum's definition is not part of this model, so only the case-insensitive name match is modelled.
- Text.ToLower: only ASCII letters are mapped. The same holds for Text.ToUpper. The culture-invariant mapping of other letters is not modelled, and no rule here compares against them.
- Text.Extension: `/` is the only directory separator, as on a Unix host. Windows' `\` and `:` are not treated as separators.
- Dates.YearOf: its contract states only that the year is positive. The rest is pinned down by Dates.YearBoundaries at chosen dates, not by a calendar reference definition.
- MotorcycleValidator.Validate: the contract states which failures are reported, not the order they are reported in. The same holds for DeliveryPersonValidator.Validate. Messages are not modelled, only one constructor per rule.
- Collections.Filter: its contract states membership, not that element multiplicities and order are kept.
- DeliveryPersonService.UpdateImageChangesOnlyImage: stated under unique driver ids. With a duplicated id, `UpdateAsync` would copy one row's fields onto the other.
- RentalRepository.Latest: when several rentals share the greatest creation time, the model picks the earliest in table order. A database may pick any of them.
