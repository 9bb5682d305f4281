/** The input rules for a new rental. Every rule is evaluated and every
    failing one reported, in the order the rules are declared. */
module RentalValidator {
  import opened Core
  import opened Dtos
  import RentalEntity

  datatype Failure =
    | MotorcycleIdRequired
    | DeliveryPersonIdRequired
    | PlanDaysRequired
    | PlanDaysNotOffered

  /** The plans the validator accepts, as it lists them. */
  const AcceptedPlans: seq<int> := [7, 15, 30, 45, 50]

  /** The five plan lengths, in days, the business offers. */
  predicate OfferedPlan(planDays: int) {
    planDays == 7 || planDays == 15 || planDays == 30 || planDays == 45 || planDays == 50
  }

  /** What a well-formed request is: both ids set and an offered plan. */
  predicate WellFormed(dto: CreateRentalDto) {
    dto.motorcycleId != EmptyGuid && dto.deliveryPersonId != EmptyGuid && OfferedPlan(dto.planDays)
  }

  /** `CreateRentalDTOValidator`: the failures, in rule order. */
  function Validate(dto: CreateRentalDto): (fs: seq<Failure>)
    ensures |fs| == 0 <==> WellFormed(dto)
    ensures MotorcycleIdRequired in fs <==> dto.motorcycleId == EmptyGuid
    ensures DeliveryPersonIdRequired in fs <==> dto.deliveryPersonId == EmptyGuid
    ensures PlanDaysRequired in fs <==> dto.planDays == 0
    ensures PlanDaysNotOffered in fs <==> !OfferedPlan(dto.planDays)
    ensures |fs| <= 4
  {
    (if dto.motorcycleId == EmptyGuid then [MotorcycleIdRequired] else [])
    + (if dto.deliveryPersonId == EmptyGuid then [DeliveryPersonIdRequired] else [])
    + (if dto.planDays == 0 then [PlanDaysRequired] else [])
    + (if dto.planDays !in AcceptedPlans then [PlanDaysNotOffered] else [])
  }

  /** A missing plan breaks both of its rules, and they are reported in order. */
  lemma MissingPlanReportedTwice(m: Guid, d: Guid)
    requires m != EmptyGuid && d != EmptyGuid
    ensures Validate(CreateRentalDto(m, d, 0)) == [PlanDaysRequired, PlanDaysNotOffered]
  {
  }

  /** The validator's plans are exactly the ones the pricing table prices. */
  lemma AcceptedPlansArePriced(planDays: int)
    ensures planDays in AcceptedPlans <==> OfferedPlan(planDays)
    ensures OfferedPlan(planDays) <==> RentalEntity.DailyRate(planDays).Some?
  {
  }

  /** A request the validator accepts names a plan the rental constructor
      accepts. */
  lemma WellFormedPlanConstructs(dto: CreateRentalDto, id: Guid, start: Dates.DateTime,
                                 expected: Dates.DateTime, createdAt: Dates.DateTime)
    requires |Validate(dto)| == 0
    ensures RentalEntity.NewRental(id, dto.motorcycleId, dto.deliveryPersonId, start,
                                   expected, dto.planDays, createdAt).Success?
  {
  }
}
