/** The rental agreement entity: the pricing table, the committed total at
    creation and the settlement computed when the vehicle comes back. Money
    is a `real`, which represents the source's `decimal` amounts exactly. */
module RentalEntity {
  import opened Core
  import opened Dates

  type Money = real

  /** The flat surcharge per day of late return, whatever the plan. */
  const LateFeePerDay: Money := 50.00

  /** The pricing table: the daily rate of each plan length, and nothing for
      any other length. */
  function DailyRate(planDays: int): (rate: Option<Money>)
    ensures rate.Some? <==> planDays in {7, 15, 30, 45, 50}
    ensures rate.Some? ==> 18.00 <= rate.value <= 30.00
  {
    match planDays
    case 7 => Some(30.00)
    case 15 => Some(28.00)
    case 30 => Some(22.00)
    case 45 => Some(20.00)
    case 50 => Some(18.00)
    case _ => None
  }

  /** The table's five rates, plan by plan. */
  lemma PlanRates()
    ensures DailyRate(7) == Some(30.00) && DailyRate(15) == Some(28.00)
    ensures DailyRate(30) == Some(22.00) && DailyRate(45) == Some(20.00)
    ensures DailyRate(50) == Some(18.00)
  {
  }

  /** A longer plan has a strictly lower daily rate. */
  lemma LongerPlansCheaper(shorter: int, longer: int)
    requires DailyRate(shorter).Some? && DailyRate(longer).Some?
    requires shorter < longer
    ensures DailyRate(longer).value < DailyRate(shorter).value
  {
  }

  /** The value of `days` days at `rate` per day (`days * DailyRate`). */
  function DaysValue(days: int, rate: Money): (v: Money)
    ensures days >= 0 && rate >= 0.0 ==> v >= 0.0
    ensures days >= 1 && rate >= 0.0 ==> v >= rate
  {
    days as real * rate
  }

  /** The committed total of a plan used in full. */
  function TotalAmount(planDays: int, dailyRate: Money): (total: Money)
    ensures planDays >= 0 && dailyRate >= 0.0 ==> total >= 0.0
  {
    DaysValue(planDays, dailyRate)
  }

  /** The early-return penalty, charged on the value of the unused days:
      20% for the 7-day plan, 40% for the 15-day plan, nothing otherwise. */
  function EarlyReturnFine(planDays: int, unusedDaysValue: Money): (fine: Money)
    ensures planDays != 7 && planDays != 15 ==> fine == 0.0
    ensures unusedDaysValue >= 0.0 ==> 0.0 <= fine <= unusedDaysValue * 0.40
    ensures unusedDaysValue > 0.0 ==> (fine > 0.0 <==> planDays == 7 || planDays == 15)
  {
    match planDays
    case 7 => unusedDaysValue * 0.20
    case 15 => unusedDaysValue * 0.40
    case _ => 0.0
  }

  datatype Rental = Rental(
    id: Guid,
    motorcycleId: Guid,
    deliveryPersonId: Guid,
    startDate: DateTime,
    endDate: DateTime,
    expectedEndDate: DateTime,
    planDays: int,
    dailyRate: Money,
    totalAmount: Money,
    createdAt: DateTime,
    returnDate: Option<DateTime>,
    fineAmount: Option<Money>,
    additionalAmount: Option<Money>)

  /** The daily rate is the table's rate for the rental's plan: true of every
      rental the constructor builds, and never changed afterwards. */
  predicate Priced(r: Rental) {
    DailyRate(r.planDays) == Some(r.dailyRate)
  }

  /** The agreed terms of a rental, which a return never changes. */
  predicate SameTerms(a: Rental, b: Rental) {
    && a.id == b.id
    && a.motorcycleId == b.motorcycleId
    && a.deliveryPersonId == b.deliveryPersonId
    && a.startDate == b.startDate
    && a.expectedEndDate == b.expectedEndDate
    && a.planDays == b.planDays
    && a.dailyRate == b.dailyRate
    && a.createdAt == b.createdAt
  }

  /** The constructor: fails on a plan length outside the table; otherwise
      the rental ends, for now, on its expected date, owes the full plan and
      has no return, fine or surcharge. */
  function NewRental(id: Guid, motorcycleId: Guid, deliveryPersonId: Guid,
                     startDate: DateTime, expectedEndDate: DateTime,
                     planDays: int, createdAt: DateTime): (r: Result<Rental>)
    ensures r.Failure? <==> planDays !in {7, 15, 30, 45, 50}
    ensures r.Failure? ==> r.error == Argument(InvalidPlan)
    ensures r.Success? ==>
      && r.value.id == id
      && r.value.motorcycleId == motorcycleId
      && r.value.deliveryPersonId == deliveryPersonId
      && r.value.startDate == startDate
      && r.value.expectedEndDate == expectedEndDate
      && r.value.planDays == planDays
      && r.value.createdAt == createdAt
      && Priced(r.value)
      && r.value.endDate == expectedEndDate
      && r.value.totalAmount == TotalAmount(planDays, r.value.dailyRate)
      && r.value.returnDate.None?
      && r.value.fineAmount.None?
      && r.value.additionalAmount.None?
  {
    match DailyRate(planDays)
    case None => Failure(Argument(InvalidPlan))
    case Some(rate) =>
      Success(Rental(id, motorcycleId, deliveryPersonId, startDate, expectedEndDate,
                     expectedEndDate, planDays, rate, TotalAmount(planDays, rate),
                     createdAt, None, None, None))
  }

  /** `RegisterReturn`: records the return instant at full precision and
      settles the rental by comparing calendar dates only. An early return
      carries a fine and no surcharge, a late one a surcharge and no fine,
      an on-time one neither; the terms of the rental are kept. */
  function RegisterReturn(r: Rental, returnDate: DateTime): (r': Rental)
    ensures r'.returnDate == Some(returnDate) && r'.endDate == returnDate
    ensures SameTerms(r, r')
    ensures r'.fineAmount.Some? <==> returnDate.day < r.expectedEndDate.day
    ensures r'.additionalAmount.Some? <==> returnDate.day > r.expectedEndDate.day
  {
    var returnDateOnly := DateOf(returnDate);
    var expectedEndDateOnly := DateOf(r.expectedEndDate);
    DateOrder(returnDate, r.expectedEndDate);
    DateOrder(r.expectedEndDate, returnDate);
    var returned := r.(returnDate := Some(returnDate), endDate := returnDate);
    if Before(returnDateOnly, expectedEndDateOnly) then
      var daysUsed := DaysBetween(returnDate, r.startDate) + 1;
      var daysNotUsed := DaysBetween(r.expectedEndDate, returnDate);
      var unusedDaysValue := DaysValue(daysNotUsed, r.dailyRate);
      var fine := EarlyReturnFine(r.planDays, unusedDaysValue);
      returned.(additionalAmount := None, fineAmount := Some(fine),
                totalAmount := DaysValue(daysUsed, r.dailyRate) + fine)
    else if Before(expectedEndDateOnly, returnDateOnly) then
      var additionalDays := DaysBetween(returnDate, r.expectedEndDate);
      var additional := additionalDays as real * LateFeePerDay;
      returned.(fineAmount := None, additionalAmount := Some(additional),
                totalAmount := DaysValue(r.planDays, r.dailyRate) + additional)
    else
      var daysUsed := DaysBetween(returnDate, r.startDate) + 1;
      returned.(fineAmount := None, additionalAmount := None,
                totalAmount := DaysValue(daysUsed, r.dailyRate))
  }

  /** The three settlement outcomes of a return, as plain values. */
  datatype Settlement = Settlement(fine: Option<Money>, additional: Option<Money>, total: Money)

  function SettlementOf(r: Rental): Settlement {
    Settlement(r.fineAmount, r.additionalAmount, r.totalAmount)
  }

  /** The settlement written directly in day numbers, as the pricing rules
      state it: a return before the expected day pays the days used, counted
      inclusively, plus the plan's penalty on the unused days' value; a return
      after it pays the committed total plus the flat fee per extra day; a
      return on it pays the days from start to return, counted inclusively. */
  function SettlementOnDay(r: Rental, day: int): Settlement {
    var expected := r.expectedEndDate.day;
    if day < expected then
      var fine := EarlyReturnFine(r.planDays, DaysValue(expected - day, r.dailyRate));
      Settlement(Some(fine), None, DaysValue(day - r.startDate.day + 1, r.dailyRate) + fine)
    else if day > expected then
      var additional := (day - expected) as real * LateFeePerDay;
      Settlement(None, Some(additional), TotalAmount(r.planDays, r.dailyRate) + additional)
    else
      Settlement(None, None, DaysValue(day - r.startDate.day + 1, r.dailyRate))
  }

  /** `RegisterReturn`, which works on `DateTime` values, their `.Date` parts
      and `TimeSpan.Days`, settles exactly as the day-number rules say. */
  lemma RegisterReturnSettlesByDay(r: Rental, returnDate: DateTime)
    ensures SettlementOf(RegisterReturn(r, returnDate)) == SettlementOnDay(r, returnDate.day)
  {
    var r' := RegisterReturn(r, returnDate);
    DateOrder(returnDate, r.expectedEndDate);
    DateOrder(r.expectedEndDate, returnDate);
    if returnDate.day < r.expectedEndDate.day {
      DaysBetweenIsDayDifference(returnDate, r.startDate);
      DaysBetweenIsDayDifference(r.expectedEndDate, returnDate);
      assert Before(DateOf(returnDate), DateOf(r.expectedEndDate));
    } else if returnDate.day > r.expectedEndDate.day {
      DaysBetweenIsDayDifference(returnDate, r.expectedEndDate);
      assert Before(DateOf(r.expectedEndDate), DateOf(returnDate));
    } else {
      DaysBetweenIsDayDifference(returnDate, r.startDate);
    }
  }

  /** Early return: a fine and no surcharge; the days used at the daily rate
      plus the fine. */
  lemma EarlyReturnSettlement(r: Rental, returnDate: DateTime)
    requires returnDate.day < r.expectedEndDate.day
    ensures var r' := RegisterReturn(r, returnDate);
      && r'.additionalAmount.None?
      && r'.fineAmount == Some(EarlyReturnFine(r.planDays, DaysValue(r.expectedEndDate.day - returnDate.day, r.dailyRate)))
      && r'.totalAmount == DaysValue(returnDate.day - r.startDate.day + 1, r.dailyRate) + r'.fineAmount.value
  {
    RegisterReturnSettlesByDay(r, returnDate);
  }

  /** Late return: the committed total plus the flat fee per extra day. */
  lemma LateReturnSettlement(r: Rental, returnDate: DateTime)
    requires returnDate.day > r.expectedEndDate.day
    ensures var r' := RegisterReturn(r, returnDate);
      && r'.fineAmount.None?
      && r'.additionalAmount == Some((returnDate.day - r.expectedEndDate.day) as real * LateFeePerDay)
      && r'.totalAmount == TotalAmount(r.planDays, r.dailyRate) + r'.additionalAmount.value
  {
    RegisterReturnSettlesByDay(r, returnDate);
  }

  /** On-time return: the days from start to return, counted inclusively. */
  lemma OnTimeSettlement(r: Rental, returnDate: DateTime)
    requires returnDate.day == r.expectedEndDate.day
    ensures var r' := RegisterReturn(r, returnDate);
      && r'.fineAmount.None?
      && r'.additionalAmount.None?
      && r'.totalAmount == DaysValue(returnDate.day - r.startDate.day + 1, r.dailyRate)
  {
    RegisterReturnSettlesByDay(r, returnDate);
  }

  /** Only the calendar date of the return matters: two instants of the same
      day settle to the same amounts. */
  lemma SameDaySameSettlement(r: Rental, d1: DateTime, d2: DateTime)
    requires d1.day == d2.day
    ensures SettlementOf(RegisterReturn(r, d1)) == SettlementOf(RegisterReturn(r, d2))
  {
    RegisterReturnSettlesByDay(r, d1);
    RegisterReturnSettlesByDay(r, d2);
  }

  /** A second return overwrites everything the first one settled. */
  lemma LastReturnWins(r: Rental, d1: DateTime, d2: DateTime)
    ensures RegisterReturn(RegisterReturn(r, d1), d2) == RegisterReturn(r, d2)
  {
    var r1 := RegisterReturn(r, d1);
    SettlementDependsOnTermsOnly(r1, r, d2);
  }

  /** The settlement reads only the start, expected end, plan and rate of the
      rental, so two rentals agreeing on those settle alike. */
  lemma SettlementDependsOnTermsOnly(a: Rental, b: Rental, d: DateTime)
    requires a.startDate == b.startDate && a.expectedEndDate == b.expectedEndDate
    requires a.planDays == b.planDays && a.dailyRate == b.dailyRate
    ensures SettlementOf(RegisterReturn(a, d)) == SettlementOf(RegisterReturn(b, d))
  {
    RegisterReturnSettlesByDay(a, d);
    RegisterReturnSettlesByDay(b, d);
    assert SettlementOnDay(a, d.day) == SettlementOnDay(b, d.day);
  }

  /** Returning no earlier than the start day never yields a negative amount,
      and the total is at least one day's rate. */
  lemma SettlementNonNegative(r: Rental, returnDate: DateTime)
    requires Priced(r)
    requires r.startDate.day <= returnDate.day
    ensures var r' := RegisterReturn(r, returnDate);
      && (r'.fineAmount.Some? ==> r'.fineAmount.value >= 0.0)
      && (r'.additionalAmount.Some? ==> r'.additionalAmount.value > 0.0)
      && r'.totalAmount >= r.dailyRate > 0.0
  {
    RegisterReturnSettlesByDay(r, returnDate);
  }

  /** With no guard against a return dated before the start, the inclusive
      day count goes negative and so can the total: a 7-day rental starting
      2024-01-01 and returned 2023-12-27 settles to -48.00. */
  lemma ReturnBeforeStartSettlesNegative()
    ensures var r := NewRental(1, 2, 3, DateTime(738885, 0, Utc), DateTime(738892, 0, Utc), 7, DateTime(738884, 0, Utc));
      && r.Success?
      && RegisterReturn(r.value, DateTime(738880, 0, Utc)).fineAmount == Some(72.00)
      && RegisterReturn(r.value, DateTime(738880, 0, Utc)).totalAmount == -48.00
  {
    var r := NewRental(1, 2, 3, DateTime(738885, 0, Utc), DateTime(738892, 0, Utc), 7, DateTime(738884, 0, Utc));
    EarlyReturnSettlement(r.value, DateTime(738880, 0, Utc));
  }

  /** The total settled for a rental whose expected end is its start plus its
      plan (as the service creates them) strictly grows with the return day:
      returning later never costs less, across the early, on-time and late
      cases alike. */
  lemma SettlementIncreasesWithReturnDay(r: Rental, d1: DateTime, d2: DateTime)
    requires Priced(r)
    requires r.expectedEndDate.day == r.startDate.day + r.planDays
    requires d1.day < d2.day
    ensures RegisterReturn(r, d1).totalAmount < RegisterReturn(r, d2).totalAmount
  {
    RegisterReturnSettlesByDay(r, d1);
    RegisterReturnSettlesByDay(r, d2);
    var p := r.planDays;
    if p == 7 {
      assert r.dailyRate == 30.00;
    } else if p == 15 {
      assert r.dailyRate == 28.00;
    } else if p == 30 {
      assert r.dailyRate == 22.00;
    } else if p == 45 {
      assert r.dailyRate == 20.00;
    } else {
      assert r.dailyRate == 18.00;
    }
  }

  /** The settlements the rules document, on rentals starting 2024-01-01
      (day 738885): 3 days early on the 7-day plan fines 18.00; 6 days early
      on the 15-day plan fines 67.20; 6 days early on the 30-day plan fines
      exactly 0; 2 days late on the 7-day plan adds 100.00; returning on the
      expected day of the 7-day plan costs 8 days, 240.00. */
  lemma DocumentedSettlements()
    ensures var r := NewRental(1, 2, 3, DateTime(738885, 0, Utc), DateTime(738892, 0, Utc), 7, DateTime(738884, 0, Utc));
      && r.Success? && r.value.dailyRate == 30.00 && r.value.totalAmount == 210.00
      && RegisterReturn(r.value, DateTime(738889, 0, Utc)).fineAmount == Some(18.00)
      && RegisterReturn(r.value, DateTime(738894, 0, Utc)).additionalAmount == Some(100.00)
      && RegisterReturn(r.value, DateTime(738894, 0, Utc)).fineAmount.None?
      && RegisterReturn(r.value, DateTime(738892, 0, Utc)).totalAmount == 240.00
    ensures var r := NewRental(1, 2, 3, DateTime(738885, 0, Utc), DateTime(738900, 0, Utc), 15, DateTime(738884, 0, Utc));
      && r.Success? && RegisterReturn(r.value, DateTime(738894, 0, Utc)).fineAmount == Some(67.20)
    ensures var r := NewRental(1, 2, 3, DateTime(738885, 0, Utc), DateTime(738915, 0, Utc), 30, DateTime(738884, 0, Utc));
      && r.Success? && RegisterReturn(r.value, DateTime(738909, 0, Utc)).fineAmount == Some(0.0)
      && RegisterReturn(r.value, DateTime(738909, 0, Utc)).additionalAmount.None?
  {
    var r7 := NewRental(1, 2, 3, DateTime(738885, 0, Utc), DateTime(738892, 0, Utc), 7, DateTime(738884, 0, Utc));
    EarlyReturnSettlement(r7.value, DateTime(738889, 0, Utc));
    LateReturnSettlement(r7.value, DateTime(738894, 0, Utc));
    OnTimeSettlement(r7.value, DateTime(738892, 0, Utc));
    var r15 := NewRental(1, 2, 3, DateTime(738885, 0, Utc), DateTime(738900, 0, Utc), 15, DateTime(738884, 0, Utc));
    EarlyReturnSettlement(r15.value, DateTime(738894, 0, Utc));
    var r30 := NewRental(1, 2, 3, DateTime(738885, 0, Utc), DateTime(738915, 0, Utc), 30, DateTime(738884, 0, Utc));
    EarlyReturnSettlement(r30.value, DateTime(738909, 0, Utc));
  }
}
