/** The input rules for registering a vehicle. Every rule is evaluated and
    every failing one reported, in the order the rules are declared. */
module MotorcycleValidator {
  import opened Dates
  import opened Text
  import opened Dtos
  import opened Collections
  import MotorcycleEntity

  datatype Failure =
    | YearRequired
    | YearNotAfter1900
    | YearInFuture
    | ModelRequired
    | ModelTooLong
    | LicensePlateRequired
    | LicensePlateTooLong

  const MaxModelLength: int := 100
  const MaxLicensePlateLength: int := 10

  /** What a well-formed request is, with `now` the local time the validator
      was built at: a model year from 1901 up to next year, and a model and
      plate that are neither blank nor too long. */
  predicate WellFormed(dto: CreateMotorcycleDto, now: DateTime) {
    && 1900 < dto.year <= YearOf(now) + 1
    && !IsBlank(dto.model) && |dto.model| <= MaxModelLength
    && !IsBlank(dto.licensePlate) && |dto.licensePlate| <= MaxLicensePlateLength
  }

  /** The rules in declaration order. */
  const Rules: seq<Failure> := [YearRequired, YearNotAfter1900, YearInFuture, ModelRequired,
                                ModelTooLong, LicensePlateRequired, LicensePlateTooLong]

  /** Whether `dto` breaks the rule `f`. */
  predicate Breaks(dto: CreateMotorcycleDto, now: DateTime, f: Failure) {
    match f
    case YearRequired => dto.year == 0
    case YearNotAfter1900 => !(dto.year > 1900)
    case YearInFuture => !(dto.year <= YearOf(now) + 1)
    case ModelRequired => IsBlank(dto.model)
    case ModelTooLong => !(|dto.model| <= MaxModelLength)
    case LicensePlateRequired => IsBlank(dto.licensePlate)
    case LicensePlateTooLong => !(|dto.licensePlate| <= MaxLicensePlateLength)
  }

  /** Every rule appears in the list. */
  lemma RuleListed(f: Failure)
    ensures f in Rules
  {
    match f
    case YearRequired => assert Rules[0] == f;
    case YearNotAfter1900 => assert Rules[1] == f;
    case YearInFuture => assert Rules[2] == f;
    case ModelRequired => assert Rules[3] == f;
    case ModelTooLong => assert Rules[4] == f;
    case LicensePlateRequired => assert Rules[5] == f;
    case LicensePlateTooLong => assert Rules[6] == f;
  }

  /** `CreateMotorcycleDTOValidator`: the broken rules, each once, in rule
      order. */
  function Validate(dto: CreateMotorcycleDto, now: DateTime): (fs: seq<Failure>)
    ensures forall f :: f in fs <==> Breaks(dto, now, f)
    ensures |fs| == 0 <==> forall f :: !Breaks(dto, now, f)
    ensures |fs| <= |Rules|
  {
    forall f: Failure ensures f in Rules { RuleListed(f); }
    var breaks := (f: Failure) => Breaks(dto, now, f);
    FilterEmpty(Rules, breaks);
    Filter(Rules, breaks)
  }

  /** The validator accepts exactly the well-formed requests. */
  lemma ValidIffWellFormed(dto: CreateMotorcycleDto, now: DateTime)
    ensures |Validate(dto, now)| == 0 <==> WellFormed(dto, now)
  {
    var fs := Validate(dto, now);
    if WellFormed(dto, now) {
      assert forall f :: !Breaks(dto, now, f);
    } else {
      var f := BrokenRule(dto, now);
      assert f in fs;
    }
  }

  /** A rule a request that is not well-formed breaks. */
  function BrokenRule(dto: CreateMotorcycleDto, now: DateTime): (f: Failure)
    requires !WellFormed(dto, now)
    ensures Breaks(dto, now, f)
  {
    if !(dto.year > 1900) then YearNotAfter1900
    else if !(dto.year <= YearOf(now) + 1) then YearInFuture
    else if IsBlank(dto.model) then ModelRequired
    else if !(|dto.model| <= MaxModelLength) then ModelTooLong
    else if IsBlank(dto.licensePlate) then LicensePlateRequired
    else LicensePlateTooLong
  }

  /** A year-0 request breaks the presence rule and the lower bound, and
      nothing else. */
  lemma MissingYearReportedTwice(now: DateTime)
    requires 0 <= now.day
    ensures var fs := Validate(CreateMotorcycleDto(0, "CG 160", "ABC1D23"), now);
            YearRequired in fs && YearNotAfter1900 in fs
            && forall f :: f in fs ==> f == YearRequired || f == YearNotAfter1900
  {
    var dto := CreateMotorcycleDto(0, "CG 160", "ABC1D23");
    assert !IsBlank(dto.model) by { assert !IsWhiteSpace(dto.model[0]); }
    assert !IsBlank(dto.licensePlate) by { assert !IsWhiteSpace(dto.licensePlate[0]); }
    assert !Breaks(dto, now, YearInFuture) by { assert 1 <= YearOf(now); }
    forall f | f !in {YearRequired, YearNotAfter1900}
      ensures !Breaks(dto, now, f)
    {
    }
  }

  /** In 2024 the newest accepted model year is 2025. */
  lemma NextYearAccepted()
    ensures YearInFuture !in Validate(CreateMotorcycleDto(2025, "CG 160", "ABC1D23"), DateTime(738_885, 0, Local))
    ensures YearInFuture in Validate(CreateMotorcycleDto(2026, "CG 160", "ABC1D23"), DateTime(738_885, 0, Local))
  {
    YearBoundaries();
  }

  /** A plate the validator accepts is one the vehicle entity accepts too. */
  lemma WellFormedPlateAccepted(dto: CreateMotorcycleDto, now: DateTime, m: MotorcycleEntity.Motorcycle)
    requires |Validate(dto, now)| == 0
    ensures MotorcycleEntity.UpdateLicensePlate(m, dto.licensePlate).Success?
  {
    ValidIffWellFormed(dto, now);
  }
}
