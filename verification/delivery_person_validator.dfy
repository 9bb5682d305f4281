/** The input rules for registering a driver. Every rule is evaluated and
    every failing one reported, in the order the rules are declared. */
module DeliveryPersonValidator {
  import opened Dates
  import opened Text
  import opened Core
  import opened Dtos
  import opened Collections

  datatype Failure =
    | NameRequired
    | NameTooLong
    | TaxIdNumberRequired
    | TaxIdNumberTooLong
    | BirthDateRequired
    | BirthDateNotPast
    | LicenseNumberRequired
    | LicenseNumberTooLong
    | LicenseTypeRequired
    | LicenseTypeUnknown

  const MaxNameLength: int := 200
  const MaxTaxIdNumberLength: int := 18
  const MaxLicenseNumberLength: int := 20

  /** `default(DateTime)`: midnight of 0001-01-01. */
  predicate IsDefaultDate(d: DateTime) {
    Ticks(d) == 0
  }

  /** The licence categories as the validator spells them; the comparison is
      exact, so lower case is refused. */
  predicate KnownLicenseTypeName(t: string) {
    t == "A" || t == "B" || t == "AB"
  }

  /** What a well-formed request is, with `now` the local time the validator
      was built at. */
  predicate WellFormed(dto: CreateDeliveryPersonDto, now: DateTime) {
    && !IsBlank(dto.name) && |dto.name| <= MaxNameLength
    && !IsBlank(dto.taxIdNumber) && |dto.taxIdNumber| <= MaxTaxIdNumberLength
    && !IsDefaultDate(dto.birthDate) && Before(dto.birthDate, now)
    && !IsBlank(dto.licenseNumber) && |dto.licenseNumber| <= MaxLicenseNumberLength
    && KnownLicenseTypeName(dto.licenseType)
  }

  /** The rules in declaration order. */
  const Rules: seq<Failure> := [NameRequired, NameTooLong, TaxIdNumberRequired, TaxIdNumberTooLong,
                                BirthDateRequired, BirthDateNotPast, LicenseNumberRequired,
                                LicenseNumberTooLong, LicenseTypeRequired, LicenseTypeUnknown]

  /** Whether `dto` breaks the rule `f`. */
  predicate Breaks(dto: CreateDeliveryPersonDto, now: DateTime, f: Failure) {
    match f
    case NameRequired => IsBlank(dto.name)
    case NameTooLong => !(|dto.name| <= MaxNameLength)
    case TaxIdNumberRequired => IsBlank(dto.taxIdNumber)
    case TaxIdNumberTooLong => !(|dto.taxIdNumber| <= MaxTaxIdNumberLength)
    case BirthDateRequired => IsDefaultDate(dto.birthDate)
    case BirthDateNotPast => !Before(dto.birthDate, now)
    case LicenseNumberRequired => IsBlank(dto.licenseNumber)
    case LicenseNumberTooLong => !(|dto.licenseNumber| <= MaxLicenseNumberLength)
    case LicenseTypeRequired => IsBlank(dto.licenseType)
    case LicenseTypeUnknown => !KnownLicenseTypeName(dto.licenseType)
  }

  /** Every rule appears in the list. */
  lemma RuleListed(f: Failure)
    ensures f in Rules
  {
    match f
    case NameRequired => assert Rules[0] == f;
    case NameTooLong => assert Rules[1] == f;
    case TaxIdNumberRequired => assert Rules[2] == f;
    case TaxIdNumberTooLong => assert Rules[3] == f;
    case BirthDateRequired => assert Rules[4] == f;
    case BirthDateNotPast => assert Rules[5] == f;
    case LicenseNumberRequired => assert Rules[6] == f;
    case LicenseNumberTooLong => assert Rules[7] == f;
    case LicenseTypeRequired => assert Rules[8] == f;
    case LicenseTypeUnknown => assert Rules[9] == f;
  }

  /** `CreateDeliveryPersonDTOValidator`: the broken rules, each once, in
      rule order. The image is not checked here. */
  function Validate(dto: CreateDeliveryPersonDto, now: DateTime): (fs: seq<Failure>)
    ensures forall f :: f in fs <==> Breaks(dto, now, f)
    ensures |fs| == 0 <==> forall f :: !Breaks(dto, now, f)
    ensures |fs| <= |Rules|
  {
    forall f: Failure ensures f in Rules { RuleListed(f); }
    var breaks := (f: Failure) => Breaks(dto, now, f);
    FilterEmpty(Rules, breaks);
    Filter(Rules, breaks)
  }

  /** The validator accepts exactly the well-formed requests. */
  lemma ValidIffWellFormed(dto: CreateDeliveryPersonDto, now: DateTime)
    ensures |Validate(dto, now)| == 0 <==> WellFormed(dto, now)
  {
    var fs := Validate(dto, now);
    if WellFormed(dto, now) {
      assert !IsBlank(dto.licenseType) by { assert !IsWhiteSpace(dto.licenseType[0]); }
    } else {
      var f := BrokenRule(dto, now);
      assert f in fs;
    }
  }

  /** A rule a request that is not well-formed breaks. */
  function BrokenRule(dto: CreateDeliveryPersonDto, now: DateTime): (f: Failure)
    requires !WellFormed(dto, now)
    ensures Breaks(dto, now, f)
  {
    if IsBlank(dto.name) then NameRequired
    else if !(|dto.name| <= MaxNameLength) then NameTooLong
    else if IsBlank(dto.taxIdNumber) then TaxIdNumberRequired
    else if !(|dto.taxIdNumber| <= MaxTaxIdNumberLength) then TaxIdNumberTooLong
    else if IsDefaultDate(dto.birthDate) then BirthDateRequired
    else if !Before(dto.birthDate, now) then BirthDateNotPast
    else if IsBlank(dto.licenseNumber) then LicenseNumberRequired
    else if !(|dto.licenseNumber| <= MaxLicenseNumberLength) then LicenseNumberTooLong
    else LicenseTypeUnknown
  }

  /** An empty licence type breaks both of its rules; a lower-case one only
      the spelling rule. */
  lemma LicenseTypeFailures(dto: CreateDeliveryPersonDto, now: DateTime)
    ensures LicenseTypeRequired in Validate(dto.(licenseType := ""), now)
    ensures LicenseTypeUnknown in Validate(dto.(licenseType := ""), now)
    ensures LicenseTypeRequired !in Validate(dto.(licenseType := "a"), now)
    ensures LicenseTypeUnknown in Validate(dto.(licenseType := "a"), now)
    ensures LicenseTypeUnknown !in Validate(dto.(licenseType := "AB"), now)
  {
    var empty := dto.(licenseType := "");
    assert Breaks(empty, now, LicenseTypeRequired) && Breaks(empty, now, LicenseTypeUnknown);
    var lower := dto.(licenseType := "a");
    assert !IsBlank("a") by { assert !IsWhiteSpace("a"[0]); }
    assert !Breaks(lower, now, LicenseTypeRequired) && Breaks(lower, now, LicenseTypeUnknown);
    var both := dto.(licenseType := "AB");
    assert !Breaks(both, now, LicenseTypeUnknown);
  }
}
