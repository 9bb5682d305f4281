/** The delivery driver entity. */
module DeliveryPersonEntity {
  import opened Core
  import opened Dates

  /** The licence categories the system knows. */
  datatype LicenseType = A | B | AB

  datatype DeliveryPerson = DeliveryPerson(
    id: Guid,
    name: string,
    taxIdNumber: string,
    birthDate: DateTime,
    licenseNumber: string,
    licenseType: LicenseType,
    licenseImageUrl: Option<string>,
    createdAt: DateTime)

  /** The constructor stores what it is given and starts without an image. */
  function NewDeliveryPerson(id: Guid, name: string, taxIdNumber: string, birthDate: DateTime,
                             licenseNumber: string, licenseType: LicenseType,
                             createdAt: DateTime): (d: DeliveryPerson)
    ensures d.id == id && d.name == name && d.taxIdNumber == taxIdNumber
    ensures d.birthDate == birthDate && d.licenseNumber == licenseNumber
    ensures d.licenseType == licenseType && d.createdAt == createdAt
    ensures d.licenseImageUrl.None?
  {
    DeliveryPerson(id, name, taxIdNumber, birthDate, licenseNumber, licenseType, None, createdAt)
  }

  /** `UpdateLicenseImage`: sets the image URL and nothing else. */
  function UpdateLicenseImage(d: DeliveryPerson, url: string): (d': DeliveryPerson)
    ensures d'.licenseImageUrl == Some(url)
    ensures d' == d.(licenseImageUrl := Some(url))
  {
    d.(licenseImageUrl := Some(url))
  }

  /** `CanRent`: only an A or AB licence lets a driver rent. */
  predicate CanRent(d: DeliveryPerson) {
    d.licenseType == A || d.licenseType == AB
  }

  /** The B category is exactly the one that cannot rent. */
  lemma CanRentUnlessB(d: DeliveryPerson)
    ensures CanRent(d) <==> d.licenseType != B
  {
  }

  /** The last image written is the one kept. */
  lemma LastImageWins(d: DeliveryPerson, u1: string, u2: string)
    ensures UpdateLicenseImage(UpdateLicenseImage(d, u1), u2) == UpdateLicenseImage(d, u2)
  {
  }

  /** Updating the image never changes whether the driver may rent. */
  lemma ImageDoesNotAffectEligibility(d: DeliveryPerson, url: string)
    ensures CanRent(UpdateLicenseImage(d, url)) == CanRent(d)
  {
  }
}
