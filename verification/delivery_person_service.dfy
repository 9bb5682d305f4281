/** The driver use cases: registration, with an optional licence image, and
    replacement of the licence image. */
module DeliveryPersonService {
  import opened Core
  import opened Dates
  import opened Text
  import opened Dtos
  import opened DeliveryPersonEntity
  import opened Store
  import DeliveryPersonRepository

  /** The content type an upload is declared with when the client sent none. */
  const DefaultImageContentType: string := "image/png"

  /** `Enum.TryParse<LicenseType>(s, ignoreCase: true)` on the category
      names: a case-insensitive match of "A", "B" or "AB". */
  function ParseLicenseType(s: string): (t: Option<LicenseType>)
    ensures t == Some(A) <==> ToUpper(s) == "A"
    ensures t == Some(B) <==> ToUpper(s) == "B"
    ensures t == Some(AB) <==> ToUpper(s) == "AB"
  {
    var upper := ToUpper(s);
    if upper == "A" then Some(A)
    else if upper == "B" then Some(B)
    else if upper == "AB" then Some(AB)
    else None
  }

  /** Parsing inverts the category's name. */
  lemma ParseLicenseTypeName(t: LicenseType)
    ensures ParseLicenseType(LicenseTypeName(t)) == Some(t)
  {
  }

  /** The service accepts a spelling the validator refuses: "a" parses to
      category A, while the validator wants the exact upper-case name. */
  lemma LowerCaseParses()
    ensures ParseLicenseType("a") == Some(A)
    ensures ParseLicenseType("Ab") == Some(AB)
    ensures ParseLicenseType("C") == None
    ensures ParseLicenseType("") == None
  {
    assert ToUpper("a") == "A";
    assert ToUpper("Ab") == "AB";
    assert ToUpper("C")[0] == 'C';
  }

  /** The extension check on an image's file name: the extension, lower-cased,
      is ".png" or ".bmp". */
  predicate AcceptedImageName(fileName: string) {
    var extension := ToLower(Extension(fileName));
    extension == ".png" || extension == ".bmp"
  }

  /** The name ends in ".png" or ".bmp" in any mix of case, four characters. */
  predicate EndsWithImageSuffix(fileName: string) {
    && |fileName| >= 4
    && var suffix := ToLower(fileName[|fileName| - 4..]);
       suffix == ".png" || suffix == ".bmp"
  }

  /** The extension check accepts exactly the names ending in ".png" or
      ".bmp", whatever their case. */
  lemma AcceptedImageNameIffSuffix(fileName: string)
    ensures AcceptedImageName(fileName) <==> EndsWithImageSuffix(fileName)
  {
    if EndsWithImageSuffix(fileName) {
      SuffixIsExtension(fileName);
    }
    if AcceptedImageName(fileName) {
      ExtensionIsSuffix(fileName);
    }
  }

  /** An image suffix is the name's extension: its dot is the last one. */
  lemma SuffixIsExtension(fileName: string)
    requires EndsWithImageSuffix(fileName)
    ensures Extension(fileName) == fileName[|fileName| - 4..]
  {
    var n := |fileName|;
    var lower := ToLower(fileName[n - 4..]);
    assert lower[0] == ToLowerChar(fileName[n - 4]);
    forall j | n - 4 < j < n
      ensures fileName[j] != '.' && fileName[j] != DirectorySeparator
    {
      assert lower[j - (n - 4)] == ToLowerChar(fileName[j]);
    }
    assert IsExtensionStart(fileName, n - 4);
  }

  /** An accepted extension is four characters long, so it is the name's
      last four. */
  lemma ExtensionIsSuffix(fileName: string)
    requires AcceptedImageName(fileName)
    ensures EndsWithImageSuffix(fileName)
  {
    var ext := Extension(fileName);
    var lower := ToLower(ext);
    assert |lower| == 4 by { assert lower == ".png" || lower == ".bmp"; }
    var k :| IsExtensionStart(fileName, k) && ext == fileName[k..];
    assert k == |fileName| - 4;
  }

  /** Names a client might send that the check accepts. */
  lemma AcceptedImageNames()
    ensures EndsWithImageSuffix("cnh.png") && EndsWithImageSuffix("CNH.BMP")
  {
    assert ToLower("cnh.png"[3..]) == ".png";
    assert ToLower("CNH.BMP"[3..]) == ".bmp";
  }

  /** Names a client might send that the check refuses: another format, no
      extension at all, and an image extension that is not the last one. */
  lemma RefusedImageNames()
    ensures !EndsWithImageSuffix("cnh.jpg") && !EndsWithImageSuffix("png")
    ensures !EndsWithImageSuffix("cnh.png.exe")
  {
    assert ToLower("cnh.jpg"[3..])[1] == 'j';
    assert ToLower("cnh.png.exe"[7..])[1] == 'e';
  }

  /** Why `CreateDeliveryPerson` would refuse `dto` against `st`, checking
      in the service's order: tax id taken, licence number taken, unknown
      category, unacceptable image name. */
  function CreateRefusal(st: Store, dto: CreateDeliveryPersonDto): (e: Option<Error>)
    ensures e == Some(InvalidOperation(DuplicateTaxIdNumber)) <==>
              exists d :: d in st.deliveryPersons && d.taxIdNumber == dto.taxIdNumber
    ensures e == Some(InvalidOperation(DuplicateLicenseNumber)) <==>
              && (forall d :: d in st.deliveryPersons ==> d.taxIdNumber != dto.taxIdNumber)
              && (exists d :: d in st.deliveryPersons && d.licenseNumber == dto.licenseNumber)
    ensures e == Some(InvalidOperation(InvalidLicenseType)) <==>
              && (forall d :: d in st.deliveryPersons ==> d.taxIdNumber != dto.taxIdNumber)
              && (forall d :: d in st.deliveryPersons ==> d.licenseNumber != dto.licenseNumber)
              && ParseLicenseType(dto.licenseType).None?
    ensures e == Some(InvalidOperation(InvalidImageFormat)) <==>
              && (forall d :: d in st.deliveryPersons ==> d.taxIdNumber != dto.taxIdNumber)
              && (forall d :: d in st.deliveryPersons ==> d.licenseNumber != dto.licenseNumber)
              && ParseLicenseType(dto.licenseType).Some?
              && dto.licenseImage.Some? && |dto.licenseImage.value.fileName| > 0
              && !EndsWithImageSuffix(dto.licenseImage.value.fileName)
    ensures e.None? <==>
              && (forall d :: d in st.deliveryPersons ==> d.taxIdNumber != dto.taxIdNumber)
              && (forall d :: d in st.deliveryPersons ==> d.licenseNumber != dto.licenseNumber)
              && ParseLicenseType(dto.licenseType).Some?
              && (dto.licenseImage.Some? && |dto.licenseImage.value.fileName| > 0 ==>
                    EndsWithImageSuffix(dto.licenseImage.value.fileName))
  {
    var imageName := if dto.licenseImage.Some? then dto.licenseImage.value.fileName else "";
    AcceptedImageNameIffSuffix(imageName);
    if DeliveryPersonRepository.TaxIdNumberExists(st.deliveryPersons, dto.taxIdNumber, None) then
      Some(InvalidOperation(DuplicateTaxIdNumber))
    else if DeliveryPersonRepository.LicenseNumberExists(st.deliveryPersons, dto.licenseNumber, None) then
      Some(InvalidOperation(DuplicateLicenseNumber))
    else if ParseLicenseType(dto.licenseType).None? then
      Some(InvalidOperation(InvalidLicenseType))
    else if dto.licenseImage.Some? && !IsNullOrEmpty(Some(dto.licenseImage.value.fileName))
            && !AcceptedImageName(dto.licenseImage.value.fileName) then
      Some(InvalidOperation(InvalidImageFormat))
    else None
  }

  /** `CreateDeliveryPersonAsync`, with `id` and `utcNow` the identifier and
      clock reading the new driver gets, `toUniversal` the host's local-to-UTC
      conversion, and `imageKey` and `imageUrl` the upload's key and the URL
      storage answers with. A refused request changes nothing. Otherwise the
      driver is stored with the parsed category and the birth date in UTC;
      when an image with a non-empty name was sent it is uploaded once, with
      the client's content type or "image/png", and its URL recorded;
      otherwise storage is not called and no URL is recorded. One save. */
  function CreateDeliveryPerson(st: Store, dto: CreateDeliveryPersonDto, id: Guid, utcNow: DateTime,
                                toUniversal: DateTime -> DateTime,
                                imageKey: Guid, imageUrl: string): (s: Step<DeliveryPersonDto>)
    ensures CreateRefusal(st, dto).Some? ==> s == Step(Failure(CreateRefusal(st, dto).value), st)
    ensures CreateRefusal(st, dto).None? ==>
              var withImage := dto.licenseImage.Some? && |dto.licenseImage.value.fileName| > 0;
              var d := DeliveryPerson(id, dto.name, dto.taxIdNumber,
                                      NormalizeToUtc(dto.birthDate, toUniversal),
                                      dto.licenseNumber, ParseLicenseType(dto.licenseType).value,
                                      if withImage then Some(imageUrl) else None, utcNow);
              && s.outcome == Success(ToDeliveryPersonDto(d))
              && s.store == st.(deliveryPersons := st.deliveryPersons + [d],
                                storage := st.storage +
                                  (if withImage then
                                     [Upload(imageKey, if dto.licenseImage.value.contentType.Some?
                                                       then dto.licenseImage.value.contentType.value
                                                       else DefaultImageContentType)]
                                   else []),
                                saves := st.saves + 1)
  {
    match CreateRefusal(st, dto)
    case Some(e) => Step(Failure(e), st)
    case None =>
      var licenseType := ParseLicenseType(dto.licenseType).value;
      var birthDate := NormalizeToUtc(dto.birthDate, toUniversal);
      var d := NewDeliveryPerson(id, dto.name, dto.taxIdNumber, birthDate, dto.licenseNumber,
                                 licenseType, utcNow);
      var withImage := dto.licenseImage.Some? && !IsNullOrEmpty(Some(dto.licenseImage.value.fileName));
      var contentType := if dto.licenseImage.Some? && dto.licenseImage.value.contentType.Some?
                         then dto.licenseImage.value.contentType.value
                         else DefaultImageContentType;
      var storage := if withImage then st.storage + [Upload(imageKey, contentType)] else st.storage;
      var d' := if withImage then DeliveryPersonEntity.UpdateLicenseImage(d, imageUrl) else d;
      Step(Success(ToDeliveryPersonDto(d')),
           st.(deliveryPersons := DeliveryPersonRepository.Add(st.deliveryPersons, d'),
               storage := storage, saves := st.saves + 1))
  }

  /** `UpdateLicenseImageAsync`, with `imageKey` and `imageUrl` as above.
      Refused with argument errors, touching neither store nor storage, for
      an unknown driver and then for a name not ending in ".png" or ".bmp".
      Otherwise a previous image, if one is recorded, is deleted first; the
      new one is uploaded once with the given content type; its URL replaces
      the old one on the driver, and that alone is saved, once. */
  function UpdateLicenseImage(st: Store, id: Guid, fileName: string, contentType: string,
                              imageKey: Guid, imageUrl: string): (s: Step<DeliveryPersonDto>)
    ensures DeliveryPersonRepository.GetById(st.deliveryPersons, id).None? ==>
              s == Step(Failure(Argument(DeliveryPersonNotFound)), st)
    ensures DeliveryPersonRepository.GetById(st.deliveryPersons, id).Some? && !EndsWithImageSuffix(fileName) ==>
              s == Step(Failure(Argument(InvalidImageFormat)), st)
    ensures DeliveryPersonRepository.GetById(st.deliveryPersons, id).Some? && EndsWithImageSuffix(fileName) ==>
              var d := DeliveryPersonRepository.GetById(st.deliveryPersons, id).value;
              var d' := d.(licenseImageUrl := Some(imageUrl));
              && s.outcome == Success(ToDeliveryPersonDto(d'))
              && s.store == st.(deliveryPersons := DeliveryPersonRepository.Update(st.deliveryPersons, d'),
                                storage := (if IsNullOrEmpty(d.licenseImageUrl) then st.storage
                                            else st.storage + [Delete(d.licenseImageUrl.value)])
                                           + [Upload(imageKey, contentType)],
                                saves := st.saves + 1)
  {
    match DeliveryPersonRepository.GetById(st.deliveryPersons, id)
    case None => Step(Failure(Argument(DeliveryPersonNotFound)), st)
    case Some(d) =>
      AcceptedImageNameIffSuffix(fileName);
      if !AcceptedImageName(fileName) then Step(Failure(Argument(InvalidImageFormat)), st)
      else
        var deleted := if !IsNullOrEmpty(d.licenseImageUrl) then st.storage + [Delete(d.licenseImageUrl.value)]
                       else st.storage;
        var d' := DeliveryPersonEntity.UpdateLicenseImage(d, imageUrl);
        Step(Success(ToDeliveryPersonDto(d')),
             st.(deliveryPersons := DeliveryPersonRepository.Update(st.deliveryPersons, d'),
                 storage := deleted + [Upload(imageKey, contentType)], saves := st.saves + 1))
  }

  /** `GetDeliveryPersonByIdAsync`: the driver with that id as a response,
      or nothing. */
  function GetDeliveryPerson(st: Store, id: Guid): (r: Option<DeliveryPersonDto>)
    ensures r.None? <==> forall d :: d in st.deliveryPersons ==> d.id != id
    ensures r.Some? ==> exists d :: d in st.deliveryPersons && d.id == id && r.value == ToDeliveryPersonDto(d)
  {
    match DeliveryPersonRepository.GetById(st.deliveryPersons, id)
    case None => None
    case Some(d) => Some(ToDeliveryPersonDto(d))
  }

  /** A driver registered under a fresh id is found by it, as the
      registration answered. */
  lemma CreatedDeliveryPersonFound(st: Store, dto: CreateDeliveryPersonDto, id: Guid, utcNow: DateTime,
                                   toUniversal: DateTime -> DateTime, imageKey: Guid, imageUrl: string)
    requires forall d :: d in st.deliveryPersons ==> d.id != id
    ensures var s := CreateDeliveryPerson(st, dto, id, utcNow, toUniversal, imageKey, imageUrl);
            s.outcome.Success? ==> GetDeliveryPerson(s.store, id) == Some(s.outcome.value)
  {
  }

  /** Registering a driver keeps tax ids and licence numbers unique. */
  lemma CreateKeepsDocumentsUnique(st: Store, dto: CreateDeliveryPersonDto, id: Guid, utcNow: DateTime,
                                   toUniversal: DateTime -> DateTime, imageKey: Guid, imageUrl: string)
    requires UniqueDriverDocuments(st)
    ensures UniqueDriverDocuments(CreateDeliveryPerson(st, dto, id, utcNow, toUniversal, imageKey, imageUrl).store)
  {
    var s := CreateDeliveryPerson(st, dto, id, utcNow, toUniversal, imageKey, imageUrl);
    if s.outcome.Success? {
      var ds := s.store.deliveryPersons;
      forall i, j | 0 <= i < j < |ds|
        ensures ds[i].taxIdNumber != ds[j].taxIdNumber && ds[i].licenseNumber != ds[j].licenseNumber
      {
        if j == |st.deliveryPersons| {
          assert ds[i] == st.deliveryPersons[i] && st.deliveryPersons[i] in st.deliveryPersons;
        }
      }
    }
  }

  /** Replacing an image changes nothing on any driver but the image URL:
      not the id, the documents, the category nor the birth date. */
  lemma UpdateImageChangesOnlyImage(st: Store, id: Guid, fileName: string, contentType: string,
                                    imageKey: Guid, imageUrl: string, i: int)
    requires UniqueDeliveryPersonIds(st)
    requires 0 <= i < |st.deliveryPersons|
    ensures var ds' := UpdateLicenseImage(st, id, fileName, contentType, imageKey, imageUrl).store.deliveryPersons;
            |ds'| == |st.deliveryPersons|
            && ds'[i] == st.deliveryPersons[i].(licenseImageUrl := ds'[i].licenseImageUrl)
  {
    var ds := st.deliveryPersons;
    var found := DeliveryPersonRepository.GetById(ds, id);
    if found.Some? && ds[i].id == id {
      var k :| 0 <= k < |ds| && ds[k] == found.value;
      assert k == i;
    }
  }

  /** Replacing an image keeps tax ids and licence numbers unique. */
  lemma UpdateImageKeepsDocumentsUnique(st: Store, id: Guid, fileName: string, contentType: string,
                                        imageKey: Guid, imageUrl: string)
    requires UniqueDriverDocuments(st) && UniqueDeliveryPersonIds(st)
    ensures UniqueDriverDocuments(UpdateLicenseImage(st, id, fileName, contentType, imageKey, imageUrl).store)
  {
    var ds := st.deliveryPersons;
    var ds' := UpdateLicenseImage(st, id, fileName, contentType, imageKey, imageUrl).store.deliveryPersons;
    forall i | 0 <= i < |ds|
      ensures |ds'| == |ds| && ds'[i].taxIdNumber == ds[i].taxIdNumber && ds'[i].licenseNumber == ds[i].licenseNumber
    {
      UpdateImageChangesOnlyImage(st, id, fileName, contentType, imageKey, imageUrl, i);
    }
  }
}
