/** Turning a create request into the profile record to insert. */
module Mappers {
  import opened Entity

  /** The 36-character text form of a version-4 UUID. */
  type UuidText = s: string | |s| == 36 witness "00000000-0000-0000-0000-000000000000"

  /**
   * The record for a create request: the request's fields copied as they are,
   * marked active, in the default tenant, under the freshly generated id;
   * every other field is left at its zero value.
   */
  function ToProfile(i: CreateProfileRequest, uuid: UuidText): (p: Profile)
    ensures p.fullName == i.fullName && p.emailID == i.emailID && p.mobile == i.mobile
    ensures p.gender == i.gender && p.birthDate == i.birthDate
    ensures p.cityID == i.cityID && p.countryID == i.countryID && p.address == i.address
    ensures p.latitude == i.latitude && p.longitude == i.longitude
    ensures p.active
    ensures p.tenantID == DefaultTenant
    ensures p.profileID == uuid && p.profileID != ""
    ensures p.profileImageURL == "" && p.createdBy == "" && p.updatedBy == "" && p.deletedBy == ""
    ensures IsZeroTime(p.createdAt) && IsZeroTime(p.updatedAt) && p.deletedAt == None
  {
    var p := ZeroProfile;
    var p := p.(fullName := i.fullName, emailID := i.emailID, mobile := i.mobile,
                gender := i.gender, birthDate := i.birthDate, cityID := i.cityID,
                countryID := i.countryID, address := i.address,
                latitude := i.latitude, longitude := i.longitude);
    p.(active := true, tenantID := DefaultTenant, profileID := uuid)
  }

  /**
   * A mapped request is a complete record exactly when the request carries a
   * name, an e-mail and a mobile.
   */
  lemma ToProfileComplete(i: CreateProfileRequest, uuid: UuidText)
    ensures HasRequiredFields(ToProfile(i, uuid)) <==> i.fullName != "" && i.emailID != "" && i.mobile != ""
  {
  }
}
