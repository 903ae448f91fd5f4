/**
 * The profile record of the n_users service, its composite primary key and
 * the store-wide uniqueness of e-mail and mobile declared on it, together
 * with the request records the HTTP layer decodes into.
 */
module Entity {

  /** A point in time, counted from Go's zero instant (January 1, year 1, UTC). */
  type Time = int

  /** The zero `time.Time`, the value `IsZero` recognises. */
  const ZeroTime: Time := 0

  predicate IsZeroTime(t: Time) { t == ZeroTime }

  /** A float64 coordinate, carried through unchanged; no arithmetic is done on it. */
  type Float64 = real

  /** The tenant a request falls back to when it names none. */
  const DefaultTenant: string := "default"

  datatype Profile = Profile(
    tenantID: string,
    profileID: string,
    fullName: string,
    gender: string,
    emailID: string,
    mobile: string,
    birthDate: Time,
    cityID: string,
    countryID: string,
    address: string,
    latitude: Float64,
    longitude: Float64,
    profileImageURL: string,
    // who columns
    active: bool,
    createdBy: string,
    createdAt: Time,
    updatedBy: string,
    updatedAt: Time,
    deletedBy: string,
    deletedAt: Option<Time>)

  datatype Option<T> = None | Some(value: T)

  /** `entity.Profile{}`: every field at its zero value, `DeletedAt` nil. */
  const ZeroProfile: Profile :=
    Profile("", "", "", "", "", "", ZeroTime, "", "", "", 0.0, 0.0, "",
            false, "", ZeroTime, "", ZeroTime, "", None)

  /** The composite primary key `(tenant_id, profile_id)`. */
  datatype Key = Key(tenantID: string, profileID: string)

  function KeyOf(p: Profile): (k: Key)
    ensures k.tenantID == p.tenantID && k.profileID == p.profileID
  {
    Key(p.tenantID, p.profileID)
  }

  /** The fields tagged `validate:"required"` on the stored record are non-empty. */
  predicate HasRequiredFields(p: Profile)
  {
    p.tenantID != "" && p.profileID != "" && p.fullName != "" &&
    p.emailID != "" && p.mobile != ""
  }

  /**
   * Two stored rows may coexist: their primary keys differ, and so do their
   * e-mails and their mobiles, whatever their tenants are.
   */
  predicate Compatible(a: Profile, b: Profile)
  {
    KeyOf(a) != KeyOf(b) && a.emailID != b.emailID && a.mobile != b.mobile
  }

  /** The table's constraints: every two distinct rows are compatible. */
  ghost predicate NoClashes(rows: seq<Profile>)
  {
    forall i, j | 0 <= i < |rows| && 0 <= j < |rows| && i != j :: Compatible(rows[i], rows[j])
  }

  /** The body of a create request. */
  datatype CreateProfileRequest = CreateProfileRequest(
    fullName: string,
    gender: string,
    emailID: string,
    mobile: string,
    birthDate: Time,
    cityID: string,
    countryID: string,
    address: string,
    latitude: Float64,
    longitude: Float64)

  /** The body of an update request. */
  datatype UpdateProfileRequest = UpdateProfileRequest(
    fullName: string,
    gender: string,
    emailID: string,
    mobile: string,
    birthDate: Time,
    address: string)
}
