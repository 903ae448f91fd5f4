/**
 * The two pieces of the HTTP handlers that decide what reaches the service:
 * the default-tenant fallback and the sparse patch an update request becomes.
 * Decoding, routing and response writing are not part of this model.
 */
module Handler {
  import opened Entity
  import opened Commons
  import opened Table
  import opened Mappers
  import TableFacts

  /** The tenant of a request: its `ntenant` header, or the default tenant when that is empty. */
  function TenantOrDefault(header: string): (t: string)
    ensures t != ""
    ensures header != "" ==> t == header
    ensures header == "" ==> t == DefaultTenant
  {
    if |header| == 0 then DefaultTenant else header
  }

  /** The record a create request inserts: the mapped request, moved into the request's tenant. */
  function CreateRecord(req: CreateProfileRequest, header: string, uuid: UuidText): (p: Profile)
    ensures p.tenantID == TenantOrDefault(header) && p.tenantID != ""
    ensures p.profileID == uuid && p.active
    ensures p.fullName == req.fullName && p.emailID == req.emailID && p.mobile == req.mobile
    ensures p.(tenantID := DefaultTenant) == ToProfile(req, uuid)
  {
    ToProfile(req, uuid).(tenantID := TenantOrDefault(header))
  }

  /** The filter an update request is scoped by. */
  function UpdateFilter(id: string, tenant: string): (f: Fields)
    ensures FilterStrings(f) && FilterKey(f) == Key(tenant, id)
  {
    map["profile_id" := Str(id), "tenant_id" := Str(tenant)]
  }

  /** The six fields an update request may change, before empty ones are dropped. */
  function UpdateFields(req: UpdateProfileRequest): Fields
  {
    map["full_name" := Str(req.fullName),
        "gender" := Str(req.gender),
        "email_id" := Str(req.emailID),
        "mobile" := Str(req.mobile),
        "birth_date" := Stamp(req.birthDate),
        "address" := Str(req.address)]
  }

  /** The patch an update request sends: its fields with the empty ones dropped. */
  function UpdatePatch(req: UpdateProfileRequest): (m: Fields)
    ensures forall c | c in m :: !IsEmptyValue(m[c])
    ensures m.Keys <= {"full_name", "gender", "email_id", "mobile", "birth_date", "address"}
  {
    NonEmpty(UpdateFields(req))
  }

  /** Every entry of an update request's patch fits its column. */
  lemma UpdatePatchWellTyped(req: UpdateProfileRequest)
    ensures WellTyped(UpdatePatch(req))
  {
  }

  /**
   * The patch holds exactly the request's non-empty fields, each under its
   * column and with its value.
   */
  lemma UpdatePatchEntries(req: UpdateProfileRequest)
    ensures var m := UpdatePatch(req);
      ("full_name" in m <==> req.fullName != "") && ("full_name" in m ==> m["full_name"] == Str(req.fullName)) &&
      ("gender" in m <==> req.gender != "") && ("gender" in m ==> m["gender"] == Str(req.gender)) &&
      ("email_id" in m <==> req.emailID != "") && ("email_id" in m ==> m["email_id"] == Str(req.emailID)) &&
      ("mobile" in m <==> req.mobile != "") && ("mobile" in m ==> m["mobile"] == Str(req.mobile)) &&
      ("birth_date" in m <==> !IsZeroTime(req.birthDate)) &&
      ("birth_date" in m ==> m["birth_date"] == Stamp(req.birthDate)) &&
      ("address" in m <==> req.address != "") && ("address" in m ==> m["address"] == Str(req.address))
  {
  }

  /** A patch with no empty value cannot blank a required field. */
  lemma SparsePatchKeepsRequired(p: Profile, patch: Fields)
    requires HasRequiredFields(p)
    requires WellTyped(patch)
    requires forall c | c in patch :: !IsEmptyValue(patch[c])
    ensures HasRequiredFields(ApplyPatch(p, patch))
  {
  }

  /**
   * An update whose patch has no empty value and names neither key column nor
   * the deletion time never leaves a stored row without a required field,
   * never moves a row to another key, and never sets its deletion time.
   */
  lemma SparseUpdateKeepsRows(rows: seq<Profile>, filters: Fields, patch: Fields, up: bool)
    requires NoClashes(rows) && FilterStrings(filters)
    requires forall x | x in rows :: HasRequiredFields(x)
    requires WellTyped(patch) && forall c | c in patch :: !IsEmptyValue(patch[c])
    requires "tenant_id" !in patch && "profile_id" !in patch && "deleted_at" !in patch
    ensures var s := Update(rows, filters, patch, up);
      (forall x | x in s.rows :: HasRequiredFields(x)) &&
      forall j | 0 <= j < |rows| :: KeyOf(s.rows[j]) == KeyOf(rows[j]) && s.rows[j].deletedAt == rows[j].deletedAt
  {
    var s := Update(rows, filters, patch, up);
    TableFacts.UpdateRows(rows, filters, patch, up);
    forall j | 0 <= j < |rows|
      ensures HasRequiredFields(s.rows[j])
      ensures KeyOf(s.rows[j]) == KeyOf(rows[j]) && s.rows[j].deletedAt == rows[j].deletedAt
    {
      if s.rows[j] != rows[j] {
        assert rows[j] in rows;
        SparsePatchKeepsRequired(rows[j], patch);
        ApplyPatchKeeps(rows[j], patch, "tenant_id");
        ApplyPatchKeeps(rows[j], patch, "profile_id");
        ApplyPatchKeeps(rows[j], patch, "deleted_at");
      }
    }
  }

  /** The same for the patch an update request sends. */
  lemma UpdateRequestKeepsRows(rows: seq<Profile>, id: string, header: string, req: UpdateProfileRequest, up: bool)
    requires NoClashes(rows)
    requires forall x | x in rows :: HasRequiredFields(x)
    ensures var s := Update(rows, UpdateFilter(id, TenantOrDefault(header)), UpdatePatch(req), up);
      (forall x | x in s.rows :: HasRequiredFields(x)) &&
      forall j | 0 <= j < |rows| :: KeyOf(s.rows[j]) == KeyOf(rows[j]) && s.rows[j].deletedAt == rows[j].deletedAt
  {
    UpdatePatchWellTyped(req);
    SparseUpdateKeepsRows(rows, UpdateFilter(id, TenantOrDefault(header)), UpdatePatch(req), up);
  }

  /** An update request whose fields are all empty is a no-op reported as `false`, not an error. */
  lemma EmptyUpdateRequestIsNoop(rows: seq<Profile>, id: string, header: string, req: UpdateProfileRequest, up: bool)
    requires NoClashes(rows)
    requires req.fullName == "" && req.gender == "" && req.emailID == "" && req.mobile == ""
    requires IsZeroTime(req.birthDate) && req.address == ""
    ensures Update(rows, UpdateFilter(id, TenantOrDefault(header)), UpdatePatch(req), up) == Step(Reply(false, None), rows)
  {
  }
}
