/**
 * The profile repository: an object holding the profile table and running
 * the five statements of the repository interface against it.
 */
module Repo {
  import opened Entity
  import opened Commons
  import opened Table

  class ProfileRepo {
    /** The rows of the profile table, in storage order. */
    var rows: seq<Profile>

    /** The schema's primary key and unique constraints hold. */
    ghost predicate Valid()
      reads this
    {
      NoClashes(rows)
    }

    /** A freshly migrated, empty table. */
    constructor ()
      ensures Valid() && rows == []
    {
      rows := [];
    }

    /** Inserts `profile`; reports its id, or "" and the backend's error. */
    method Create(profile: Profile, up: bool) returns (id: string, err: Option<DbError>)
      requires Valid()
      modifies this
      ensures Valid()
      ensures Step(Reply(id, err), rows) == Table.Create(old(rows), profile, up)
    {
      if !up {
        return "", Some(Unavailable);
      }
      var clash := Violation(rows, profile);
      if clash.Some? {
        return "", Some(ConstraintViolation(clash.value));
      }
      rows := rows + [profile];
      return profile.profileID, None;
    }

    /** Deletes by both keys; reports whether any row was affected. */
    method Delete(profileID: string, tenantID: string, up: bool) returns (ok: bool, err: Option<DbError>)
      requires Valid()
      modifies this
      ensures Valid()
      ensures Step(Reply(ok, err), rows) == Table.Delete(old(rows), profileID, tenantID, up)
    {
      if !up {
        return false, Some(Unavailable);
      }
      var before := |rows|;
      FilterNoClashes(rows, Unmatched(profileID, tenantID));
      rows := Filter(rows, Unmatched(profileID, tenantID));
      var rowsAffected := before - |rows|;
      return rowsAffected > 0, None;
    }

    /** Reads the tenant's page of matching rows; changes nothing. */
    method Search(query: Query, limit: int, offset: int, sortBy: SortBy, tenantID: string, up: bool)
      returns (profiles: seq<Profile>, err: Option<DbError>)
      ensures Reply(profiles, err) == Table.Search(rows, query, limit, offset, sortBy, tenantID, up)
    {
      if !up {
        return [], Some(Unavailable);
      }
      if query.Malformed? {
        return [], Some(InvalidQuery);
      }
      var matches := Filter(rows, Matching(query.holds, tenantID));
      var ordered := if sortBy.By? then SortByRank(matches, sortBy.rank) else matches;
      profiles := Page(ordered, offset, limit);
      err := None;
    }

    /**
     * Patches the row whose key the filter's `profile_id` and `tenant_id`
     * entries give, reporting whether a row was affected.
     */
    method Update(filters: Fields, fieldsToUpdate: Fields, up: bool) returns (ok: bool, err: Option<DbError>)
      requires Valid()
      requires FilterStrings(filters)
      modifies this
      ensures Valid()
      ensures Step(Reply(ok, err), rows) == Table.Update(old(rows), filters, fieldsToUpdate, up)
    {
      var profile := ZeroProfile;
      if "profile_id" in filters {
        profile := profile.(profileID := filters["profile_id"].s);
      }
      if "tenant_id" in filters {
        profile := profile.(tenantID := filters["tenant_id"].s);
      }
      var key := KeyOf(profile);
      assert key == FilterKey(filters);

      if !NamesColumn(fieldsToUpdate) {
        return false, None;
      }
      if !up {
        return false, Some(Unavailable);
      }
      if !WellTyped(fieldsToUpdate) {
        return false, Some(InvalidValue);
      }
      var found := IndexOfKey(rows, key);
      if found.None? {
        return false, None;
      }
      var i := found.value;
      var patched := ApplyPatch(rows[i], fieldsToUpdate);
      var clash := Violation(Filter(rows, OtherKeys(key)), patched);
      if clash.Some? {
        return false, Some(ConstraintViolation(clash.value));
      }
      UpdateKeepsConstraints(rows, i, patched);
      rows := rows[i := patched];
      return true, None;
    }

    /** The image upload placeholder: always `false` and an error, nothing changed. */
    method UploadProfileImage(profileID: string, image: seq<bv8>) returns (ok: bool, err: Option<DbError>)
      ensures !ok && err == Some(NotImplemented)
    {
      return false, Some(NotImplemented);
    }
  }
}
