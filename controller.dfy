/**
 * The profile service: a thin layer that forwards every call to the
 * repository, passing its arguments through unchanged, and on failure
 * returns a fixed default together with the repository's own error.
 */
module Controller {
  import opened Entity
  import opened Commons
  import opened Table
  import opened Repo

  class ProfileService {
    var repo: ProfileRepo

    constructor (repo: ProfileRepo)
      ensures this.repo == repo
    {
      this.repo := repo;
    }

    ghost predicate Valid()
      reads this, repo
    {
      repo.Valid()
    }

    /** The repository's id on success; "" and the repository's error on failure. */
    method Create(profile: Profile, up: bool) returns (id: string, err: Option<DbError>)
      requires Valid()
      modifies repo
      ensures Valid()
      ensures var s := Table.Create(old(repo.rows), profile, up);
        repo.rows == s.rows && err == s.reply.err && id == (if err.None? then s.reply.value else "")
    {
      var repoID, repoErr := repo.Create(profile, up);
      if repoErr.Some? {
        return "", repoErr;
      }
      return repoID, None;
    }

    /** The repository's status on success; false and the repository's error on failure. */
    method Delete(profileID: string, tenantID: string, up: bool) returns (ok: bool, err: Option<DbError>)
      requires Valid()
      modifies repo
      ensures Valid()
      ensures var s := Table.Delete(old(repo.rows), profileID, tenantID, up);
        repo.rows == s.rows && err == s.reply.err && ok == (err.None? && s.reply.value)
    {
      var status, repoErr := repo.Delete(profileID, tenantID, up);
      if repoErr.Some? {
        return false, repoErr;
      }
      return status, None;
    }

    /** The repository's rows on success; none and the repository's error on failure. */
    method Search(query: Query, limit: int, offset: int, sortBy: SortBy, tenantID: string, up: bool)
      returns (profiles: seq<Profile>, err: Option<DbError>)
      ensures var r := Table.Search(repo.rows, query, limit, offset, sortBy, tenantID, up);
        err == r.err && profiles == (if err.None? then r.value else [])
      ensures forall x | x in profiles :: x in repo.rows && x.tenantID == tenantID
    {
      var found, repoErr := repo.Search(query, limit, offset, sortBy, tenantID, up);
      if repoErr.Some? {
        return [], repoErr;
      }
      return found, None;
    }

    /** The repository's status on success; false and the repository's error on failure. */
    method Update(filters: Fields, fieldsToUpdate: Fields, up: bool) returns (ok: bool, err: Option<DbError>)
      requires Valid()
      requires FilterStrings(filters)
      modifies repo
      ensures Valid()
      ensures var s := Table.Update(old(repo.rows), filters, fieldsToUpdate, up);
        repo.rows == s.rows && err == s.reply.err && ok == (err.None? && s.reply.value)
    {
      var status, repoErr := repo.Update(filters, fieldsToUpdate, up);
      if repoErr.Some? {
        return false, repoErr;
      }
      return status, None;
    }

    /** Forwards to the repository's placeholder, so it always fails. */
    method UploadProfileImage(profileID: string, image: seq<bv8>) returns (ok: bool, err: Option<DbError>)
      ensures !ok && err == Some(NotImplemented)
    {
      var status, repoErr := repo.UploadProfileImage(profileID, image);
      if repoErr.Some? {
        return false, repoErr;
      }
      return status, None;
    }
  }
}
