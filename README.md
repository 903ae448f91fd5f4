# n_users profile core in Dafny

n_users is a multi-tenant user-profile service. This project models the core behind its HTTP handlers:

- **The profile record.** `Entity.Profile` has a composite primary key `(tenant_id, profile_id)`. E-mail and mobile are unique across the whole store. The request records the handlers decode into are modelled too.
- **The repository.** `Repo.ProfileRepo` is a class holding the profile table as a sequence of rows. It runs the repository's five statements:
  - INSERT;
  - a DELETE scoped by tenant and id;
  - a SELECT scoped by tenant, with a caller predicate, ORDER BY, OFFSET and LIMIT;
  - an UPDATE scoped by key, with a column patch;
  - the image-upload placeholder.
- **The service.** `Controller.ProfileService` wraps the repository. It forwards every call unchanged. On failure it returns a fixed default together with the repository's own error.
- **The shared helpers.** `Commons.RemoveEmptyValues` drops, in place, the empty entries of a field map. `NewError` and `NewErrorJSON` build error bodies.
- **The mapper.** `Mappers.ToProfile` turns a create request into a record. The freshly generated UUID is a parameter.
- **The handler logic.** `Handler` holds the two pieces of handler logic that decide what reaches the service:
  - the default-tenant fallback;
  - the sparse patch an update request becomes.

The statements' observable contract is stated once, as functions in module `Table`. The repository's methods are proved equal to those functions, and properties of the functions are proved as lemmas:

- the map view after each statement;
- preservation of the key and uniqueness constraints;
- deleting twice;
- the insert-then-search and update-then-search round trips;
- the stable ORDER BY being sorted and a permutation;
- the page bounds.

How the model represents things:

- **Backend failure.** It is a parameter `up`; when it is false, every statement that reaches the backend fails with `Unavailable`. An update whose patch names no column is skipped before it reaches the backend.
- **Go's `(value, error)` pair.** It is `Table.Reply`.
- **`map[string]interface{}`.** It is `Commons.Fields`, over a closed `Value` type.
- **The search's SQL text.** It is abstracted:
  - the WHERE fragment is either a predicate on a row or `Malformed`, which the backend rejects;
  - the ORDER BY fragment is either an integer rank or `Unsorted`.

## Model

| member | source | states |
|---|---|---|
| Entity.KeyOf | entity/profile.go:7-8 | the primary key of a row is its tenant id and profile id |
| Commons.NonEmpty | entity/commons.go:30-49 | keeps exactly the entries that are not nil, "" or the zero time, each with its value, and adds no key |
| Commons.NonEmptyIdempotent | entity/commons.go:30-49 | removing empty entries twice is the same as removing them once |
| Commons.RemoveEmptyValues | entity/commons.go:30-49 | mutates the caller's map in place and returns that same map; afterwards it holds exactly the non-empty entries of the old map, unchanged, with no nil, no "" and no zero time left |
| Commons.NewError | entity/commons.go:19-21 | the error body carries the given message |
| Commons.NewErrorJSON | entity/commons.go:24-27 | the encoded error body carries the given message |
| Table.IndexOfKey | repo/profile.go:105-107 | finds the first row with the key, or reports that no row has it |
| Table.Lookup | entity/profile.go:7-8 | the row found has the key; nothing is found exactly when no row has the key |
| Table.LookupUnique | entity/profile.go:7-8 | in a table that keeps its constraints, looking up a row's key finds that row |
| Table.Filter | repo/profile.go:65 | a row is kept exactly when it is stored and the WHERE admits it; the kept rows stay in storage order; nothing is lost exactly when every row is admitted |
| Table.FilterNoClashes | repo/profile.go:63-73 | removing rows keeps the primary-key and unique constraints |
| Table.Violation | entity/profile.go:7-12 | names the primary key, then e-mail, then mobile as the broken constraint, each exactly when it is the first one a stored row clashes on; none exactly when every row is compatible |
| Table.Create | repo/profile.go:53-61 | succeeds exactly when the backend is up and the row clashes with no stored row on key, e-mail or mobile; then it appends exactly that row and reports its id; otherwise "" and an unchanged table; with the backend up, any clash is a constraint violation, and a duplicate key is the primary-key violation; the constraints are preserved |
| Table.Delete | repo/profile.go:63-73 | removes exactly the rows with both the given profile id and tenant id, the others keeping their storage order; reports true exactly when one existed; finding none is false with no error; an unreachable backend gives false, an error and an unchanged table; the constraints are preserved |
| Table.InsertByRankPermutes | repo/profile.go:82 | inserting into the ordered rows adds exactly that row |
| Table.InsertByRankSorted | repo/profile.go:82 | inserting by rank into rows ordered by rank keeps them ordered |
| Table.SortByRankCorrect | repo/profile.go:82 | ORDER BY returns the same rows, ordered by the sort key |
| Table.Skip | repo/profile.go:81 | OFFSET skips exactly the offset when it fits, none when it is zero or negative, and all rows when it reaches past the end |
| Table.Page | repo/profile.go:80-81 | the page is a contiguous run of rows starting after the skipped ones; its length is the limit or whatever rows remain; a negative limit puts no bound on it |
| Table.PageSorted | repo/profile.go:80-82 | OFFSET and LIMIT applied to rows ordered by the sort key leave them ordered |
| Table.PageOfOrdering | repo/profile.go:80-82 | OFFSET and LIMIT applied to the matches in their storage order, or to any rearrangement of them sorted by the key, give a page of the matches |
| Table.SearchPageCorrect | repo/profile.go:78-83 | the ordered rows are a permutation of the matches; each page row is a match; the page is sorted when there is a sort key; with no offset and no limit the page is all of them; the page is a page of the matches in the sense above |
| Table.Search | repo/profile.go:75-91 | succeeds exactly when the backend is up and the query is well-formed, otherwise no rows and the error; every row returned is stored, belongs to the tenant and satisfies the query; at most `limit` rows when limit is non-negative; sorted by the key when one is given; with no offset and no limit every matching row of the tenant is returned; on success the rows are exactly the run, after skipping `offset`, of `limit` rows (or all that remain) of the tenant's matching rows, in storage order without a sort key and in a sorted rearrangement of them with one |
| Table.ColumnValue | entity/profile.go:6-28 | exactly the twenty snake_case column names have a value, and each value fits its column's kind |
| Table.ApplyPatchKeeps | repo/profile.go:105-108 | a column the patch does not name keeps its value |
| Table.ApplyPatchSets | repo/profile.go:105-108 | a column the patch names takes the patch's value |
| Table.FilterKey | repo/profile.go:95-103 | the update is scoped by the filter's profile_id and tenant_id entries, an absent one being "" |
| Table.Update | repo/profile.go:93-116 | false and no change unless it succeeds; a patch naming no column is false without error whether or not the backend is up; otherwise `Unavailable` when the backend is down; `InvalidValue` for a patch value that does not fit its column; false without error for a key no row has; rows of other keys untouched; the keyed row becomes that row patched, with true, exactly when the patched row stays compatible with every row of another key, else a constraint violation; size and constraints preserved |
| Table.UpdateKeepsConstraints | repo/profile.go:105-108 | replacing one row by a row compatible with every row of another key keeps the constraints |
| Table.UploadProfileImage | repo/profile.go:118-120 | always false with a not-implemented error |
| Repo.ProfileRepo.constructor | repo/profile.go:43-46 | the model starts from an empty table, which keeps the constraints; every constrained table is reachable from it by inserts (`TableFacts.InsertAllRebuilds`) |
| Repo.ProfileRepo.Create | repo/profile.go:53-61 | updates the table and replies exactly as `Table.Create` does; keeps the constraints |
| Repo.ProfileRepo.Delete | repo/profile.go:63-73 | counts the affected rows and replies with "more than zero", as `Table.Delete` does; keeps the constraints |
| Repo.ProfileRepo.Search | repo/profile.go:75-91 | leaves the table alone and replies exactly as `Table.Search` does |
| Repo.ProfileRepo.Update | repo/profile.go:93-116 | builds the scoping record from the filter's string entries and then behaves exactly as `Table.Update`; keeps the constraints |
| Repo.ProfileRepo.UploadProfileImage | repo/profile.go:118-120 | always false with a not-implemented error, and nothing changes |
| Controller.ProfileService.constructor | controller/profile.go:23-26 | the service wraps the given repository |
| Controller.ProfileService.Create | controller/profile.go:28-41 | the repository's table change and error, passed through; the id on success, "" on failure |
| Controller.ProfileService.Delete | controller/profile.go:43-56 | the repository's table change and error, passed through; the status on success, false on failure |
| Controller.ProfileService.Search | controller/profile.go:58-71 | the repository's error, passed through; its rows on success, none on failure; every row returned is stored and belongs to the tenant |
| Controller.ProfileService.Update | controller/profile.go:73-84 | the repository's table change and error, passed through; the status on success, false on failure |
| Controller.ProfileService.UploadProfileImage | controller/profile.go:86-97 | always false with the repository's not-implemented error |
| Mappers.ToProfile | mappers/profile.go:8-27 | copies the ten request fields unchanged, marks the record active, puts it in the default tenant under the given UUID, and leaves the rest at their zero values with no deletion time |
| Mappers.ToProfileComplete | mappers/profile.go:11-13 | the mapped record has every required field exactly when the request has a name, an e-mail and a mobile |
| TableFacts.SameKeySameRow | entity/profile.go:7-8 | in a table that keeps its constraints, a key names at most one row |
| TableFacts.InsertAllRebuilds | repo/profile.go:53-61 | every table that keeps its constraints is what inserting its rows one by one, in order, into an empty table leaves |
| TableFacts.LookupAfterCreate | repo/profile.go:53-61 | after a successful insert the new row is found under its key and every other key sees what it saw before |
| TableFacts.LookupAfterDelete | repo/profile.go:63-73 | after a delete the key is absent and every other key sees what it saw before |
| TableFacts.UpdateRows | repo/profile.go:105-108 | an update changes at most the row with the filter's key, into that row patched, and only when it reports true |
| TableFacts.ReplaceRowLookup | repo/profile.go:105-108 | replacing one row of a constrained table vacates its old key and leaves every other key's lookup as it was |
| TableFacts.LookupAfterUpdate | repo/profile.go:93-116 | after a successful update the patched row is found under its key, a key it moved away from is vacated, and every other key sees what it saw before |
| TableFacts.DeleteTrueOnce | repo/profile.go:72 | deleting an existing row reports true; deleting it again reports false, not an error |
| TableFacts.UnboundedSearchOfOne | repo/profile.go:78-83 | a search with no offset and no limit whose WHERE admits exactly one row returns that row alone |
| TableFacts.CreateThenSearchByEmail | repo/profile.go:75-91 | after an insert, searching its tenant for its e-mail with no limit and no offset returns exactly that row |
| TableFacts.DuplicateEmailRejected | entity/profile.go:11 | a second insert with a stored e-mail fails and changes nothing, in any tenant; with a fresh key the error is the e-mail constraint |
| TableFacts.DuplicateMobileRejected | entity/profile.go:12 | a second insert with a stored mobile fails and changes nothing, in any tenant; when neither its key nor its e-mail is taken the error is the mobile constraint |
| TableFacts.UpdateThenSearchSeesPatch | repo/profile.go:93-116 | renaming row "101" of the default tenant reports true, and searching for it afterwards returns it with the new name |
| Handler.TenantOrDefault | handler/profile.go:94-97 | the `ntenant` header when it is non-empty, otherwise the default tenant; never empty |
| Handler.CreateRecord | handler/profile.go:99-100 | the mapped request, active, under the generated id, in the request's tenant; every other field is exactly as the mapper set it |
| Handler.UpdateFilter | handler/profile.go:159 | the update filter holds strings and scopes by the URL id and the request's tenant |
| Handler.UpdatePatch | handler/profile.go:161-170 | the patch names only the six updatable columns and holds no empty value |
| Handler.UpdatePatchWellTyped | handler/profile.go:161-170 | every entry of the patch fits its column |
| Handler.UpdatePatchEntries | handler/profile.go:161-170 | each of the six fields is in the patch, with its own value, exactly when the request's field is non-empty |
| Handler.SparsePatchKeepsRequired | entity/profile.go:7-12 | a patch without empty values cannot blank a required field |
| Handler.SparseUpdateKeepsRows | repo/profile.go:105-108 | an update whose patch has no empty value and names neither key column nor the deletion time keeps every row's required fields, key and deletion time |
| Handler.UpdateRequestKeepsRows | handler/profile.go:159-171 | an update request never blanks a required field, never re-keys a row and never sets its deletion time |
| Handler.EmptyUpdateRequestIsNoop | handler/profile.go:170-171 | an update request whose fields are all empty is reported as false, not as an error, and changes nothing, whatever the backend's state |

## Left out

- The ORM behaviour:
  - the `gorm` struct tags are taken as declared: a composite primary key on `(tenant_id, profile_id)` and unique `email_id` and `mobile`;
  - the ORM version the repository imports spells the primary-key tag differently, so its automatic migration may not create that key;
  - the migration itself is not modelled.
- Table.Delete: removes the matched rows outright. The record's nullable `DeletedAt` lets the ORM soft-delete instead, which means:
  - a soft-deleted row stays in the table and keeps holding its key, e-mail and mobile under the database's constraints;
  - searches and updates skip such rows.

  Who can reuse a deleted row's e-mail or key is therefore not captured.
- The ORM's update callbacks are not part of this model. Table.Update takes from them only that a patch naming no column skips the statement, with no error and no rows affected.
- Table.Update: does not set `updated_at` to the clock. The ORM does this on every update of a map patch.
- Table.Create: stores the record exactly as given, its `created_at` and `updated_at` included. The ORM tries to fill these in, but the record reaches it by value, so that most likely has no effect; the ORM's create callbacks are not part of this model.
- The ORM's value conversion for patch entries is reduced to a kind check per column (`InvalidValue`). Patch entries that name no column are ignored rather than reported. A column is named only by its snake_case name, which is the only form the handlers send; the ORM also accepts the Go field name and its camel-case form (`FullName`, `fullName`), which the model treats as naming no column.
- Table.Search: the SQL text of the WHERE and ORDER BY fragments is not parsed. A query is a predicate on a row or is `Malformed`, and a sort key is an integer rank.
  - The model assumes the WHERE fragment is one self-contained predicate, so that the tenant condition the repository adds always applies. The source pastes the caller's text into the statement unescaped (repo/profile.go:78-79). A fragment that closes its own parenthesis and adds an OR branch, such as `1=1) OR (1=1`, or one that comments out the rest of the statement, returns rows of every tenant. The tenant-scope promises of `Table.Search` and `Controller.ProfileService.Search` hold only for self-contained fragments.
  - The order the backend returns without ORDER BY is taken to be storage order.
  - Ties under ORDER BY keep storage order.
  - A malformed ORDER BY is not modelled.
  - Go's nil slice and empty slice are not distinguished.
- `Profile.Latitude` and `Longitude` are carried as real numbers. No floating-point arithmetic happens on them.
- Time is an integer count with the zero time as 0. Time zones and monotonic readings are not modelled.
- `Commons.NewErrorJSON` returns the error body rather than its JSON bytes. The byte encoding is not modelled, and neither is its (always nil) error.
- Repo.ProfileRepo.Update: requires the filter's `profile_id` and `tenant_id` entries, when present, to be strings. The Go type assertion panics otherwise, and that panic is not modelled.
- The logging calls, the database connection and its pool settings, `SafeClose`, and the S3 gateway are not part of this model.
- The JSON decoding and routing of the HTTP handlers are not part of this model. The same goes for the records `CreateProfileResponse`, `SearchProfileRequest` and `SuccessResponse` that only they use.
- The `validate:"required"` tags are enforced by no code path. They appear only as the predicate `HasRequiredFields`. `CreateProfileRequest.Mobile` carries no such tag while the stored record's `Mobile` does. `Mappers.ToProfileComplete` makes that gap explicit.
- The UUID generator is a parameter of `Mappers.ToProfile`. Only the length of its text form is constrained.
- Mutual exclusion between concurrent requests is not modelled. Each statement is taken as atomic.
