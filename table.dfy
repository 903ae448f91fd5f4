/**
 * The observable contract of the profile table behind the repository: the
 * rows it holds, the constraints the schema declares, and what each of the
 * repository's statements (INSERT, the tenant-scoped DELETE, the
 * tenant-scoped SELECT with order/offset/limit, the key-scoped UPDATE with a
 * column patch) does to them and reports back.
 *
 * The table is a sequence of rows in storage order; `Lookup` is its view as a
 * map keyed by `(tenant_id, profile_id)`.
 */
module Table {
  import opened Entity
  import opened Commons

  /** The schema constraint an insert or update would break. */
  datatype Constraint = PrimaryKey | UniqueEmail | UniqueMobile

  datatype DbError =
    | ConstraintViolation(constraint: Constraint)
    | InvalidQuery      // the search predicate cannot be evaluated
    | InvalidValue      // a patch value does not fit its column
    | Unavailable       // the backend cannot be reached
    | NotImplemented

  /** Go's `(value, error)` result pair. */
  datatype Reply<T> = Reply(value: T, err: Option<DbError>)

  /** A reply together with the table after the statement. */
  datatype Step<T> = Step(reply: Reply<T>, rows: seq<Profile>)

  // ---------------------------------------------------------------------------
  // The map view

  /** The position of the first row with key `k`. */
  function IndexOfKey(rows: seq<Profile>, k: Key): (r: Option<nat>)
    ensures r.Some? ==> r.value < |rows| && KeyOf(rows[r.value]) == k
    ensures r.Some? ==> forall j | 0 <= j < r.value :: KeyOf(rows[j]) != k
    ensures r.None? ==> forall j | 0 <= j < |rows| :: KeyOf(rows[j]) != k
  {
    if rows == [] then None
    else if KeyOf(rows[0]) == k then Some(0)
    else match IndexOfKey(rows[1..], k)
      case None => None
      case Some(i) => Some(i + 1)
  }

  /** The row stored under key `k`, if any. */
  function Lookup(rows: seq<Profile>, k: Key): (r: Option<Profile>)
    ensures r.Some? ==> r.value in rows && KeyOf(r.value) == k
    ensures r.None? <==> forall x | x in rows :: KeyOf(x) != k
  {
    match IndexOfKey(rows, k)
    case None => None
    case Some(i) => Some(rows[i])
  }

  /** In a table that keeps its constraints, the row with a given key is unique. */
  lemma LookupUnique(rows: seq<Profile>, x: Profile)
    requires NoClashes(rows)
    requires x in rows
    ensures Lookup(rows, KeyOf(x)) == Some(x)
  {
  }

  // ---------------------------------------------------------------------------
  // Filtering rows (the WHERE clause of DELETE and SELECT)

  /** `r` is `s` with some of its rows left out, the others kept in their order. */
  predicate SubsequenceOf(r: seq<Profile>, s: seq<Profile>)
    decreases |s|
  {
    if r == [] then true
    else if s == [] then false
    else (r[0] == s[0] && SubsequenceOf(r[1..], s[1..])) || SubsequenceOf(r, s[1..])
  }

  /** The rows `keep` admits, in storage order. */
  function Filter(rows: seq<Profile>, keep: Profile -> bool): (r: seq<Profile>)
    ensures |r| <= |rows|
    ensures forall x :: x in r <==> x in rows && keep(x)
    ensures |r| == |rows| <==> forall x | x in rows :: keep(x)
    ensures SubsequenceOf(r, rows)
  {
    if rows == [] then []
    else
      var rest := Filter(rows[1..], keep);
      if keep(rows[0]) then
        assert ([rows[0]] + rest)[1..] == rest;
        [rows[0]] + rest
      else rest
  }

  /** Leaving out no row is a subsequence. */
  lemma {:induction false} SubsequenceOfSelf(s: seq<Profile>)
    ensures SubsequenceOf(s, s)
  {
    if s != [] {
      SubsequenceOfSelf(s[1..]);
    }
  }

  /** A table that keeps its constraints still keeps them after rows are removed. */
  lemma {:induction false} FilterNoClashes(rows: seq<Profile>, keep: Profile -> bool)
    ensures NoClashes(rows) ==> NoClashes(Filter(rows, keep))
  {
    if rows != [] && NoClashes(rows) {
      var tail := rows[1..];
      TailNoClashes(rows);
      FilterNoClashes(tail, keep);
      var rest := Filter(tail, keep);
      if keep(rows[0]) {
        forall y | y in rest ensures Compatible(rows[0], y) && Compatible(y, rows[0]) {
          var k :| 0 <= k < |tail| && tail[k] == y;
          assert rows[k + 1] == y;
        }
        ConsNoClashes(rows[0], rest);
      }
    }
  }

  lemma TailNoClashes(rows: seq<Profile>)
    requires rows != [] && NoClashes(rows)
    ensures NoClashes(rows[1..])
  {
  }

  lemma ConsNoClashes(a: Profile, t: seq<Profile>)
    requires NoClashes(t)
    requires forall y | y in t :: Compatible(a, y) && Compatible(y, a)
    ensures NoClashes([a] + t)
  {
  }

  // ---------------------------------------------------------------------------
  // INSERT

  /** The first constraint that inserting `p` beside `rows` would break. */
  function Violation(rows: seq<Profile>, p: Profile): (v: Option<Constraint>)
    ensures v.None? <==> forall x | x in rows :: Compatible(x, p)
    ensures v == Some(PrimaryKey) <==> exists x | x in rows :: KeyOf(x) == KeyOf(p)
    ensures v == Some(UniqueEmail) <==>
              (forall x | x in rows :: KeyOf(x) != KeyOf(p)) && exists x | x in rows :: x.emailID == p.emailID
    ensures v == Some(UniqueMobile) <==>
              (forall x | x in rows :: KeyOf(x) != KeyOf(p) && x.emailID != p.emailID) &&
              exists x | x in rows :: x.mobile == p.mobile
  {
    if exists x | x in rows :: KeyOf(x) == KeyOf(p) then Some(PrimaryKey)
    else if exists x | x in rows :: x.emailID == p.emailID then Some(UniqueEmail)
    else if exists x | x in rows :: x.mobile == p.mobile then Some(UniqueMobile)
    else None
  }

  /**
   * Inserting one row: on success exactly `p` is appended and its id is
   * reported; on failure the table is unchanged and the id is empty.
   */
  function Create(rows: seq<Profile>, p: Profile, up: bool): (s: Step<string>)
    ensures s.reply.err.None? <==> up && forall x | x in rows :: Compatible(x, p)
    ensures s.reply.err.None? ==> s.reply.value == p.profileID && s.rows == rows + [p]
    ensures s.reply.err.Some? ==> s.reply.value == "" && s.rows == rows
    ensures !up ==> s.reply.err == Some(Unavailable)
    ensures up && (exists x | x in rows :: KeyOf(x) == KeyOf(p)) ==>
              s.reply.err == Some(ConstraintViolation(PrimaryKey))
    ensures up && !(forall x | x in rows :: Compatible(x, p)) ==>
              s.reply.err.Some? && s.reply.err.value.ConstraintViolation?
    ensures NoClashes(rows) ==> NoClashes(s.rows)
  {
    if !up then Step(Reply("", Some(Unavailable)), rows)
    else match Violation(rows, p)
      case Some(c) => Step(Reply("", Some(ConstraintViolation(c))), rows)
      case None => Step(Reply(p.profileID, None), rows + [p])
  }

  // ---------------------------------------------------------------------------
  // DELETE ... WHERE profile_id = ? AND tenant_id = ?

  /** The rows a DELETE leaves: those not matching both `profile_id` and `tenant_id`. */
  function Unmatched(profileID: string, tenantID: string): Profile -> bool
  {
    (x: Profile) => !(x.profileID == profileID && x.tenantID == tenantID)
  }

  /**
   * Removes the rows whose key is exactly `(tenantID, profileID)` and reports
   * whether any row went; finding none is `false`, not an error.
   */
  function Delete(rows: seq<Profile>, profileID: string, tenantID: string, up: bool): (s: Step<bool>)
    ensures !up ==> s == Step(Reply(false, Some(Unavailable)), rows)
    ensures up ==> s.reply.err.None?
    ensures up ==> (s.reply.value <==> exists x | x in rows :: KeyOf(x) == Key(tenantID, profileID))
    ensures forall x :: x in s.rows <==> x in rows && (!up || KeyOf(x) != Key(tenantID, profileID))
    ensures |s.rows| <= |rows|
    ensures SubsequenceOf(s.rows, rows)
    ensures NoClashes(rows) ==> NoClashes(s.rows)
  {
    if !up then
      SubsequenceOfSelf(rows);
      Step(Reply(false, Some(Unavailable)), rows)
    else
      var kept := Filter(rows, Unmatched(profileID, tenantID));
      FilterNoClashes(rows, Unmatched(profileID, tenantID));
      Step(Reply(|rows| - |kept| > 0, None), kept)
  }

  // ---------------------------------------------------------------------------
  // SELECT ... WHERE <query> AND tenant_id = ? ORDER BY <sortBy> LIMIT ? OFFSET ?

  /** A caller-supplied WHERE predicate; `Malformed` is one the backend rejects. */
  datatype Query = Malformed | Where(holds: Profile -> bool)

  /** A caller-supplied ORDER BY, as an integer sort key; `Unsorted` keeps storage order. */
  datatype SortBy = Unsorted | By(rank: Profile -> int)

  /** The WHERE of a search: the caller's predicate, always conjoined with the tenant. */
  function Matching(holds: Profile -> bool, tenantID: string): Profile -> bool
  {
    (x: Profile) => holds(x) && x.tenantID == tenantID
  }

  predicate Admits(q: Query, x: Profile)
  {
    q.Where? && q.holds(x)
  }

  ghost predicate SortedBy(s: seq<Profile>, rank: Profile -> int)
  {
    forall i, j | 0 <= i < j < |s| :: rank(s[i]) <= rank(s[j])
  }

  /** Inserts `x` before the first row that does not rank below it. */
  function InsertByRank(x: Profile, s: seq<Profile>, rank: Profile -> int): seq<Profile>
  {
    if s == [] then [x]
    else if rank(x) <= rank(s[0]) then [x] + s
    else [s[0]] + InsertByRank(x, s[1..], rank)
  }

  /** A stable insertion sort on the rank. */
  function SortByRank(s: seq<Profile>, rank: Profile -> int): seq<Profile>
  {
    if s == [] then [] else InsertByRank(s[0], SortByRank(s[1..], rank), rank)
  }

  lemma {:induction false} InsertByRankPermutes(x: Profile, s: seq<Profile>, rank: Profile -> int)
    ensures multiset(InsertByRank(x, s, rank)) == multiset(s) + multiset{x}
  {
    if s != [] {
      assert s == [s[0]] + s[1..];
      InsertByRankPermutes(x, s[1..], rank);
    }
  }

  /** Putting a row that ranks no higher than any of them before ordered rows keeps them ordered. */
  lemma SortedCons(a: Profile, s: seq<Profile>, rank: Profile -> int)
    requires SortedBy(s, rank)
    requires forall y | y in s :: rank(a) <= rank(y)
    ensures SortedBy([a] + s, rank)
  {
  }

  lemma SortedTail(s: seq<Profile>, rank: Profile -> int)
    requires s != [] && SortedBy(s, rank)
    ensures SortedBy(s[1..], rank)
    ensures forall y | y in s[1..] :: rank(s[0]) <= rank(y)
  {
  }

  lemma {:induction false} InsertByRankSorted(x: Profile, s: seq<Profile>, rank: Profile -> int)
    requires SortedBy(s, rank)
    ensures SortedBy(InsertByRank(x, s, rank), rank)
  {
    if s == [] {
    } else if rank(x) <= rank(s[0]) {
      SortedTail(s, rank);
      assert s == [s[0]] + s[1..];
      SortedCons(x, s, rank);
    } else {
      var tail := s[1..];
      SortedTail(s, rank);
      InsertByRankSorted(x, tail, rank);
      InsertByRankPermutes(x, tail, rank);
      var ins := InsertByRank(x, tail, rank);
      forall y | y in ins ensures rank(s[0]) <= rank(y) {
        assert y in multiset(ins);
        if y != x {
          assert y in multiset(tail);
        }
      }
      SortedCons(s[0], ins, rank);
    }
  }

  /** Sorting yields the same rows, ordered by rank. */
  lemma {:induction false} SortByRankCorrect(s: seq<Profile>, rank: Profile -> int)
    ensures SortedBy(SortByRank(s, rank), rank)
    ensures multiset(SortByRank(s, rank)) == multiset(s)
  {
    if s != [] {
      SortByRankCorrect(s[1..], rank);
      InsertByRankSorted(s[0], SortByRank(s[1..], rank), rank);
      InsertByRankPermutes(s[0], SortByRank(s[1..], rank), rank);
      assert s == [s[0]] + s[1..];
    }
  }

  /** How many leading rows OFFSET skips; a negative offset skips none. */
  function Skip(offset: int, n: nat): (k: nat)
    ensures k <= n
    ensures 0 <= offset <= n ==> k == offset
    ensures offset <= 0 ==> k == 0
    ensures n <= offset ==> k == n
  {
    if offset <= 0 then 0 else if offset < n then offset else n
  }

  /** OFFSET then LIMIT; a negative limit puts no bound on the page. */
  function Page(s: seq<Profile>, offset: int, limit: int): (r: seq<Profile>)
    ensures 0 <= limit ==> |r| <= limit
    ensures limit < 0 ==> |r| == |s| - Skip(offset, |s|)
    ensures 0 <= limit ==> |r| == if limit < |s| - Skip(offset, |s|) then limit else |s| - Skip(offset, |s|)
    ensures r == s[Skip(offset, |s|)..Skip(offset, |s|) + |r|]
  {
    var rest := s[Skip(offset, |s|)..];
    if 0 <= limit < |rest| then rest[..limit] else rest
  }

  /**
   * `page` is what OFFSET and LIMIT leave of some ordering of `matches`: the
   * matches themselves when there is no sort key, otherwise a rearrangement of
   * them sorted by the key. The page starts after the skipped rows, runs
   * contiguously, and holds `limit` rows or all that remain.
   */
  ghost predicate IsPageOf(page: seq<Profile>, matches: seq<Profile>, sortBy: SortBy, offset: int, limit: int)
  {
    var m := |matches|;
    exists ordered: seq<Profile> | multiset(ordered) == multiset(matches) ::
      (sortBy.Unsorted? ==> ordered == matches) &&
      (sortBy.By? ==> SortedBy(ordered, sortBy.rank)) &&
      |ordered| == m &&
      |page| == (if 0 <= limit < m - Skip(offset, m) then limit else m - Skip(offset, m)) &&
      page == ordered[Skip(offset, m)..Skip(offset, m) + |page|]
  }

  /**
   * The tenant-scoped search: the rows of `tenantID` that `query` admits, in
   * `sortBy` order, after skipping `offset` of them, at most `limit` of them.
   */
  function Search(rows: seq<Profile>, query: Query, limit: int, offset: int, sortBy: SortBy,
                  tenantID: string, up: bool): (r: Reply<seq<Profile>>)
    ensures r.err.None? <==> up && query.Where?
    ensures !up ==> r.err == Some(Unavailable)
    ensures up && query.Malformed? ==> r.err == Some(InvalidQuery)
    ensures r.err.Some? ==> r.value == []
    ensures forall x | x in r.value :: x in rows && x.tenantID == tenantID && Admits(query, x)
    ensures 0 <= limit ==> |r.value| <= limit
    ensures sortBy.By? ==> SortedBy(r.value, sortBy.rank)
    ensures r.err.None? && offset <= 0 && limit < 0 ==>
              forall x | x in rows && x.tenantID == tenantID && Admits(query, x) :: x in r.value
    ensures up && query.Where? ==>
              IsPageOf(r.value, Filter(rows, Matching(query.holds, tenantID)), sortBy, offset, limit)
  {
    if !up then Reply([], Some(Unavailable))
    else if query.Malformed? then Reply([], Some(InvalidQuery))
    else
      var matches := Filter(rows, Matching(query.holds, tenantID));
      var ordered := if sortBy.By? then SortByRank(matches, sortBy.rank) else matches;
      var page := Page(ordered, offset, limit);
      SearchPageCorrect(matches, ordered, sortBy, offset, limit);
      Reply(page, None)
  }

  /** A page of rows ordered by rank is itself ordered by rank. */
  lemma PageSorted(ordered: seq<Profile>, offset: int, limit: int, rank: Profile -> int)
    requires SortedBy(ordered, rank)
    ensures SortedBy(Page(ordered, offset, limit), rank)
  {
  }

  /** OFFSET and LIMIT applied to an admissible ordering of the matches give a page of them. */
  lemma PageOfOrdering(matches: seq<Profile>, ordered: seq<Profile>, sortBy: SortBy, offset: int, limit: int)
    requires multiset(ordered) == multiset(matches)
    requires sortBy.Unsorted? ==> ordered == matches
    requires sortBy.By? ==> SortedBy(ordered, sortBy.rank)
    ensures IsPageOf(Page(ordered, offset, limit), matches, sortBy, offset, limit)
  {
  }

  /** The search's ORDER BY keeps the matching rows, and its page holds only matching rows. */
  lemma SearchPageCorrect(matches: seq<Profile>, ordered: seq<Profile>, sortBy: SortBy, offset: int, limit: int)
    requires ordered == if sortBy.By? then SortByRank(matches, sortBy.rank) else matches
    ensures multiset(ordered) == multiset(matches)
    ensures forall x | x in Page(ordered, offset, limit) :: x in matches
    ensures forall x | x in matches :: x in ordered
    ensures sortBy.By? ==> SortedBy(Page(ordered, offset, limit), sortBy.rank)
    ensures offset <= 0 && limit < 0 ==> Page(ordered, offset, limit) == ordered
    ensures IsPageOf(Page(ordered, offset, limit), matches, sortBy, offset, limit)
  {
    if sortBy.By? {
      SortByRankCorrect(matches, sortBy.rank);
      PageSorted(ordered, offset, limit, sortBy.rank);
    }
    PageOfOrdering(matches, ordered, sortBy, offset, limit);
    var page := Page(ordered, offset, limit);
    forall x | x in page ensures x in matches {
      assert x in multiset(ordered);
    }
    forall x | x in matches ensures x in ordered {
      assert x in multiset(matches);
    }
  }

  // ---------------------------------------------------------------------------
  // UPDATE ... SET <patch> WHERE profile_id = ? AND tenant_id = ?

  /** The kind of value a column holds. */
  datatype Kind = Text | Instant | Coordinate | Flag | NullableInstant

  /** The columns of the profile table, by name, and the kind each holds. */
  function ColumnKind(name: string): Option<Kind>
  {
    if name in {"tenant_id", "profile_id", "full_name", "gender", "email_id", "mobile",
                "city_id", "country_id", "address", "profile_image_url",
                "created_by", "updated_by", "deleted_by"} then Some(Text)
    else if name in {"birth_date", "created_at", "updated_at"} then Some(Instant)
    else if name in {"latitude", "longitude"} then Some(Coordinate)
    else if name == "active" then Some(Flag)
    else if name == "deleted_at" then Some(NullableInstant)
    else None
  }

  predicate IsColumn(name: string)
  {
    ColumnKind(name).Some?
  }

  predicate Accepts(kind: Kind, v: Value)
  {
    match kind
    case Text => v.Str?
    case Instant => v.Stamp?
    case Coordinate => v.Float?
    case Flag => v.Bool?
    case NullableInstant => v.Nil? || v.Stamp?
  }

  /** Every entry naming a column carries a value that column can hold. */
  predicate WellTyped(patch: Fields)
  {
    forall c | c in patch && IsColumn(c) :: Accepts(ColumnKind(c).value, patch[c])
  }

  /**
   * Some entry names a column; otherwise there is nothing to SET, and the
   * statement is skipped before it reaches the backend.
   */
  predicate NamesColumn(patch: Fields)
  {
    exists c | c in patch :: IsColumn(c)
  }

  /** The value stored in column `name` of `p`. */
  function ColumnValue(p: Profile, name: string): (r: Option<Value>)
    ensures r.Some? <==> IsColumn(name)
    ensures r.Some? ==> Accepts(ColumnKind(name).value, r.value)
  {
    if name == "tenant_id" then Some(Str(p.tenantID))
    else if name == "profile_id" then Some(Str(p.profileID))
    else if name == "full_name" then Some(Str(p.fullName))
    else if name == "gender" then Some(Str(p.gender))
    else if name == "email_id" then Some(Str(p.emailID))
    else if name == "mobile" then Some(Str(p.mobile))
    else if name == "birth_date" then Some(Stamp(p.birthDate))
    else if name == "city_id" then Some(Str(p.cityID))
    else if name == "country_id" then Some(Str(p.countryID))
    else if name == "address" then Some(Str(p.address))
    else if name == "latitude" then Some(Float(p.latitude))
    else if name == "longitude" then Some(Float(p.longitude))
    else if name == "profile_image_url" then Some(Str(p.profileImageURL))
    else if name == "active" then Some(Bool(p.active))
    else if name == "created_by" then Some(Str(p.createdBy))
    else if name == "created_at" then Some(Stamp(p.createdAt))
    else if name == "updated_by" then Some(Str(p.updatedBy))
    else if name == "updated_at" then Some(Stamp(p.updatedAt))
    else if name == "deleted_by" then Some(Str(p.deletedBy))
    else if name == "deleted_at" then Some(if p.deletedAt.Some? then Stamp(p.deletedAt.value) else Nil)
    else None
  }

  function TextOr(patch: Fields, c: string, current: string): string
  {
    if c in patch && patch[c].Str? then patch[c].s else current
  }

  function StampOr(patch: Fields, c: string, current: Time): Time
  {
    if c in patch && patch[c].Stamp? then patch[c].t else current
  }

  function FloatOr(patch: Fields, c: string, current: Float64): Float64
  {
    if c in patch && patch[c].Float? then patch[c].f else current
  }

  function FlagOr(patch: Fields, c: string, current: bool): bool
  {
    if c in patch && patch[c].Bool? then patch[c].b else current
  }

  function NullableStampOr(patch: Fields, c: string, current: Option<Time>): Option<Time>
  {
    if c !in patch then current
    else match patch[c]
      case Nil => None
      case Stamp(t) => Some(t)
      case _ => current
  }

  /**
   * The row after `SET` of a well-typed patch: every column the patch names
   * takes the patch's value, every other column keeps its own.
   */
  function ApplyPatch(p: Profile, patch: Fields): (r: Profile)
  {
    Profile(
      TextOr(patch, "tenant_id", p.tenantID),
      TextOr(patch, "profile_id", p.profileID),
      TextOr(patch, "full_name", p.fullName),
      TextOr(patch, "gender", p.gender),
      TextOr(patch, "email_id", p.emailID),
      TextOr(patch, "mobile", p.mobile),
      StampOr(patch, "birth_date", p.birthDate),
      TextOr(patch, "city_id", p.cityID),
      TextOr(patch, "country_id", p.countryID),
      TextOr(patch, "address", p.address),
      FloatOr(patch, "latitude", p.latitude),
      FloatOr(patch, "longitude", p.longitude),
      TextOr(patch, "profile_image_url", p.profileImageURL),
      FlagOr(patch, "active", p.active),
      TextOr(patch, "created_by", p.createdBy),
      StampOr(patch, "created_at", p.createdAt),
      TextOr(patch, "updated_by", p.updatedBy),
      StampOr(patch, "updated_at", p.updatedAt),
      TextOr(patch, "deleted_by", p.deletedBy),
      NullableStampOr(patch, "deleted_at", p.deletedAt))
  }

  /** A column the patch does not name keeps its value. */
  lemma ApplyPatchKeeps(p: Profile, patch: Fields, c: string)
    requires c !in patch
    ensures ColumnValue(ApplyPatch(p, patch), c) == ColumnValue(p, c)
  {
  }

  /** A column the patch names takes the patch's value. */
  lemma ApplyPatchSets(p: Profile, patch: Fields, c: string)
    requires WellTyped(patch) && c in patch && IsColumn(c)
    ensures ColumnValue(ApplyPatch(p, patch), c) == Some(patch[c])
  {
  }

  /** The rows an update of the row keyed `k` must stay compatible with. */
  function OtherKeys(k: Key): Profile -> bool
  {
    (x: Profile) => KeyOf(x) != k
  }

  /** The Go code asserts that present `profile_id`/`tenant_id` filters are strings (it panics otherwise). */
  predicate FilterStrings(filters: Fields)
  {
    ("profile_id" in filters ==> filters["profile_id"].Str?) &&
    ("tenant_id" in filters ==> filters["tenant_id"].Str?)
  }

  /**
   * The key an update is scoped to: only the `profile_id` and `tenant_id`
   * entries of the filter count, and an absent one matches as "".
   */
  function FilterKey(filters: Fields): (k: Key)
    requires FilterStrings(filters)
    ensures k.profileID == if "profile_id" in filters then filters["profile_id"].s else ""
    ensures k.tenantID == if "tenant_id" in filters then filters["tenant_id"].s else ""
  {
    Key(if "tenant_id" in filters then filters["tenant_id"].s else "",
        if "profile_id" in filters then filters["profile_id"].s else "")
  }

  /**
   * Patches the single row the filter's key picks out. It reports `true` only
   * when that row exists, the patch names some column, and the patched row
   * still keeps the table's constraints; every other row is left as it was.
   */
  function Update(rows: seq<Profile>, filters: Fields, patch: Fields, up: bool): (s: Step<bool>)
    requires NoClashes(rows)
    requires FilterStrings(filters)
    ensures |s.rows| == |rows| && NoClashes(s.rows)
    ensures !s.reply.value ==> s.rows == rows
    ensures s.reply.err.Some? ==> !s.reply.value
    ensures !NamesColumn(patch) ==> s.reply == Reply(false, None)
    ensures !up && NamesColumn(patch) ==> s.reply.err == Some(Unavailable)
    ensures up && !WellTyped(patch) ==> s.reply.err == Some(InvalidValue)
    ensures up && WellTyped(patch) && Lookup(rows, FilterKey(filters)).None? ==> s.reply == Reply(false, None)
    ensures forall j | 0 <= j < |rows| && KeyOf(rows[j]) != FilterKey(filters) :: s.rows[j] == rows[j]
    ensures up && WellTyped(patch) && NamesColumn(patch) ==>
              forall j | 0 <= j < |rows| && KeyOf(rows[j]) == FilterKey(filters) ::
                var patched := ApplyPatch(rows[j], patch);
                if forall x | x in rows && KeyOf(x) != FilterKey(filters) :: Compatible(x, patched)
                then s.reply == Reply(true, None) && s.rows[j] == patched
                else s.reply.err.Some? && s.reply.err.value.ConstraintViolation?
  {
    var key := FilterKey(filters);
    if !NamesColumn(patch) then Step(Reply(false, None), rows)
    else if !up then Step(Reply(false, Some(Unavailable)), rows)
    else if !WellTyped(patch) then Step(Reply(false, Some(InvalidValue)), rows)
    else match IndexOfKey(rows, key)
      case None => Step(Reply(false, None), rows)
      case Some(i) =>
        var patched := ApplyPatch(rows[i], patch);
        var others := Filter(rows, OtherKeys(key));
        match Violation(others, patched)
        case Some(c) => Step(Reply(false, Some(ConstraintViolation(c))), rows)
        case None =>
          UpdateKeepsConstraints(rows, i, patched);
          Step(Reply(true, None), rows[i := patched])
  }

  /** Replacing the row at `i` by one compatible with all rows of other keys keeps the constraints. */
  lemma UpdateKeepsConstraints(rows: seq<Profile>, i: nat, patched: Profile)
    requires NoClashes(rows)
    requires i < |rows|
    requires forall x | x in rows && KeyOf(x) != KeyOf(rows[i]) :: Compatible(x, patched)
    ensures NoClashes(rows[i := patched])
  {
  }

  // ---------------------------------------------------------------------------
  // The placeholder image upload

  /** Never touches the table and always fails. */
  function UploadProfileImage(profileID: string, image: seq<bv8>): (r: Reply<bool>)
    ensures !r.value && r.err == Some(NotImplemented)
  {
    Reply(false, Some(NotImplemented))
  }
}
