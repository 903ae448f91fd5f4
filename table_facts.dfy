/**
 * Properties of the profile table that relate several statements: the map
 * view after each change, deleting twice, the insert-then-search round trip,
 * store-wide e-mail uniqueness and the update-then-search scenario.
 */
module TableFacts {
  import opened Entity
  import opened Commons
  import opened Table

  /** In a constrained table a key names at most one row. */
  lemma SameKeySameRow(rows: seq<Profile>, a: Profile, b: Profile)
    requires NoClashes(rows) && a in rows && b in rows
    requires KeyOf(a) == KeyOf(b)
    ensures a == b
  {
  }

  /** A filter that admits exactly one row of a constrained table yields that row alone. */
  lemma {:induction false} FilterSingle(rows: seq<Profile>, keep: Profile -> bool, x: Profile)
    requires NoClashes(rows)
    requires x in rows && keep(x)
    requires forall y | y in rows && keep(y) :: y == x
    ensures Filter(rows, keep) == [x]
  {
    var tail := rows[1..];
    TailNoClashes(rows);
    if rows[0] == x {
      var rest := Filter(tail, keep);
      if rest != [] {
        assert rest[0] in tail;
      }
    } else {
      assert x in tail;
      FilterSingle(tail, keep, x);
    }
  }

  // ---------------------------------------------------------------------------
  // The map view after each statement

  /** After a successful insert, the new row is found under its key and no other key changes. */
  lemma LookupAfterCreate(rows: seq<Profile>, p: Profile)
    requires NoClashes(rows)
    requires Create(rows, p, true).reply.err.None?
    ensures Lookup(Create(rows, p, true).rows, KeyOf(p)) == Some(p)
    ensures forall k | k != KeyOf(p) :: Lookup(Create(rows, p, true).rows, k) == Lookup(rows, k)
  {
  }

  /** After a delete, the deleted key is absent and every other key is as before. */
  lemma LookupAfterDelete(rows: seq<Profile>, profileID: string, tenantID: string)
    requires NoClashes(rows)
    ensures forall k :: Lookup(Delete(rows, profileID, tenantID, true).rows, k) ==
                          if k == Key(tenantID, profileID) then None else Lookup(rows, k)
  {
  }

  /** An update replaces at most the one row its key picks out, by that row patched. */
  lemma UpdateRows(rows: seq<Profile>, filters: Fields, patch: Fields, up: bool)
    requires NoClashes(rows) && FilterStrings(filters)
    ensures var s := Update(rows, filters, patch, up);
      forall j | 0 <= j < |rows| ::
        s.rows[j] == rows[j] ||
        (s.reply.value && KeyOf(rows[j]) == FilterKey(filters) && s.rows[j] == ApplyPatch(rows[j], patch))
  {
  }

  /**
   * After a successful update, the patched row is found under its (possibly
   * new) key, the old key is vacated if the key changed, and no other key changes.
   */
  lemma LookupAfterUpdate(rows: seq<Profile>, filters: Fields, patch: Fields)
    requires NoClashes(rows) && FilterStrings(filters)
    requires Update(rows, filters, patch, true).reply.value
    ensures Lookup(rows, FilterKey(filters)).Some?
    ensures var patched := ApplyPatch(Lookup(rows, FilterKey(filters)).value, patch);
      var after := Update(rows, filters, patch, true).rows;
      Lookup(after, KeyOf(patched)) == Some(patched) &&
      forall k | k != KeyOf(patched) ::
        Lookup(after, k) == if k == FilterKey(filters) then None else Lookup(rows, k)
  {
    var key := FilterKey(filters);
    var after := Update(rows, filters, patch, true).rows;
    var j := IndexOfKey(rows, key).value;
    var patched := ApplyPatch(rows[j], patch);
    assert after[j] == patched;
    assert after == rows[j := patched] by {
      UpdateRows(rows, filters, patch, true);
    }
    LookupUnique(after, patched);
    forall k | k != KeyOf(patched)
      ensures Lookup(after, k) == if k == key then None else Lookup(rows, k)
    {
      ReplaceRowLookup(rows, j, patched, k);
    }
  }

  /** Replacing one row of a constrained table vacates its old key and leaves every other key alone. */
  lemma ReplaceRowLookup(rows: seq<Profile>, j: nat, patched: Profile, k: Key)
    requires NoClashes(rows) && j < |rows|
    requires NoClashes(rows[j := patched])
    requires k != KeyOf(patched)
    ensures Lookup(rows[j := patched], k) == if k == KeyOf(rows[j]) then None else Lookup(rows, k)
  {
    var after := rows[j := patched];
    var found := Lookup(rows, k);
    if k == KeyOf(rows[j]) {
      forall y | y in after ensures KeyOf(y) != k {
        var a :| 0 <= a < |after| && after[a] == y;
        if a != j {
          assert Compatible(rows[a], rows[j]);
        }
      }
    } else if found.Some? {
      var a :| 0 <= a < |rows| && rows[a] == found.value;
      assert after[a] == found.value;
      LookupUnique(after, found.value);
    } else {
      forall y | y in after ensures KeyOf(y) != k {
        var a :| 0 <= a < |after| && after[a] == y;
        if a != j {
          assert rows[a] in rows;
        }
      }
    }
  }

  /** The table that inserting `ps` one by one, in order, into an empty table leaves. */
  function InsertAll(ps: seq<Profile>): seq<Profile>
  {
    if ps == [] then [] else Create(InsertAll(ps[..|ps| - 1]), ps[|ps| - 1], true).rows
  }

  /** Every table that keeps its constraints is what inserting its rows, in order, into an empty table gives. */
  lemma {:induction false} InsertAllRebuilds(rows: seq<Profile>)
    requires NoClashes(rows)
    ensures InsertAll(rows) == rows
  {
    if rows != [] {
      var n := |rows| - 1;
      var prefix := rows[..n];
      assert NoClashes(prefix) by {
        forall i, j | 0 <= i < |prefix| && 0 <= j < |prefix| && i != j
          ensures Compatible(prefix[i], prefix[j])
        {
          assert prefix[i] == rows[i] && prefix[j] == rows[j];
        }
      }
      InsertAllRebuilds(prefix);
      forall x | x in prefix ensures Compatible(x, rows[n]) {
        var i :| 0 <= i < |prefix| && prefix[i] == x;
        assert rows[i] == x;
      }
      assert prefix + [rows[n]] == rows;
    }
  }

  // ---------------------------------------------------------------------------
  // Delete

  /** Deleting an existing pair reports `true` once; deleting it again reports `false`, not an error. */
  lemma DeleteTrueOnce(rows: seq<Profile>, profileID: string, tenantID: string)
    requires Lookup(rows, Key(tenantID, profileID)).Some?
    ensures Delete(rows, profileID, tenantID, true).reply == Reply(true, None)
    ensures Delete(Delete(rows, profileID, tenantID, true).rows, profileID, tenantID, true).reply == Reply(false, None)
  {
  }

  // ---------------------------------------------------------------------------
  // Create and Search

  /** A search with no offset and no limit returns every match, so a single match comes back alone. */
  lemma UnboundedSearchOfOne(rows: seq<Profile>, query: Query, tenantID: string, x: Profile)
    requires query.Where? && Filter(rows, Matching(query.holds, tenantID)) == [x]
    ensures Search(rows, query, -1, 0, Unsorted, tenantID, true) == Reply([x], None)
  {
  }

  /** The search whose caller predicate is `email_id = email`. */
  function EmailIs(email: string): Query
  {
    Where((x: Profile) => x.emailID == email)
  }

  /**
   * Inserting a profile and then searching its tenant for its e-mail, with no
   * limit and no offset, returns exactly that profile.
   */
  lemma CreateThenSearchByEmail(rows: seq<Profile>, p: Profile)
    requires NoClashes(rows)
    requires Create(rows, p, true).reply.err.None?
    ensures Search(Create(rows, p, true).rows, EmailIs(p.emailID), -1, 0, Unsorted, p.tenantID, true)
            == Reply([p], None)
  {
    var after := Create(rows, p, true).rows;
    var keep := Matching(EmailIs(p.emailID).holds, p.tenantID);
    forall y | y in after && keep(y) ensures y == p {
      assert y in rows + [p];
    }
    FilterSingle(after, keep, p);
    UnboundedSearchOfOne(after, EmailIs(p.emailID), p.tenantID, p);
  }

  /**
   * Once a profile is stored, a second insert reusing its e-mail fails and
   * changes nothing, whatever tenant the second one is in; with a fresh key
   * the failure is the e-mail constraint.
   */
  lemma DuplicateEmailRejected(rows: seq<Profile>, p: Profile, q: Profile)
    requires Create(rows, p, true).reply.err.None?
    requires q.emailID == p.emailID
    ensures var after := Create(rows, p, true).rows;
      Create(after, q, true).reply.err.Some? && Create(after, q, true).rows == after
    ensures var after := Create(rows, p, true).rows;
      KeyOf(q) != KeyOf(p) && Lookup(rows, KeyOf(q)).None? ==>
        Create(after, q, true).reply.err == Some(ConstraintViolation(UniqueEmail))
  {
  }

  /**
   * The same for the mobile number; when neither the key nor the e-mail of the
   * second insert is taken, the failure is the mobile constraint.
   */
  lemma DuplicateMobileRejected(rows: seq<Profile>, p: Profile, q: Profile)
    requires Create(rows, p, true).reply.err.None?
    requires q.mobile == p.mobile
    ensures var after := Create(rows, p, true).rows;
      Create(after, q, true).reply.err.Some? && Create(after, q, true).rows == after
    ensures var after := Create(rows, p, true).rows;
      KeyOf(q) != KeyOf(p) && q.emailID != p.emailID &&
      (forall x | x in rows :: KeyOf(x) != KeyOf(q) && x.emailID != q.emailID) ==>
        Create(after, q, true).reply.err == Some(ConstraintViolation(UniqueMobile))
  {
  }

  // ---------------------------------------------------------------------------
  // Update then Search

  /** The search whose caller predicate is `profile_id = id`. */
  function IdIs(id: string): Query
  {
    Where((x: Profile) => x.profileID == id)
  }

  /**
   * Renaming row "101" of the default tenant reports `true`, and searching the
   * tenant for that id afterwards returns the row with the new name.
   */
  lemma UpdateThenSearchSeesPatch(rows: seq<Profile>, r: Profile)
    requires NoClashes(rows) && r in rows
    requires KeyOf(r) == Key(DefaultTenant, "101")
    ensures var s := Update(rows, map["profile_id" := Str("101"), "tenant_id" := Str(DefaultTenant)],
                            map["full_name" := Str("New Name")], true);
      s.reply == Reply(true, None) &&
      Search(s.rows, IdIs("101"), -1, 0, Unsorted, DefaultTenant, true) == Reply([r.(fullName := "New Name")], None)
  {
    var filters := map["profile_id" := Str("101"), "tenant_id" := Str(DefaultTenant)];
    var patch := map["full_name" := Str("New Name")];
    var key := FilterKey(filters);
    var patched := ApplyPatch(r, patch);
    assert patched == r.(fullName := "New Name");
    assert NamesColumn(patch) by {
      assert IsColumn("full_name");
    }
    var j :| 0 <= j < |rows| && rows[j] == r;
    forall x | x in rows && KeyOf(x) != key ensures Compatible(x, patched) {
      var a :| 0 <= a < |rows| && rows[a] == x;
      assert Compatible(rows[a], rows[j]);
    }
    var s := Update(rows, filters, patch, true);
    assert s.rows[j] == patched;
    var keep := Matching(IdIs("101").holds, DefaultTenant);
    forall y | y in s.rows && keep(y) ensures y == patched {
      SameKeySameRow(s.rows, y, patched);
    }
    FilterSingle(s.rows, keep, patched);
    UnboundedSearchOfOne(s.rows, IdIs("101"), DefaultTenant, patched);
  }
}
