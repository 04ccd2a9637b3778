/**
 * The per-admin section permissions: the fixed section list, the map the
 * dialog builds from the stored rows (a section with no row is allowed), the
 * switch toggle, and the replace-all rows a save writes.
 */
module AdminPermissions {
  import opened Types

  const AvailableSections: seq<string> := [
    "Dashboard", "Create New", "Worklist", "Assign", "CPV", "NR", "NP", "PR",
    "Draft", "Deleted Listings", "Data Block", "Trend Analysis", "Admin Privileges"
  ]

  const SectionSet: set<string> := set s | s in AvailableSections

  /** `.from("admin_permissions").select("*").eq("admin_id", adminId)`, in table order. */
  function RowsOf(rows: seq<PermissionRow>, adminId: Id): (r: seq<PermissionRow>)
    ensures |r| <= |rows|
    ensures forall i :: 0 <= i < |r| ==> r[i].adminId == adminId && r[i] in rows
  {
    if rows == [] then []
    else (if rows[0].adminId == adminId then [rows[0]] else []) + RowsOf(rows[1..], adminId)
  }

  /** `.delete().eq("admin_id", adminId)`: the rows that survive. */
  function RowsNotOf(rows: seq<PermissionRow>, adminId: Id): (r: seq<PermissionRow>)
    ensures forall i :: 0 <= i < |r| ==> r[i].adminId != adminId && r[i] in rows
  {
    if rows == [] then []
    else (if rows[0].adminId != adminId then [rows[0]] else []) + RowsNotOf(rows[1..], adminId)
  }

  /** `data?.find((p) => p.section === section)?.can_access`: the first row for the section. */
  function FindAccess(data: seq<PermissionRow>, section: string): (r: Option<bool>)
    ensures r.None? <==> forall i :: 0 <= i < |data| ==> data[i].section != section
  {
    if data == [] then None
    else if data[0].section == section then Some(data[0].canAccess)
    else FindAccess(data[1..], section)
  }

  /** The map `fetchPermissions` builds: one entry per section, `?? true` where no row exists. */
  function Fetched(data: seq<PermissionRow>): (m: map<string, bool>)
    ensures m.Keys == SectionSet
    ensures forall s :: s in m ==> m[s] == FindAccess(data, s).GetOr(true)
  {
    map s | s in SectionSet :: FindAccess(data, s).GetOr(true)
  }

  /** The `AVAILABLE_SECTIONS.forEach` loop of `fetchPermissions`. */
  method BuildPermissionsMap(data: seq<PermissionRow>) returns (permissionsMap: map<string, bool>)
    ensures permissionsMap.Keys == SectionSet
    ensures forall s :: s in SectionSet ==>
      permissionsMap[s] == (if exists i :: 0 <= i < |data| && data[i].section == s then FindAccess(data, s).value else true)
    ensures permissionsMap == Fetched(data)
  {
    permissionsMap := map[];
    var i := 0;
    while i < |AvailableSections|
      invariant 0 <= i <= |AvailableSections|
      invariant permissionsMap.Keys == set s | s in AvailableSections[..i]
      invariant forall s :: s in permissionsMap ==> permissionsMap[s] == FindAccess(data, s).GetOr(true)
    {
      var section := AvailableSections[i];
      var permission := FindAccess(data, section);
      permissionsMap := permissionsMap[section := permission.GetOr(true)];
      assert AvailableSections[..i + 1] == AvailableSections[..i] + [section];
      i := i + 1;
    }
    assert AvailableSections[..i] == AvailableSections;
  }

  /** An admin without stored rows may access every section. */
  lemma DefaultAllow(rows: seq<PermissionRow>, adminId: Id)
    requires forall i :: 0 <= i < |rows| ==> rows[i].adminId != adminId
    ensures forall s :: s in SectionSet ==> Fetched(RowsOf(rows, adminId))[s]
  {
    RowsOfForeignRows(rows, adminId);
  }

  /** `togglePermission`: `{ ...prev, [section]: !prev[section] }`, where a missing entry reads as false. */
  function Toggle(m: map<string, bool>, section: string): (r: map<string, bool>)
    ensures r.Keys == m.Keys + {section}
    ensures r[section] == !(section in m && m[section])
    ensures forall s :: s in m && s != section ==> r[s] == m[s]
  {
    m[section := !(section in m && m[section])]
  }

  /** Flipping the same switch twice gives the map back. */
  lemma ToggleTwice(m: map<string, bool>, section: string)
    requires section in m
    ensures Toggle(Toggle(m, section), section) == m
  {
  }

  /**
   * `Object.entries(permissions).map(...)`: one row per entry of `m`, walked
   * in the order of `sections`. The dialog's map only has keys from the
   * section list (`PermissionsDialog.Valid`), so over `AvailableSections`
   * every entry gets its row (`InsertedRowsMatchMap`).
   */
  function RowsToInsert(adminId: Id, sections: seq<string>, m: map<string, bool>): (r: seq<PermissionRow>)
    ensures forall i :: 0 <= i < |r| ==>
      r[i].adminId == adminId && r[i].section in sections && r[i].section in m && r[i].canAccess == m[r[i].section]
  {
    if sections == [] then []
    else (if sections[0] in m then [PermissionRow(adminId, sections[0], m[sections[0]])] else [])
         + RowsToInsert(adminId, sections[1..], m)
  }

  /** Every section of the walk that `m` has gets a row. */
  lemma {:induction false} RowsToInsertCovers(adminId: Id, sections: seq<string>, m: map<string, bool>, s: string)
    requires s in sections && s in m
    ensures exists i :: 0 <= i < |RowsToInsert(adminId, sections, m)| && RowsToInsert(adminId, sections, m)[i].section == s
  {
    var head := if sections[0] in m then [PermissionRow(adminId, sections[0], m[sections[0]])] else [];
    var rest := RowsToInsert(adminId, sections[1..], m);
    var r := RowsToInsert(adminId, sections, m);
    assert r == head + rest;
    if s == sections[0] {
      assert r[0].section == s;
    } else {
      assert s in sections[1..];
      RowsToInsertCovers(adminId, sections[1..], m, s);
      var i :| 0 <= i < |rest| && rest[i].section == s;
      assert r[|head| + i] == rest[i];
    }
  }

  /** No two rows name the same section. */
  predicate OneRowPerSection(r: seq<PermissionRow>) {
    forall i, j :: 0 <= i < j < |r| ==> r[i].section != r[j].section
  }

  /** Over a duplicate-free walk no section gets two rows. */
  lemma {:induction false} RowsToInsertNoRepeat(adminId: Id, sections: seq<string>, m: map<string, bool>)
    requires forall i, j :: 0 <= i < j < |sections| ==> sections[i] != sections[j]
    ensures OneRowPerSection(RowsToInsert(adminId, sections, m))
  {
    if sections != [] {
      var tail := sections[1..];
      assert forall i, j :: 0 <= i < j < |tail| ==> tail[i] != tail[j] by {
        forall i, j | 0 <= i < j < |tail| ensures tail[i] != tail[j] {
          assert tail[i] == sections[i + 1] && tail[j] == sections[j + 1];
        }
      }
      RowsToInsertNoRepeat(adminId, tail, m);
      var head := if sections[0] in m then [PermissionRow(adminId, sections[0], m[sections[0]])] else [];
      var rest := RowsToInsert(adminId, tail, m);
      var r := RowsToInsert(adminId, sections, m);
      assert r == head + rest;
      assert sections[0] !in tail by {
        forall j | 0 <= j < |tail| ensures tail[j] != sections[0] {
          assert tail[j] == sections[j + 1];
        }
      }
      forall i, j | 0 <= i < j < |r| ensures r[i].section != r[j].section {
        assert r[j] == rest[j - |head|];
        if i >= |head| {
          assert r[i] == rest[i - |head|];
          assert 0 <= i - |head| < j - |head| < |rest|;
        } else {
          assert r[i] == head[0] && head[0].section == sections[0];
          assert r[j].section in tail;
          assert r[i].section != r[j].section;
        }
      }
    }
  }

  lemma AvailableSectionsDistinct()
    ensures forall i, j :: 0 <= i < j < |AvailableSections| ==> AvailableSections[i] != AvailableSections[j]
  {
  }

  /**
   * The rows a save inserts for a map over the section list: one row per
   * entry of the map, no section twice, each with the entry's value.
   */
  lemma InsertedRowsMatchMap(adminId: Id, m: map<string, bool>)
    requires m.Keys <= SectionSet
    ensures var r := RowsToInsert(adminId, AvailableSections, m);
      forall s :: s in m <==> exists i :: 0 <= i < |r| && r[i].section == s
    ensures OneRowPerSection(RowsToInsert(adminId, AvailableSections, m))
    ensures var r := RowsToInsert(adminId, AvailableSections, m);
      forall i :: 0 <= i < |r| ==> r[i].adminId == adminId && r[i].canAccess == m[r[i].section]
  {
    var r := RowsToInsert(adminId, AvailableSections, m);
    forall s | s in m ensures exists i :: 0 <= i < |r| && r[i].section == s {
      RowsToInsertCovers(adminId, AvailableSections, m, s);
    }
    AvailableSectionsDistinct();
    RowsToInsertNoRepeat(adminId, AvailableSections, m);
  }

  /** The table after `handleSavePermissions` when both the delete and the insert succeed. */
  function SavedRows(rows: seq<PermissionRow>, adminId: Id, m: map<string, bool>): (saved: seq<PermissionRow>) {
    RowsNotOf(rows, adminId) + RowsToInsert(adminId, AvailableSections, m)
  }

  /** What a fetch shows for a saved map: its own value where it has one, the default `true` elsewhere. */
  function WithDefaults(m: map<string, bool>): (f: map<string, bool>)
    ensures f.Keys == SectionSet
    ensures forall s :: s in SectionSet && s in m ==> f[s] == m[s]
    ensures forall s :: s in SectionSet && s !in m ==> f[s]
    ensures m.Keys == SectionSet ==> f == m
  {
    map s | s in SectionSet :: if s in m then m[s] else true
  }

  lemma {:induction false} RowsOfAppend(a: seq<PermissionRow>, b: seq<PermissionRow>, adminId: Id)
    ensures RowsOf(a + b, adminId) == RowsOf(a, adminId) + RowsOf(b, adminId)
  {
    if a != [] {
      assert (a + b)[1..] == a[1..] + b;
      RowsOfAppend(a[1..], b, adminId);
    } else {
      assert a + b == b;
    }
  }

  lemma {:induction false} RowsOfOwnRows(r: seq<PermissionRow>, adminId: Id)
    requires forall i :: 0 <= i < |r| ==> r[i].adminId == adminId
    ensures RowsOf(r, adminId) == r
  {
    if r != [] {
      RowsOfOwnRows(r[1..], adminId);
    }
  }

  lemma {:induction false} RowsOfForeignRows(r: seq<PermissionRow>, adminId: Id)
    requires forall i :: 0 <= i < |r| ==> r[i].adminId != adminId
    ensures RowsOf(r, adminId) == []
  {
    if r != [] {
      RowsOfForeignRows(r[1..], adminId);
    }
  }

  lemma {:induction false} RowsOfRowsNotOf(rows: seq<PermissionRow>, a: Id, b: Id)
    requires a != b
    ensures RowsOf(RowsNotOf(rows, a), b) == RowsOf(rows, b)
  {
    if rows != [] {
      RowsOfRowsNotOf(rows[1..], a, b);
      var head := if rows[0].adminId != a then [rows[0]] else [];
      RowsOfAppend(head, RowsNotOf(rows[1..], a), b);
    }
  }

  lemma {:induction false} FindAccessAppend(x: seq<PermissionRow>, y: seq<PermissionRow>, section: string)
    ensures FindAccess(x + y, section) == if FindAccess(x, section).Some? then FindAccess(x, section) else FindAccess(y, section)
  {
    if x != [] {
      assert (x + y)[1..] == x[1..] + y;
      FindAccessAppend(x[1..], y, section);
    } else {
      assert x + y == y;
    }
  }

  lemma {:induction false} FindAccessInserted(adminId: Id, sections: seq<string>, m: map<string, bool>, section: string)
    ensures FindAccess(RowsToInsert(adminId, sections, m), section) ==
            if section in sections && section in m then Some(m[section]) else None
  {
    if sections != [] {
      FindAccessInserted(adminId, sections[1..], m, section);
      var head := if sections[0] in m then [PermissionRow(adminId, sections[0], m[sections[0]])] else [];
      FindAccessAppend(head, RowsToInsert(adminId, sections[1..], m), section);
      assert section in sections <==> section == sections[0] || section in sections[1..];
    }
  }

  /**
   * Saving a map and fetching it again gives the saved values, with every
   * section the map lacks allowed; a full map comes back unchanged.
   */
  lemma SaveThenFetch(rows: seq<PermissionRow>, adminId: Id, m: map<string, bool>)
    ensures Fetched(RowsOf(SavedRows(rows, adminId, m), adminId)) == WithDefaults(m)
    ensures m.Keys == SectionSet ==> Fetched(RowsOf(SavedRows(rows, adminId, m), adminId)) == m
  {
    var inserted := RowsToInsert(adminId, AvailableSections, m);
    RowsOfAppend(RowsNotOf(rows, adminId), inserted, adminId);
    RowsOfForeignRows(RowsNotOf(rows, adminId), adminId);
    RowsOfOwnRows(inserted, adminId);
    assert RowsOf(SavedRows(rows, adminId, m), adminId) == inserted;
    FetchInserted(adminId, m);
  }

  lemma FetchInserted(adminId: Id, m: map<string, bool>)
    ensures Fetched(RowsToInsert(adminId, AvailableSections, m)) == WithDefaults(m)
  {
    var f := Fetched(RowsToInsert(adminId, AvailableSections, m));
    forall s | s in SectionSet ensures f[s] == WithDefaults(m)[s] {
      FindAccessInserted(adminId, AvailableSections, m, s);
    }
  }

  /** A save leaves the rows of every other admin as they were. */
  lemma SaveKeepsOtherAdmins(rows: seq<PermissionRow>, adminId: Id, m: map<string, bool>, other: Id)
    requires other != adminId
    ensures RowsOf(SavedRows(rows, adminId, m), other) == RowsOf(rows, other)
  {
    var inserted := RowsToInsert(adminId, AvailableSections, m);
    RowsOfAppend(RowsNotOf(rows, adminId), inserted, other);
    RowsOfForeignRows(inserted, other);
    RowsOfRowsNotOf(rows, adminId, other);
  }

  /**
   * The save ignores the result of its delete. If the delete fails and the
   * insert succeeds, the old rows come first and `find` returns them: an
   * admin who had a row for every section fetches the old map back.
   */
  lemma StaleAfterFailedDelete(rows: seq<PermissionRow>, adminId: Id, m: map<string, bool>)
    requires forall s :: s in SectionSet ==> FindAccess(RowsOf(rows, adminId), s).Some?
    ensures Fetched(RowsOf(rows + RowsToInsert(adminId, AvailableSections, m), adminId)) == Fetched(RowsOf(rows, adminId))
  {
    var inserted := RowsToInsert(adminId, AvailableSections, m);
    RowsOfAppend(rows, inserted, adminId);
    forall s | s in SectionSet
      ensures FindAccess(RowsOf(rows, adminId) + RowsOf(inserted, adminId), s) == FindAccess(RowsOf(rows, adminId), s)
    {
      FindAccessAppend(RowsOf(rows, adminId), RowsOf(inserted, adminId), s);
    }
  }

  /**
   * The fetch has no `.order`, so after a failed delete the two row sets may
   * come back in either order. With the new rows first, a full map is
   * fetched back as saved: the result of such a save depends on the order
   * the backend returns.
   */
  lemma FreshRowsFirstAfterFailedDelete(rows: seq<PermissionRow>, adminId: Id, m: map<string, bool>)
    requires m.Keys == SectionSet
    ensures Fetched(RowsOf(RowsToInsert(adminId, AvailableSections, m) + rows, adminId)) == m
  {
    var inserted := RowsToInsert(adminId, AvailableSections, m);
    RowsOfAppend(inserted, rows, adminId);
    RowsOfOwnRows(inserted, adminId);
    forall s | s in SectionSet
      ensures FindAccess(inserted + RowsOf(rows, adminId), s) == Some(m[s])
    {
      FindAccessAppend(inserted, RowsOf(rows, adminId), s);
      FindAccessInserted(adminId, AvailableSections, m, s);
    }
  }
}
