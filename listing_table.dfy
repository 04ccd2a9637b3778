/**
 * The `listings` table and the statements the pages issue against it. Every
 * page update is filtered by id alone (`.update(...).eq("id", id)`): it never
 * looks at the row's current status, and an id that is not in the table
 * updates nothing. The stage views are the pages' `select` filters.
 */
module ListingTable {
  import opened Types

  /** `.update({ status: s }).eq("id", id)` */
  function SetStatus(t: Listings, id: Id, s: Status): (r: Listings)
    ensures r.Keys == t.Keys
    ensures id in t ==> r[id] == t[id].(status := s)
    ensures forall k :: k in t && k != id ==> r[k] == t[k]
  {
    if id in t then t[id := t[id].(status := s)] else t
  }

  /**
   * `.update({ title, description, status: "assign" }).eq("id", id)`. A
   * description of `undefined` is dropped from the update body, so the column
   * keeps its old value.
   */
  function SetDetails(t: Listings, id: Id, title: string, description: Option<string>): (r: Listings)
    ensures r.Keys == t.Keys
    ensures id in t ==> r[id] == t[id].(title := Some(title), status := assign,
                                         description := if description.Some? then description else t[id].description)
    ensures forall k :: k in t && k != id ==> r[k] == t[k]
  {
    if id in t then
      t[id := t[id].(title := Some(title), status := assign,
                     description := if description.Some? then description else t[id].description)]
    else t
  }

  /** `.update({ assigned_to: adminId, status: "worklist" }).eq("id", id)` */
  function SetAssignee(t: Listings, id: Id, adminId: string): (r: Listings)
    ensures r.Keys == t.Keys
    ensures id in t ==> r[id] == t[id].(assignedTo := Some(adminId), status := worklist)
    ensures forall k :: k in t && k != id ==> r[k] == t[k]
  {
    if id in t then t[id := t[id].(assignedTo := Some(adminId), status := worklist)] else t
  }

  /** `.update({ deleted_at: d }).eq("id", id)`: soft delete with `Some(now)`, restore with `None`. */
  function SetDeletedAt(t: Listings, id: Id, d: Option<Stamp>): (r: Listings)
    ensures r.Keys == t.Keys
    ensures id in t ==> r[id] == t[id].(deletedAt := d)
    ensures forall k :: k in t && k != id ==> r[k] == t[k]
  {
    if id in t then t[id := t[id].(deletedAt := d)] else t
  }

  /** `.delete().eq("id", id)` */
  function Purge(t: Listings, id: Id): (r: Listings)
    ensures r.Keys == t.Keys - {id}
    ensures forall k :: k in r ==> r[k] == t[k]
  {
    t - {id}
  }

  /**
   * `.update({ category_id: to }).eq("category_id", from)`: every row that
   * references `from`, soft-deleted or not, now references `to`.
   */
  function ReassignCategory(t: Listings, from: Id, to: Id): (r: Listings)
    ensures r.Keys == t.Keys
    ensures forall k :: k in t && t[k].categoryId == from ==> r[k] == t[k].(categoryId := to)
    ensures forall k :: k in t && t[k].categoryId != from ==> r[k] == t[k]
    ensures from != to ==> forall k :: k in r ==> r[k].categoryId != from
  {
    map k | k in t :: if t[k].categoryId == from then t[k].(categoryId := to) else t[k]
  }

  /** `.update({ brand_id: to }).eq("brand_id", from)`; a row without a brand is not matched. */
  function ReassignBrand(t: Listings, from: Id, to: Id): (r: Listings)
    ensures r.Keys == t.Keys
    ensures forall k :: k in t && t[k].brandId == Some(from) ==> r[k] == t[k].(brandId := Some(to))
    ensures forall k :: k in t && t[k].brandId != Some(from) ==> r[k] == t[k]
    ensures from != to ==> forall k :: k in r ==> r[k].brandId != Some(from)
  {
    map k | k in t :: if t[k].brandId == Some(from) then t[k].(brandId := Some(to)) else t[k]
  }

  /** A stage page's query: `.eq("status", s).is("deleted_at", null)`. */
  function StageView(t: Listings, s: Status): (v: set<Id>)
    ensures v <= t.Keys
    ensures forall k :: k in t && t[k].deletedAt.Some? ==> k !in v
  {
    set k | k in t && t[k].status == s && t[k].deletedAt.None?
  }

  /** The deleted-listings query: `.not("deleted_at", "is", null)`. */
  function DeletedIds(t: Listings): (v: set<Id>)
    ensures v <= t.Keys
    ensures forall s :: v !! StageView(t, s)
  {
    set k | k in t && t[k].deletedAt.Some?
  }

  /** Every row is listed either in the deleted view or in the stage view of its status. */
  lemma EveryRowHasOnePlace(t: Listings, k: Id)
    requires k in t
    ensures k in DeletedIds(t) <==> k !in StageView(t, t[k].status)
    ensures forall s :: s != t[k].status ==> k !in StageView(t, s)
  {
  }

  /** Soft delete removes the row from every stage view and puts it in the deleted view. */
  lemma SoftDeleteHides(t: Listings, id: Id, now: Stamp, s: Status)
    requires id in t
    ensures id !in StageView(SetDeletedAt(t, id, Some(now)), s)
    ensures id in DeletedIds(SetDeletedAt(t, id, Some(now)))
    ensures StageView(SetDeletedAt(t, id, Some(now)), s) == StageView(t, s) - {id}
  {
  }

  /** Restore returns the row to exactly the stage view of its unchanged status. */
  lemma RestoreRejoins(t: Listings, id: Id, s: Status)
    requires id in t
    ensures id in StageView(SetDeletedAt(t, id, None), s) <==> t[id].status == s
    ensures id !in DeletedIds(SetDeletedAt(t, id, None))
    ensures SetDeletedAt(t, id, None)[id].status == t[id].status
  {
  }

  /** Soft delete then restore gives back a row that was not deleted. */
  lemma SoftDeleteThenRestore(t: Listings, id: Id, now: Stamp)
    requires id in t && t[id].deletedAt.None?
    ensures SetDeletedAt(SetDeletedAt(t, id, Some(now)), id, None) == t
  {
    assert SetDeletedAt(SetDeletedAt(t, id, Some(now)), id, None)[id] == t[id];
  }

  /** Restore then soft delete at the same time gives back a deleted row. */
  lemma RestoreThenSoftDelete(t: Listings, id: Id)
    requires id in t && t[id].deletedAt.Some?
    ensures SetDeletedAt(SetDeletedAt(t, id, None), id, t[id].deletedAt) == t
  {
    assert SetDeletedAt(SetDeletedAt(t, id, None), id, t[id].deletedAt)[id] == t[id];
  }

  /**
   * A status write on a listed row moves it from its view to the view of the
   * new status and leaves every other row where it was.
   */
  lemma SetStatusMovesRow(t: Listings, id: Id, a: Status, b: Status, s: Status)
    requires id in StageView(t, a)
    ensures id in StageView(SetStatus(t, id, b), s) <==> s == b
    ensures StageView(SetStatus(t, id, b), s) - {id} == StageView(t, s) - {id}
  {
  }

  /** Every row of `u` that is published was already published in `t`. */
  predicate NoNewPublished(t: Listings, u: Listings) {
    forall k :: k in u && u[k].status == published ==> k in t && t[k].status == published
  }

  /**
   * None of the row updates the pages issue makes a row published: the
   * status writes carry a stage other than `published`, and the other
   * updates leave the status alone.
   */
  lemma UpdatesNeverPublish(t: Listings, id: Id, s: Status, title: string, description: Option<string>,
                            adminId: string, d: Option<Stamp>)
    requires s != published
    ensures NoNewPublished(t, SetStatus(t, id, s))
    ensures NoNewPublished(t, SetDetails(t, id, title, description))
    ensures NoNewPublished(t, SetAssignee(t, id, adminId))
    ensures NoNewPublished(t, SetDeletedAt(t, id, d))
  {
  }

  /** Deleting a row and moving rows to another category or brand make no row published. */
  lemma BulkWritesNeverPublish(t: Listings, id: Id, from: Id, to: Id)
    ensures NoNewPublished(t, Purge(t, id))
    ensures NoNewPublished(t, ReassignCategory(t, from, to))
    ensures NoNewPublished(t, ReassignBrand(t, from, to))
  {
  }

  /**
   * Along any history of the table in which each step publishes nothing new,
   * a row published at the end was published, under the same id, at the start.
   */
  lemma {:induction false} HistoryNeverPublishes(h: seq<Listings>)
    requires |h| > 0
    requires forall i :: 0 < i < |h| ==> NoNewPublished(h[i - 1], h[i])
    ensures NoNewPublished(h[0], h[|h| - 1])
  {
    if |h| > 1 {
      var prefix := h[..|h| - 1];
      assert forall i :: 0 < i < |prefix| ==> NoNewPublished(prefix[i - 1], prefix[i]) by {
        forall i | 0 < i < |prefix| ensures NoNewPublished(prefix[i - 1], prefix[i]) {
          assert prefix[i - 1] == h[i - 1] && prefix[i] == h[i];
        }
      }
      HistoryNeverPublishes(prefix);
      assert NoNewPublished(h[|h| - 2], h[|h| - 1]);
    }
  }
}
