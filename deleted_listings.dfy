/** The Deleted Listings page: the soft-deleted rows, newest deletion first. */
module DeletedListings {
  import opened Types
  import opened Ordering
  import ListingTable

  /** The `deleted_at` of each row the page lists. */
  function DeletedAtKey(t: Listings): (key: map<Id, Stamp>)
    ensures key.Keys == ListingTable.DeletedIds(t)
    ensures forall k :: k in key ==> t[k].deletedAt == Some(key[k])
  {
    map k | k in ListingTable.DeletedIds(t) :: t[k].deletedAt.value
  }

  /**
   * `.not("deleted_at", "is", null).order("deleted_at", { ascending: false })`:
   * each soft-deleted row once, later deletions first.
   */
  ghost function View(t: Listings): (v: seq<Id>)
    ensures forall k :: k in v <==> k in t && t[k].deletedAt.Some?
    ensures Distinct(v)
    ensures forall i, j :: 0 <= i < j < |v| ==>
      v[i] in t && v[j] in t && t[v[i]].deletedAt.value >= t[v[j]].deletedAt.value
  {
    var key := DeletedAtKey(t);
    var v := SortDesc(key.Keys, key);
    assert forall i, j :: 0 <= i < j < |v| ==> key[v[i]] >= key[v[j]];
    v
  }

  /** `listing.status || "cpv"`: a null or empty status is shown as `cpv`. */
  function BadgeStatus(status: Option<string>): (shown: string)
    ensures status.None? || status.value == "" ==> shown == "cpv"
    ensures status.Some? && status.value != "" ==> shown == status.value
  {
    if status.Some? && status.value != "" then status.value else "cpv"
  }

  /**
   * The badge reads the raw `status` text. Every stage the pages write has a
   * non-empty name, so a row they wrote is shown under its own stage.
   */
  lemma StoredStatusShown(l: Listing)
    ensures BadgeStatus(Some(StatusName(l.status))) == StatusName(l.status)
  {
    match l.status
    case cpv => case assign => case worklist => case nr => case pr => case np => case published =>
  }
}
