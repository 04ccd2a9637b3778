/** The PR page: passed listings, listed with a soft-delete button and no status action. */
module Pr {
  import opened Types
  import ListingTable

  /** `.eq("status", "pr").is("deleted_at", null)` */
  function View(t: Listings): (v: set<Id>)
    ensures forall k :: k in v <==> k in t && t[k].status == pr && t[k].deletedAt.None?
  {
    ListingTable.StageView(t, pr)
  }
}
