/** The NP page: rejected listings, with no `deleted_at` filter and no delete action. */
module Np {
  import opened Types
  import ListingTable

  /** `.eq("status", "np")` only. */
  function View(t: Listings): (v: set<Id>)
    ensures forall k :: k in v <==> k in t && t[k].status == np
  {
    set k | k in t && t[k].status == np
  }

  /** The page lists the live `np` rows and, unlike every other stage page, the soft-deleted ones too. */
  lemma ViewIncludesDeleted(t: Listings)
    ensures View(t) == ListingTable.StageView(t, np) + (ListingTable.DeletedIds(t) * View(t))
    ensures forall k :: k in ListingTable.DeletedIds(t) && t[k].status == np ==> k in View(t)
  {
  }
}
