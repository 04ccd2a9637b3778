/** The NR page: listings needing review, the pass/reject decision and its log entry. */
module Nr {
  import opened Types
  import ListingTable

  const ListingPassed := "LISTING_PASSED"
  const ListingRejected := "LISTING_REJECTED"
  const Section := "nr"

  /** `.eq("status", "nr").is("deleted_at", null)` */
  function View(t: Listings): (v: set<Id>)
    ensures forall k :: k in v <==> k in t && t[k].status == nr && t[k].deletedAt.None?
  {
    ListingTable.StageView(t, nr)
  }

  /** The decision's type is `"pr" | "np"`. */
  predicate IsDecision(s: Status) {
    s == pr || s == np
  }

  /** The `logAdminActivity` call after a successful review update. */
  function ReviewEntry(adminId: Id, listingId: Id, newStatus: Status): (e: LogEntry)
    requires IsDecision(newStatus)
    ensures e.adminId == adminId && e.section == Section
    ensures e.action == ListingPassed <==> newStatus == pr
    ensures e.action == ListingRejected <==> newStatus == np
    ensures e.listingId == listingId && e.newStatus == StatusName(newStatus)
  {
    LogEntry(adminId, if newStatus == pr then ListingPassed else ListingRejected, Section, listingId, StatusName(newStatus))
  }
}
