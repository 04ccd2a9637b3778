/** The Worklist page: assigned listings and the admin code shown for each. */
module Worklist {
  import opened Types
  import ListingTable

  const Unassigned := "Unassigned"

  /** `.eq("status", "worklist").is("deleted_at", null)` */
  function View(t: Listings): (v: set<Id>)
    ensures forall k :: k in v <==> k in t && t[k].status == worklist && t[k].deletedAt.None?
  {
    ListingTable.StageView(t, worklist)
  }

  /**
   * `admins.find(a => a.id === listing.assigned_to)?.admin_code || "Unassigned"`:
   * the code of the admin the listing is assigned to, or "Unassigned" when
   * there is none, no admin has that id, or the code is empty.
   */
  function AssigneeLabel(l: Listing, admins: map<Id, Admin>): (shown: string)
    ensures shown == Unassigned || (l.assignedTo.Some? && l.assignedTo.value in admins
                                    && shown == admins[l.assignedTo.value].adminCode)
    ensures l.assignedTo.Some? && l.assignedTo.value in admins && admins[l.assignedTo.value].adminCode != ""
            ==> shown == admins[l.assignedTo.value].adminCode
    ensures l.assignedTo.None? || l.assignedTo.value !in admins ==> shown == Unassigned
  {
    if l.assignedTo.Some? && l.assignedTo.value in admins && admins[l.assignedTo.value].adminCode != ""
    then admins[l.assignedTo.value].adminCode
    else Unassigned
  }
}
