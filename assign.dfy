/** The Assign page: listings waiting for an admin, and the admins offered. */
module Assign {
  import opened Types
  import ListingTable

  /** The initial value of the page's `assignedAdminId`, written as-is when no admin is picked. */
  const NoAdminChosen: string := ""

  /** `.eq("status", "assign").is("deleted_at", null)` */
  function View(t: Listings): (v: set<Id>)
    ensures forall k :: k in v <==> k in t && t[k].status == assign && t[k].deletedAt.None?
  {
    ListingTable.StageView(t, assign)
  }

  /** `admins.select("*")` with no status filter: frozen admins are offered too. */
  function Candidates(admins: map<Id, Admin>): (c: set<Id>)
    ensures forall a :: a in admins ==> a in c
    ensures c <= admins.Keys
  {
    admins.Keys
  }

  lemma FrozenAdminsOffered(admins: map<Id, Admin>, a: Id)
    requires a in admins && admins[a].status == "frozen"
    ensures a in Candidates(admins)
  {
  }
}
