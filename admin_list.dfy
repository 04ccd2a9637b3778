/** The admin list: freeze/activate toggling and the list order. */
module AdminList {
  import opened Types
  import opened Ordering

  const Active := "active"
  const Frozen := "frozen"

  /** `admin.status === "active" ? "frozen" : "active"` */
  function NextStatus(status: string): (next: string)
    ensures next == Frozen <==> status == Active
    ensures next == Active <==> status != Active
  {
    if status == Active then Frozen else Active
  }

  /** Two toggles return an active or frozen admin to where it was; any other text ends up frozen. */
  lemma ToggleTwice(status: string)
    ensures NextStatus(NextStatus(status)) == if status == Active then Active else Frozen
  {
  }

  /** The `created_at` of each admin. */
  function CreatedAtKey(admins: map<Id, Admin>): (key: map<Id, Stamp>)
    ensures key.Keys == admins.Keys
    ensures forall a :: a in key ==> key[a] == admins[a].createdAt
  {
    map a | a in admins :: admins[a].createdAt
  }

  /** `.order("created_at", { ascending: false })`: every admin once, newest first. */
  ghost function ListOrder(admins: map<Id, Admin>): (order: seq<Id>)
    ensures forall a :: a in order <==> a in admins
    ensures |order| == |admins|
    ensures Distinct(order)
    ensures forall i, j :: 0 <= i < j < |order| ==>
      order[i] in admins && order[j] in admins && admins[order[i]].createdAt >= admins[order[j]].createdAt
  {
    var key := CreatedAtKey(admins);
    var order := SortDesc(admins.Keys, key);
    assert forall i, j :: 0 <= i < j < |order| ==> key[order[i]] >= key[order[j]];
    order
  }
}
