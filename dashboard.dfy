/**
 * The dashboard statistics. Its queries have no `deleted_at` filter: every
 * row of `listings` is counted, soft-deleted ones included.
 */
module Dashboard {
  import opened Types
  import opened Ordering

  /** `listings.filter(l => l.status === s)` */
  function StatusIds(t: Listings, s: Status): (ids: set<Id>)
    ensures ids <= t.Keys
  {
    set k | k in t && t[k].status == s
  }

  function StatusCount(t: Listings, s: Status): (n: nat) {
    |StatusIds(t, s)|
  }

  datatype Stats = Stats(listed: nat, categories: nat, cpv: nat, nr: nat, pr: nat, np: nat, assign: nat)

  /** The `dashboard-stats` query: `listed`, `categories` and five of the seven status counts. */
  function ComputeStats(t: Listings, categories: map<Id, Category>): (st: Stats)
    ensures st.listed == |t| && st.categories == |categories|
    ensures st.cpv == StatusCount(t, cpv) && st.nr == StatusCount(t, nr) && st.pr == StatusCount(t, pr)
    ensures st.np == StatusCount(t, np) && st.assign == StatusCount(t, assign)
    ensures st.cpv + st.nr + st.pr + st.np + st.assign
            + StatusCount(t, worklist) + StatusCount(t, published) == st.listed
    ensures st.cpv + st.nr + st.pr + st.np + st.assign <= st.listed
  {
    StatusCountsPartition(t);
    Stats(|t|, |categories|, StatusCount(t, cpv), StatusCount(t, nr), StatusCount(t, pr),
          StatusCount(t, np), StatusCount(t, assign))
  }

  lemma DisjointUnionCard(x: set<Id>, y: set<Id>)
    requires x !! y
    ensures |x + y| == |x| + |y|
  {
    assert x * y == {};
  }

  /** Taking one row out lowers the count of its own status by one and no other. */
  lemma RemoveRow(t: Listings, k: Id, s: Status)
    requires k in t
    ensures StatusCount(t, s) == StatusCount(t - {k}, s) + (if t[k].status == s then 1 else 0)
  {
    if t[k].status == s {
      assert StatusIds(t, s) == StatusIds(t - {k}, s) + {k};
    } else {
      assert StatusIds(t, s) == StatusIds(t - {k}, s);
    }
  }

  /** The seven status counts add up to the number of rows. */
  lemma {:induction false} StatusCountsPartition(t: Listings)
    ensures StatusCount(t, cpv) + StatusCount(t, assign) + StatusCount(t, worklist) + StatusCount(t, nr)
            + StatusCount(t, pr) + StatusCount(t, np) + StatusCount(t, published) == |t|
    decreases |t|
  {
    if |t| == 0 {
      assert t.Keys == {};
    } else {
      var k :| k in t;
      StatusCountsPartition(t - {k});
      RemoveRow(t, k, cpv);
      RemoveRow(t, k, assign);
      RemoveRow(t, k, worklist);
      RemoveRow(t, k, nr);
      RemoveRow(t, k, pr);
      RemoveRow(t, k, np);
      RemoveRow(t, k, published);
      assert |t - {k}| == |t| - 1;
    }
  }

  /** The worklist rows assigned to one admin: `l.assigned_to === admin.id` over `status in ["worklist"]`. */
  function WorkloadIds(t: Listings, adminId: Id): (ids: set<Id>)
    ensures ids <= StatusIds(t, worklist)
  {
    set k | k in t && t[k].status == worklist && t[k].assignedTo == Some(adminId)
  }

  datatype Workload = Workload(adminCode: string, count: nat)

  /** `admins?.map(admin => ({ adminCode, count })) || []` over the admins as loaded. */
  function Workloads(loaded: Option<seq<Id>>, admins: map<Id, Admin>, t: Listings): (w: seq<Workload>)
    requires loaded.Some? ==> forall i :: 0 <= i < |loaded.value| ==> loaded.value[i] in admins
    ensures loaded.None? ==> w == []
    ensures loaded.Some? ==> |w| == |loaded.value|
    ensures loaded.Some? ==> forall i :: 0 <= i < |w| ==>
      w[i] == Workload(admins[loaded.value[i]].adminCode, |WorkloadIds(t, loaded.value[i])|)
  {
    if loaded.None? then [] else WorkloadsOf(loaded.value, admins, t)
  }

  function WorkloadsOf(ids: seq<Id>, admins: map<Id, Admin>, t: Listings): (w: seq<Workload>)
    requires forall i :: 0 <= i < |ids| ==> ids[i] in admins
    ensures |w| == |ids|
    ensures forall i :: 0 <= i < |w| ==> w[i] == Workload(admins[ids[i]].adminCode, |WorkloadIds(t, ids[i])|)
  {
    if ids == [] then []
    else [Workload(admins[ids[0]].adminCode, |WorkloadIds(t, ids[0])|)] + WorkloadsOf(ids[1..], admins, t)
  }

  function TotalCount(w: seq<Workload>): (n: nat) {
    if w == [] then 0 else w[0].count + TotalCount(w[1..])
  }

  /** The worklist rows assigned to any of `ids`. */
  function AssignedAmong(t: Listings, ids: seq<Id>): (among: set<Id>) {
    set k | k in t && t[k].status == worklist && t[k].assignedTo.Some? && t[k].assignedTo.value in ids
  }

  lemma {:induction false} TotalIsAssignedAmong(ids: seq<Id>, admins: map<Id, Admin>, t: Listings)
    requires forall i :: 0 <= i < |ids| ==> ids[i] in admins
    requires Distinct(ids)
    ensures TotalCount(WorkloadsOf(ids, admins, t)) == |AssignedAmong(t, ids)|
  {
    if ids != [] {
      var rest := ids[1..];
      assert Distinct(rest) by {
        forall i, j | 0 <= i < j < |rest| ensures rest[i] != rest[j] { assert rest[i] == ids[i + 1] && rest[j] == ids[j + 1]; }
      }
      TotalIsAssignedAmong(rest, admins, t);
      assert ids[0] !in rest by {
        forall j | 0 <= j < |rest| ensures rest[j] != ids[0] { assert rest[j] == ids[j + 1]; }
      }
      assert AssignedAmong(t, ids) == WorkloadIds(t, ids[0]) + AssignedAmong(t, rest) by {
        assert forall x :: x in ids <==> x == ids[0] || x in rest;
      }
      DisjointUnionCard(WorkloadIds(t, ids[0]), AssignedAmong(t, rest));
      assert WorkloadsOf(ids, admins, t)[1..] == WorkloadsOf(rest, admins, t);
    }
  }

  /** With each admin listed once, the workloads add up to at most the number of worklist rows. */
  lemma WorkloadsWithinWorklist(ids: seq<Id>, admins: map<Id, Admin>, t: Listings)
    requires forall i :: 0 <= i < |ids| ==> ids[i] in admins
    requires Distinct(ids)
    ensures TotalCount(Workloads(Some(ids), admins, t)) <= StatusCount(t, worklist)
  {
    TotalIsAssignedAmong(ids, admins, t);
    var among, all := AssignedAmong(t, ids), StatusIds(t, worklist);
    assert all == among + (all - among);
    DisjointUnionCard(among, all - among);
    assert Workloads(Some(ids), admins, t) == WorkloadsOf(ids, admins, t);
  }
}
