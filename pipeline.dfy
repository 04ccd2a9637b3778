/**
 * The status edges the pages can take. Each page's action writes one fixed
 * status into a row it lists, so the edge set is read off the pages:
 * CPV (cpv to assign), Assign (assign to worklist), Worklist (worklist to nr),
 * NR (nr to pr or np) and NP (np to nr). No page writes `published`, and the
 * PR page has no status-changing action.
 */
module Pipeline {
  import opened Types

  predicate Edge(from: Status, to: Status) {
    match from
    case cpv => to == assign
    case assign => to == worklist
    case worklist => to == nr
    case nr => to == pr || to == np
    case np => to == nr
    case pr => false
    case published => false
  }

  /** Position along the forward pipeline; `pr` and `np` are the two review outcomes. */
  function Rank(s: Status): (r: nat) {
    match s
    case cpv => 0
    case assign => 1
    case worklist => 2
    case nr => 3
    case pr => 4
    case np => 4
    case published => 5
  }

  /** The resubmission np to nr is the only edge that does not move forward. */
  lemma OnlyBackwardEdgeIsResubmit(a: Status, b: Status)
    requires Edge(a, b)
    ensures Rank(b) <= Rank(a) <==> a == np && b == nr
  {
  }

  /** `pr` has no outgoing edge and nothing leads to `published`. */
  lemma PassedIsFinal(a: Status, b: Status)
    ensures !Edge(pr, b) && !Edge(a, published) && !Edge(published, b)
  {
  }

  /** A sequence of statuses a listing takes, one page action after another. */
  ghost predicate IsRun(run: seq<Status>) {
    forall i :: 0 < i < |run| ==> Edge(run[i - 1], run[i])
  }

  /** A run of page actions that does not start out published never becomes published. */
  lemma RunNeverPublishes(run: seq<Status>)
    requires |run| > 0 && run[0] != published && IsRun(run)
    ensures forall i :: 0 <= i < |run| ==> run[i] != published
  {
    forall i | 0 < i < |run| ensures run[i] != published {
      assert Edge(run[i - 1], run[i]);
    }
  }

  /** The page actions in order: the scenario of a listing rejected once, resubmitted and passed. */
  lemma RejectedThenPassedScenario()
    ensures IsRun([cpv, assign, worklist, nr, np, nr, pr])
  {
  }
}
