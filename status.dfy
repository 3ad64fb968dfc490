/** The status a pull request row carries, and the initial status written when a
    tracker is created: merged, then closed, then changes requested, then approved
    once enough approvals are in; otherwise nothing is written. */
module Status {
  import opened Wrappers
  import opened Reviews

  const Approved: string := "approved"
  const ChangesRequested: string := "changes_requested"
  const Merged: string := "merged"
  const Closed: string := "closed"

  /** The switch both submission handlers run on a fresh review snapshot. */
  function InitialStatus(s: PRReviewState, required: int): Option<string>
  {
    if s.merged then Some(Merged)
    else if s.closed then Some(Closed)
    else if s.changesRequested then Some(ChangesRequested)
    else if s.approvals >= required then Some(Approved)
    else None
  }

  // ---------------------------------------------------------------------
  // An independent reading: every status whose condition holds is a candidate,
  // and the one written is the candidate of highest priority.

  /** Later in the list means higher priority. */
  const ByPriority: seq<string> := [Approved, ChangesRequested, Closed, Merged]

  predicate Holds(s: PRReviewState, required: int, status: string)
  {
    || (status == Merged && s.merged)
    || (status == Closed && s.closed)
    || (status == ChangesRequested && s.changesRequested)
    || (status == Approved && s.approvals >= required)
  }

  function Candidates(s: PRReviewState, required: int): set<nat>
  {
    set k | 0 <= k < |ByPriority| && Holds(s, required, ByPriority[k])
  }

  /** The initial status is the highest-priority status whose condition holds, and
      nothing is written exactly when no condition holds. */
  lemma InitialStatusIsHighestCandidate(s: PRReviewState, required: int)
    ensures InitialStatus(s, required).None? <==> Candidates(s, required) == {}
    ensures InitialStatus(s, required).Some? ==>
              exists k :: k in Candidates(s, required) && ByPriority[k] == InitialStatus(s, required).value
                          && forall j :: j in Candidates(s, required) ==> j <= k
  {
    var c := Candidates(s, required);
    if s.merged {
      assert 3 in c;
    } else if s.closed {
      assert 2 in c;
    } else if s.changesRequested {
      assert 1 in c;
    } else if s.approvals >= required {
      assert 0 in c;
    } else {
      forall k | 0 <= k < |ByPriority| ensures !Holds(s, required, ByPriority[k]) {
      }
    }
  }

  /** A snapshot whose fetch failed writes no status: the zero state holds no flag,
      and at least one approval is always required. */
  lemma FailedFetchWritesNoStatus(pr: PullRequestResponse, reviews: ReviewsResponse, required: int)
    requires required >= 1
    requires pr.PullRequestFailed?
    ensures InitialStatus(Snapshot(pr, reviews).0, required) == None
  {
  }

  /** A state that is neither merged nor closed, without a change request, and with
      enough approvals starts approved; one approval short starts without status. */
  lemma ApprovalThreshold(s: PRReviewState, required: int)
    requires !s.merged && !s.closed && !s.changesRequested
    ensures InitialStatus(s, required) == Some(Approved) <==> s.approvals >= required
    ensures InitialStatus(s, required) == None <==> s.approvals < required
  {
  }
}
