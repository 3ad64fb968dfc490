/** The GitHub webhook handlers of server/github_handler.go as read-modify-write
    updates of one stored pull request row. The event is taken as already verified
    and decoded. What the handlers ask of the rest of the program (re-render a
    tracker's Slack message, check whether a tracker is complete) is returned
    instead of performed. */
module Webhooks {
  import opened Wrappers
  import opened Store
  import Status

  const SubmittedAction: string := "submitted"
  const ApprovedReviewState: string := "approved"
  const ChangesRequestedReviewState: string := "changes_requested"
  const ClosedAction: string := "closed"

  /** The fields of a pull_request_review event the handler reads. */
  datatype ReviewEvent = ReviewEvent(action: string, state: string, owner: string, repo: string, number: int)

  /** The fields of a pull_request event the handler reads. */
  datatype PullRequestEvent = PullRequestEvent(
    action: string, owner: string, repo: string, number: int, title: string, merged: bool)

  predicate IsRelevantReview(e: ReviewEvent)
  {
    e.action == SubmittedAction && (e.state == ApprovedReviewState || e.state == ChangesRequestedReviewState)
  }

  /** The table with every row of that id replaced. */
  function ReplaceRow(rows: seq<PullRequest>, id: int, row: PullRequest): seq<PullRequest>
  {
    seq(|rows|, i requires 0 <= i < |rows| => if rows[i].id == id then row else rows[i])
  }

  /** The row after a relevant review: an approval adds one and makes the row approved
      once the count reaches what is required; a change request clears the count. */
  function Reviewed(pr: PullRequest, state: string): PullRequest
  {
    if state == ApprovedReviewState then
      var n := pr.approvalsCurrent + 1;
      pr.(approvalsCurrent := n, status := if n >= pr.approvalsRequired then Status.Approved else pr.status)
    else
      pr.(approvalsCurrent := 0, status := Status.ChangesRequested)
  }

  function AfterReview(rows: seq<PullRequest>, e: ReviewEvent): seq<PullRequest>
  {
    if !IsRelevantReview(e) then rows
    else match FirstMatch(rows, e.owner, e.repo, e.number)
      case None => rows
      case Some(pr) => ReplaceRow(rows, pr.id, Reviewed(pr, e.state))
  }

  /** The tracker whose message is re-rendered after a review event, if any. */
  function ReviewRefresh(rows: seq<PullRequest>, e: ReviewEvent): Option<int>
  {
    if !IsRelevantReview(e) then None
    else match FirstMatch(rows, e.owner, e.repo, e.number)
      case None => None
      case Some(pr) => Some(pr.trackerId)
  }

  /** The row after a pull_request event: a non-empty title is synced, and a close
      makes the row merged or closed. */
  function StateChanged(pr: PullRequest, e: PullRequestEvent): PullRequest
  {
    pr.(title := if e.title != "" then e.title else pr.title,
        status := if e.action == ClosedAction then (if e.merged then Status.Merged else Status.Closed) else pr.status)
  }

  function AfterStateChange(rows: seq<PullRequest>, e: PullRequestEvent): seq<PullRequest>
  {
    match FirstMatch(rows, e.owner, e.repo, e.number)
    case None => rows
    case Some(pr) => ReplaceRow(rows, pr.id, StateChanged(pr, e))
  }

  /** The tracker a pull_request event re-renders, and the one it asks to be checked
      for completion (only on a close). */
  function StateChangeEffects(rows: seq<PullRequest>, e: PullRequestEvent): (Option<int>, Option<int>)
  {
    match FirstMatch(rows, e.owner, e.repo, e.number)
    case None => (None, None)
    case Some(pr) => (Some(pr.trackerId), if e.action == ClosedAction then Some(pr.trackerId) else None)
  }

  /** In a table with unique ids, the row found is the only row with its id. */
  lemma FoundRowIsOnlyRowWithId(rows: seq<PullRequest>, pr: PullRequest)
    requires UniqueIds(rows) && pr in rows
    ensures forall i :: 0 <= i < |rows| && rows[i].id == pr.id ==> rows[i] == pr
  {
    var k :| 0 <= k < |rows| && rows[k] == pr;
    forall i | 0 <= i < |rows| && rows[i].id == pr.id ensures rows[i] == pr {
      assert !(i < k) && !(k < i);
    }
  }

  /** Updating the row found, column by column, replaces it by the updated row. */
  lemma UpdateReplacesFoundRow(rows: seq<PullRequest>, pr: PullRequest, c: Change)
    requires forall i :: 0 <= i < |rows| && rows[i].id == pr.id ==> rows[i] == pr
    ensures UpdateRows(rows, pr.id, c) == ReplaceRow(rows, pr.id, Apply(pr, c))
  {
  }

  lemma ReplaceThenUpdate(rows: seq<PullRequest>, id: int, row: PullRequest, c: Change)
    requires row.id == id
    ensures UpdateRows(ReplaceRow(rows, id, row), id, c) == ReplaceRow(rows, id, Apply(row, c))
  {
  }

  /** handlePRReview: ignore other actions and states and untracked pull requests;
      otherwise update the count and status, then ask for the tracker to be re-rendered. */
  method HandlePRReview(db: Database, e: ReviewEvent) returns (refresh: Option<int>)
    requires db.Valid()
    modifies db
    ensures db.Valid()
    ensures db.pullRequests == AfterReview(old(db.pullRequests), e)
    ensures refresh == ReviewRefresh(old(db.pullRequests), e)
    ensures db.trackers == old(db.trackers) && db.reviewers == old(db.reviewers)
  {
    if e.action != SubmittedAction {
      return None;
    }
    if e.state != ApprovedReviewState && e.state != ChangesRequestedReviewState {
      return None;
    }
    var found := db.FindPullRequest(e.owner, e.repo, e.number);
    if found.None? {
      return None;
    }
    var pr := found.value;
    ApplyReview(db, pr, e.state);
    refresh := Some(pr.trackerId);
  }

  /** The writes of handlePRReview for the row found: the count, then the status. */
  method ApplyReview(db: Database, pr: PullRequest, state: string)
    requires db.Valid() && pr in db.pullRequests
    modifies db
    ensures db.Valid()
    ensures db.pullRequests == ReplaceRow(old(db.pullRequests), pr.id, Reviewed(pr, state))
    ensures db.trackers == old(db.trackers) && db.reviewers == old(db.reviewers)
  {
    ghost var rows := db.pullRequests;
    FoundRowIsOnlyRowWithId(rows, pr);
    if state == ApprovedReviewState {
      var newApprovals := pr.approvalsCurrent + 1;
      db.UpdatePullRequestApprovals(pr.id, newApprovals);
      UpdateReplacesFoundRow(rows, pr, SetApprovals(newApprovals));
      if newApprovals >= pr.approvalsRequired && pr.status != Status.Approved {
        db.UpdatePullRequestStatus(pr.id, Status.Approved);
        ReplaceThenUpdate(rows, pr.id, pr.(approvalsCurrent := newApprovals), SetStatus(Status.Approved));
      }
    } else {
      db.UpdatePullRequestApprovals(pr.id, 0);
      UpdateReplacesFoundRow(rows, pr, SetApprovals(0));
      db.UpdatePullRequestStatus(pr.id, Status.ChangesRequested);
      ReplaceThenUpdate(rows, pr.id, pr.(approvalsCurrent := 0), SetStatus(Status.ChangesRequested));
    }
  }

  /** handlePRStateChange: sync the title on any action; on a close set merged or
      closed and ask for a completion check; in every tracked case ask for a re-render. */
  method HandlePRStateChange(db: Database, e: PullRequestEvent) returns (refresh: Option<int>, completionCheck: Option<int>)
    requires db.Valid()
    modifies db
    ensures db.Valid()
    ensures db.pullRequests == AfterStateChange(old(db.pullRequests), e)
    ensures (refresh, completionCheck) == StateChangeEffects(old(db.pullRequests), e)
    ensures db.trackers == old(db.trackers) && db.reviewers == old(db.reviewers)
  {
    var found := db.FindPullRequest(e.owner, e.repo, e.number);
    if found.None? {
      return None, None;
    }
    var pr := found.value;
    ghost var rows := db.pullRequests;
    FoundRowIsOnlyRowWithId(rows, pr);
    ghost var synced := pr.(title := if e.title != "" then e.title else pr.title);
    if e.title != "" && e.title != pr.title {
      db.UpdatePullRequestTitle(pr.id, e.title);
      UpdateReplacesFoundRow(rows, pr, SetTitle(e.title));
    } else {
      assert synced == pr;
      assert db.pullRequests == ReplaceRow(rows, pr.id, synced);
    }
    if e.action != ClosedAction {
      return Some(pr.trackerId), None;
    }
    var status := Status.Closed;
    if e.merged {
      status := Status.Merged;
    }
    db.UpdatePullRequestStatus(pr.id, status);
    ReplaceThenUpdate(rows, pr.id, synced, SetStatus(status));
    completionCheck := Some(pr.trackerId);
    refresh := Some(pr.trackerId);
  }

  // ---------------------------------------------------------------------
  // What a review event does to the table

  /** A review event that is not a submitted approval or change request, or one for
      a pull request nobody tracks, changes nothing and re-renders nothing. */
  lemma IgnoredReviewChangesNothing(rows: seq<PullRequest>, e: ReviewEvent)
    requires !IsRelevantReview(e) || forall p :: p in rows ==> !(p.owner == e.owner && p.repo == e.repo && p.number == e.number)
    ensures AfterReview(rows, e) == rows && ReviewRefresh(rows, e) == None
  {
  }

  /** A relevant review for the tracked row k changes row k and no other. An approval
      sets the count to exactly one more, and the row is approved afterwards exactly
      when the new count reaches the requirement or it already was; below the
      requirement the status is kept. A change request clears the count and marks the
      row, whatever it was before. No other column moves. */
  lemma ReviewUpdatesTrackedRow(rows: seq<PullRequest>, e: ReviewEvent, k: int)
    requires UniqueIds(rows) && IsRelevantReview(e) && 0 <= k < |rows|
    requires FirstMatch(rows, e.owner, e.repo, e.number) == Some(rows[k])
    ensures var after := AfterReview(rows, e);
            var pr := rows[k];
            && |after| == |rows|
            && (forall i :: 0 <= i < |rows| && i != k ==> after[i] == rows[i])
            && after[k].(approvalsCurrent := 0, status := "") == pr.(approvalsCurrent := 0, status := "")
            && (e.state == ApprovedReviewState ==>
                  && after[k].approvalsCurrent == pr.approvalsCurrent + 1
                  && (after[k].status == Status.Approved
                      <==> pr.approvalsCurrent + 1 >= pr.approvalsRequired || pr.status == Status.Approved)
                  && (pr.approvalsCurrent + 1 < pr.approvalsRequired ==> after[k].status == pr.status))
            && (e.state == ChangesRequestedReviewState ==>
                  after[k].approvalsCurrent == 0 && after[k].status == Status.ChangesRequested)
            && ReviewRefresh(rows, e) == Some(pr.trackerId)
  {
    forall i | 0 <= i < |rows| && i != k ensures rows[i].id != rows[k].id {
      assert i < k || k < i;
    }
  }

  /** The approval handler has no guard for finished pull requests: an approval that
      reaches the requirement turns a merged row into an approved one. */
  lemma ApprovalOverwritesMerged(pr: PullRequest)
    requires pr.status == Status.Merged && pr.approvalsCurrent + 1 >= pr.approvalsRequired
    ensures Reviewed(pr, ApprovedReviewState).status == Status.Approved
  {
  }

  // ---------------------------------------------------------------------
  // What a pull_request event does to the table

  /** An event for an untracked pull request changes nothing and asks for nothing. */
  lemma UntrackedStateChangeDoesNothing(rows: seq<PullRequest>, e: PullRequestEvent)
    requires forall p :: p in rows ==> !(p.owner == e.owner && p.repo == e.repo && p.number == e.number)
    ensures AfterStateChange(rows, e) == rows && StateChangeEffects(rows, e) == (None, None)
  {
  }

  /** An event for the tracked row k changes row k and no other. A close makes it
      merged or closed, whatever its status was; any other action leaves status and
      count alone. The title follows a non-empty event title and is kept otherwise. */
  lemma StateChangeUpdatesTrackedRow(rows: seq<PullRequest>, e: PullRequestEvent, k: int)
    requires UniqueIds(rows) && 0 <= k < |rows|
    requires FirstMatch(rows, e.owner, e.repo, e.number) == Some(rows[k])
    ensures var after := AfterStateChange(rows, e);
            var pr := rows[k];
            && |after| == |rows|
            && (forall i :: 0 <= i < |rows| && i != k ==> after[i] == rows[i])
            && after[k].(title := "", status := "") == pr.(title := "", status := "")
            && (e.action == ClosedAction ==> after[k].status == (if e.merged then Status.Merged else Status.Closed))
            && (e.action != ClosedAction ==> after[k].status == pr.status)
            && (after[k].title != pr.title <==> e.title != "" && e.title != pr.title)
            && (after[k].title != pr.title ==> after[k].title == e.title)
            && StateChangeEffects(rows, e).0 == Some(pr.trackerId)
            && (StateChangeEffects(rows, e).1.Some? <==> e.action == ClosedAction)
  {
    forall i | 0 <= i < |rows| && i != k ensures rows[i].id != rows[k].id {
      assert i < k || k < i;
    }
  }
}
