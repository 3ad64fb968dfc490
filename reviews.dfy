/** The GitHub-side reductions of server/github_handler.go: the required-approval
    lookup with its fallbacks (fetchRequiredApprovals) and the review snapshot
    (fetchPRReviewState). The REST answers are inputs; what is modelled is how the
    code turns them into numbers. */
module Reviews {
  import opened Wrappers

  // ---------------------------------------------------------------------
  // fetchRequiredApprovals

  /** Answer to "get repository": its default branch, or a failed call. */
  datatype RepoResponse = RepoFailed | RepoFound(defaultBranch: string)

  /** Answer to "get branch protection": 404, another failure, or the rules
      (with the required-review section, when there is one). */
  datatype ProtectionResponse =
    | ProtectionNotFound
    | ProtectionFailed
    | ProtectionFound(requiredReviews: Option<int>)

  /** The (count, error) pair fetchRequiredApprovals returns. */
  datatype RequiredApprovals = RequiredApprovals(count: int, failed: bool)

  /** The protection answer is only consulted when the default branch is known. */
  function FetchRequiredApprovals(repo: RepoResponse, protection: ProtectionResponse): (r: RequiredApprovals)
    // always at least one approval is required
    ensures r.count >= 1
    // an error is reported only for a failed repository call or a non-404 protection failure
    ensures r.failed <==> repo.RepoFailed? || (repo.defaultBranch != "" && protection.ProtectionFailed?)
    // any count but the default 1 comes from a configured rule on a known default branch
    ensures r.count != 1 ==> (repo.RepoFound? && repo.defaultBranch != ""
                              && protection == ProtectionFound(Some(r.count)))
    // a configured positive count is returned as it is
    ensures repo.RepoFound? && repo.defaultBranch != "" && protection.ProtectionFound?
            && protection.requiredReviews.Some? && protection.requiredReviews.value > 0
            ==> r == RequiredApprovals(protection.requiredReviews.value, false)
  {
    match repo
    case RepoFailed => RequiredApprovals(1, true)
    case RepoFound(branch) =>
      if branch == "" then RequiredApprovals(1, false)
      else
        match protection
        case ProtectionNotFound => RequiredApprovals(1, false)
        case ProtectionFailed => RequiredApprovals(1, true)
        case ProtectionFound(reviews) =>
          if reviews.Some? && reviews.value > 0 then RequiredApprovals(reviews.value, false)
          else RequiredApprovals(1, false)
  }

  /** What the submission handlers keep: the count, or 1 when the lookup reported an error. */
  function RequiredOrDefault(repo: RepoResponse, protection: ProtectionResponse): (n: int)
    ensures n >= 1
    ensures FetchRequiredApprovals(repo, protection).failed ==> n == 1
  {
    var r := FetchRequiredApprovals(repo, protection);
    if r.failed then 1 else r.count
  }

  // ---------------------------------------------------------------------
  // fetchPRReviewState

  const ApprovedReview: string := "APPROVED"
  const ChangesRequestedReview: string := "CHANGES_REQUESTED"
  const ClosedState: string := "closed"

  /** One entry of the review list: who reviewed and with which state. */
  datatype Review = Review(user: string, state: string)

  /** Answer to "get pull request". */
  datatype PullRequestResponse = PullRequestFailed | PullRequestFound(title: string, merged: bool, state: string)

  /** Answer to "list reviews" (one page of up to 100). */
  datatype ReviewsResponse = ReviewsFailed | ReviewsFound(reviews: seq<Review>)

  /** prReviewState. */
  datatype PRReviewState = PRReviewState(title: string, approvals: nat, changesRequested: bool, merged: bool, closed: bool)

  const ZeroState: PRReviewState := PRReviewState("", 0, false, false, false)

  /** Only these states are tracked; COMMENTED, PENDING and DISMISSED are skipped. */
  predicate IsActionable(state: string) { state == ApprovedReview || state == ChangesRequestedReview }

  /** latestByUser once the first |reviews| reviews have been visited, in list order. */
  function LatestByUser(reviews: seq<Review>): map<string, string>
  {
    if |reviews| == 0 then map[]
    else
      var latest := LatestByUser(reviews[..|reviews| - 1]);
      var r := reviews[|reviews| - 1];
      if IsActionable(r.state) then latest[r.user := r.state] else latest
  }

  function ApprovedUsers(latest: map<string, string>): set<string>
  {
    set u | u in latest && latest[u] == ApprovedReview
  }

  predicate SomeChangesRequested(latest: map<string, string>)
  {
    exists u :: u in latest && latest[u] == ChangesRequestedReview
  }

  /** The state fetchPRReviewState returns, and whether it returned no error.
      A failed review listing still returns title, merged and closed. */
  function Snapshot(pr: PullRequestResponse, reviews: ReviewsResponse): (r: (PRReviewState, bool))
    ensures !(r.0.merged && r.0.closed)
    ensures pr.PullRequestFailed? ==> r == (ZeroState, false)
    ensures r.1 <==> pr.PullRequestFound? && reviews.ReviewsFound?
    ensures !r.1 ==> r.0.approvals == 0 && !r.0.changesRequested
  {
    match pr
    case PullRequestFailed => (ZeroState, false)
    case PullRequestFound(title, merged, state) =>
      var base := PRReviewState(title, 0, false, merged, !merged && state == ClosedState);
      match reviews
      case ReviewsFailed => (base, false)
      case ReviewsFound(rs) =>
        var latest := LatestByUser(rs);
        (base.(approvals := |ApprovedUsers(latest)|, changesRequested := SomeChangesRequested(latest)), true)
  }

  /** The first loop of fetchPRReviewState: each user's latest actionable state. */
  method CollectLatestByUser(rs: seq<Review>) returns (latest: map<string, string>)
    ensures latest == LatestByUser(rs)
  {
    latest := map[];
    var i := 0;
    while i < |rs|
      invariant 0 <= i <= |rs|
      invariant latest == LatestByUser(rs[..i])
    {
      assert rs[..i + 1][..i] == rs[..i];
      if IsActionable(rs[i].state) {
        latest := latest[rs[i].user := rs[i].state];
      }
      i := i + 1;
    }
    assert rs[..|rs|] == rs;
  }

  /** The second loop of fetchPRReviewState: count approvals, look for a change request. */
  method CountLatest(latest: map<string, string>) returns (approvals: nat, changesRequested: bool)
    ensures approvals == |ApprovedUsers(latest)|
    ensures changesRequested == SomeChangesRequested(latest)
  {
    approvals, changesRequested := 0, false;
    var remaining := latest.Keys;
    while remaining != {}
      invariant remaining <= latest.Keys
      invariant approvals == |ApprovedUsers(latest) - remaining|
      invariant changesRequested <==> ChangesRequestedOutside(latest, remaining)
      decreases remaining
    {
      var u :| u in remaining;
      CountStep(latest, remaining, u);
      if latest[u] == ApprovedReview {
        approvals := approvals + 1;
      } else if latest[u] == ChangesRequestedReview {
        changesRequested := true;
      }
      remaining := remaining - {u};
    }
    assert ApprovedUsers(latest) - {} == ApprovedUsers(latest);
  }

  /** Some user already counted has CHANGES_REQUESTED as latest state. */
  ghost predicate ChangesRequestedOutside(latest: map<string, string>, remaining: set<string>)
  {
    exists u :: u in latest && u !in remaining && latest[u] == ChangesRequestedReview
  }

  /** Counting one more user adds one approval iff they approved, and finds a change
      request iff they requested changes or one was found already. */
  lemma CountStep(latest: map<string, string>, remaining: set<string>, u: string)
    requires u in remaining && remaining <= latest.Keys
    ensures |ApprovedUsers(latest) - (remaining - {u})|
            == |ApprovedUsers(latest) - remaining| + (if latest[u] == ApprovedReview then 1 else 0)
    ensures ChangesRequestedOutside(latest, remaining - {u})
            <==> ChangesRequestedOutside(latest, remaining) || latest[u] == ChangesRequestedReview
  {
    var done := ApprovedUsers(latest) - remaining;
    if latest[u] == ApprovedReview {
      assert ApprovedUsers(latest) - (remaining - {u}) == done + {u};
    } else {
      assert ApprovedUsers(latest) - (remaining - {u}) == done;
    }
    if latest[u] == ChangesRequestedReview {
      assert u in latest && u !in remaining - {u};
    }
  }

  /** fetchPRReviewState, given the two API answers. */
  method FetchPRReviewState(pr: PullRequestResponse, reviews: ReviewsResponse)
    returns (state: PRReviewState, ok: bool)
    ensures (state, ok) == Snapshot(pr, reviews)
  {
    if pr.PullRequestFailed? {
      return ZeroState, false;
    }
    state := PRReviewState(pr.title, 0, false, false, false);
    if pr.merged {
      state := state.(merged := true);
    } else if pr.state == ClosedState {
      state := state.(closed := true);
    }
    if reviews.ReviewsFailed? {
      return state, false;
    }
    var latest := CollectLatestByUser(reviews.reviews);
    var approvals, changesRequested := CountLatest(latest);
    state := state.(approvals := approvals, changesRequested := changesRequested);
    ok := true;
  }

  // ---------------------------------------------------------------------
  // What the reduction means

  /** Review i is the last APPROVED or CHANGES_REQUESTED review by user u. */
  ghost predicate IsLastActionable(reviews: seq<Review>, u: string, i: int)
  {
    && 0 <= i < |reviews|
    && reviews[i].user == u
    && IsActionable(reviews[i].state)
    && forall j :: i < j < |reviews| && reviews[j].user == u ==> !IsActionable(reviews[j].state)
  }

  /** The map holds, for every user, exactly the state of that user's last actionable review. */
  lemma {:induction false} LatestIsLastActionable(reviews: seq<Review>, u: string)
    ensures u in LatestByUser(reviews) <==> exists i :: IsLastActionable(reviews, u, i)
    ensures forall i :: IsLastActionable(reviews, u, i) ==> LatestByUser(reviews)[u] == reviews[i].state
  {
    if |reviews| > 0 {
      var n := |reviews| - 1;
      var prefix := reviews[..n];
      var r := reviews[n];
      LatestIsLastActionable(prefix, u);
      if r.user == u && IsActionable(r.state) {
        assert IsLastActionable(reviews, u, n);
        forall i | 0 <= i < n ensures !IsLastActionable(reviews, u, i) {
          assert i < n && reviews[n].user == u && IsActionable(reviews[n].state);
        }
      } else {
        forall i ensures IsLastActionable(reviews, u, i) <==> IsLastActionable(prefix, u, i) {
          if IsLastActionable(reviews, u, i) {
            assert i < n;
            assert forall j :: i < j < n ==> prefix[j] == reviews[j];
          }
          if IsLastActionable(prefix, u, i) {
            assert forall j :: i < j < n ==> prefix[j] == reviews[j];
          }
        }
      }
    }
  }

  /** Approvals counts the users whose last actionable review approves; the flag is set
      exactly when some user's last actionable review requests changes. */
  lemma SnapshotCountsLatestReviews(pr: PullRequestResponse, rs: seq<Review>)
    requires pr.PullRequestFound?
    ensures var s := Snapshot(pr, ReviewsFound(rs)).0;
            && (forall u :: u in ApprovedUsers(LatestByUser(rs))
                            <==> exists i :: IsLastActionable(rs, u, i) && rs[i].state == ApprovedReview)
            && s.approvals == |ApprovedUsers(LatestByUser(rs))|
            && (s.changesRequested
                <==> exists u, i :: IsLastActionable(rs, u, i) && rs[i].state == ChangesRequestedReview)
  {
    var latest := LatestByUser(rs);
    forall u ensures u in ApprovedUsers(latest)
                     <==> exists i :: IsLastActionable(rs, u, i) && rs[i].state == ApprovedReview {
      LatestIsLastActionable(rs, u);
    }
    if Snapshot(pr, ReviewsFound(rs)).0.changesRequested {
      var u :| u in latest && latest[u] == ChangesRequestedReview;
      LatestIsLastActionable(rs, u);
      var i :| IsLastActionable(rs, u, i);
      assert IsLastActionable(rs, u, i) && rs[i].state == ChangesRequestedReview;
    }
    if exists u, i :: IsLastActionable(rs, u, i) && rs[i].state == ChangesRequestedReview {
      var u, i :| IsLastActionable(rs, u, i) && rs[i].state == ChangesRequestedReview;
      LatestIsLastActionable(rs, u);
      assert u in latest && latest[u] == ChangesRequestedReview;
    }
  }

  function Reviewers(rs: seq<Review>): set<string>
  {
    set i | 0 <= i < |rs| :: rs[i].user
  }

  lemma {:induction false} LatestUsersReviewed(rs: seq<Review>)
    ensures LatestByUser(rs).Keys <= Reviewers(rs)
  {
    if |rs| > 0 {
      var prefix := rs[..|rs| - 1];
      LatestUsersReviewed(prefix);
      forall u | u in Reviewers(prefix) ensures u in Reviewers(rs) {
        var i :| 0 <= i < |prefix| && prefix[i].user == u;
        assert rs[i].user == u;
      }
      assert rs[|rs| - 1].user in Reviewers(rs);
    }
  }

  lemma SubsetCardinality<T>(a: set<T>, b: set<T>)
    requires a <= b
    ensures |a| <= |b|
  {
    assert b == a + (b - a);
  }

  /** A snapshot never counts more approvals than there are distinct reviewers. */
  lemma SnapshotApprovalsBounded(pr: PullRequestResponse, reviews: ReviewsResponse)
    ensures Snapshot(pr, reviews).0.approvals <= if reviews.ReviewsFound? then |Reviewers(reviews.reviews)| else 0
  {
    if pr.PullRequestFound? && reviews.ReviewsFound? {
      var rs := reviews.reviews;
      LatestUsersReviewed(rs);
      SubsetCardinality(ApprovedUsers(LatestByUser(rs)), Reviewers(rs));
    }
  }

  function ActionableOnly(rs: seq<Review>): (r: seq<Review>)
    ensures forall i :: 0 <= i < |r| ==> IsActionable(r[i].state)
  {
    if |rs| == 0 then []
    else if IsActionable(rs[|rs| - 1].state) then ActionableOnly(rs[..|rs| - 1]) + [rs[|rs| - 1]]
    else ActionableOnly(rs[..|rs| - 1])
  }

  /** Reviews in other states (comments, dismissals, pending) have no effect at all. */
  lemma {:induction false} OtherStatesIgnored(rs: seq<Review>)
    ensures LatestByUser(ActionableOnly(rs)) == LatestByUser(rs)
  {
    if |rs| > 0 {
      OtherStatesIgnored(rs[..|rs| - 1]);
      var r := rs[|rs| - 1];
      if IsActionable(r.state) {
        var a := ActionableOnly(rs[..|rs| - 1]) + [r];
        assert a[..|a| - 1] == ActionableOnly(rs[..|rs| - 1]);
      }
    }
  }
}
