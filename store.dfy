/** The SQL tables behind the tracker (db/pull_request.go, db/tracker.go) as an
    in-memory store: three tables of rows, with fresh auto-incremented ids for
    trackers and pull requests. Every statement is modelled as succeeding. */
module Store {
  import opened Wrappers

  /** A row of `trackers`. */
  datatype Tracker = Tracker(id: int, channelId: string, messageTs: string, title: string)

  /** A row of `pull_requests` (the PullRequest struct). */
  datatype PullRequest = PullRequest(
    id: int,
    trackerId: int,
    owner: string,
    repo: string,
    number: int,
    url: string,
    title: string,
    status: string,
    approvalsRequired: int,
    approvalsCurrent: int)

  /** A row of `reviewers`: a Slack user linked to a pull request. */
  datatype Reviewer = Reviewer(pullRequestId: int, slackUserId: string)

  /** The values the schema gives the columns an INSERT leaves out. The schema is not
      part of this model, so the values are a parameter of the store. */
  datatype ColumnDefaults = ColumnDefaults(
    trackerTitle: string,
    pullRequestTitle: string,
    status: string,
    approvalsRequired: int,
    approvalsCurrent: int)

  // ---------------------------------------------------------------------
  // Table invariants: ids are positive, below the next id to hand out, and
  // increase along the table (so they are distinct).

  ghost predicate TrackerIdsValid(rows: seq<Tracker>, next: int)
  {
    && (forall i :: 0 <= i < |rows| ==> 1 <= rows[i].id < next)
    && (forall i, j :: 0 <= i < j < |rows| ==> rows[i].id < rows[j].id)
  }

  ghost predicate PullRequestIdsValid(rows: seq<PullRequest>, next: int)
  {
    && (forall i :: 0 <= i < |rows| ==> 1 <= rows[i].id < next)
    && UniqueIds(rows)
  }

  ghost predicate UniqueIds(rows: seq<PullRequest>)
  {
    forall i, j :: 0 <= i < j < |rows| ==> rows[i].id < rows[j].id
  }

  /** A row appended with the next id keeps the table valid, one id further on. */
  lemma AppendTracker(rows: seq<Tracker>, next: int, t: Tracker)
    requires TrackerIdsValid(rows, next) && t.id == next && next >= 1
    ensures TrackerIdsValid(rows + [t], next + 1)
  {
    var r := rows + [t];
    assert forall i :: 0 <= i < |rows| ==> r[i] == rows[i];
  }

  lemma AppendPullRequest(rows: seq<PullRequest>, next: int, p: PullRequest)
    requires PullRequestIdsValid(rows, next) && p.id == next && next >= 1
    ensures PullRequestIdsValid(rows + [p], next + 1)
  {
    var r := rows + [p];
    assert forall i :: 0 <= i < |rows| ==> r[i] == rows[i];
  }

  // ---------------------------------------------------------------------
  // Single-column updates of pull_requests

  /** The column an UPDATE ... WHERE id = ? statement sets. */
  datatype Change = SetApprovals(approvals: int) | SetTitle(title: string) | SetStatus(status: string)

  function Apply(pr: PullRequest, c: Change): PullRequest
  {
    match c
    case SetApprovals(n) => pr.(approvalsCurrent := n)
    case SetTitle(t) => pr.(title := t)
    case SetStatus(s) => pr.(status := s)
  }

  /** The table after `UPDATE pull_requests SET <column> WHERE id = <id>`. */
  function UpdateRows(rows: seq<PullRequest>, id: int, c: Change): seq<PullRequest>
  {
    seq(|rows|, i requires 0 <= i < |rows| => if rows[i].id == id then Apply(rows[i], c) else rows[i])
  }

  /** An update sets its one column on the rows with that id and changes nothing else:
      every row keeps its id and every other column, other rows are untouched, and an
      id that is not in the table leaves the table as it was. */
  lemma UpdateOnlyTouchesColumn(rows: seq<PullRequest>, id: int, c: Change)
    ensures var r := UpdateRows(rows, id, c);
            && |r| == |rows|
            && (forall i :: 0 <= i < |rows| && rows[i].id != id ==> r[i] == rows[i])
            && (forall i :: 0 <= i < |rows| && rows[i].id == id ==>
                  && r[i].id == id
                  && r[i].approvalsCurrent == (if c.SetApprovals? then c.approvals else rows[i].approvalsCurrent)
                  && r[i].title == (if c.SetTitle? then c.title else rows[i].title)
                  && r[i].status == (if c.SetStatus? then c.status else rows[i].status)
                  && r[i].(approvalsCurrent := 0, title := "", status := "")
                     == rows[i].(approvalsCurrent := 0, title := "", status := ""))
            && ((forall i :: 0 <= i < |rows| ==> rows[i].id != id) ==> r == rows)
  {
  }

  // ---------------------------------------------------------------------
  // Queries

  /** The row FindPullRequest reads: the first row for (owner, repo, number). */
  function FirstMatch(rows: seq<PullRequest>, owner: string, repo: string, number: int): (r: Option<PullRequest>)
    ensures r.Some? ==> r.value in rows && r.value.owner == owner && r.value.repo == repo && r.value.number == number
    ensures r.None? <==> forall p :: p in rows ==> !(p.owner == owner && p.repo == repo && p.number == number)
  {
    if |rows| == 0 then None
    else if rows[0].owner == owner && rows[0].repo == repo && rows[0].number == number then Some(rows[0])
    else FirstMatch(rows[1..], owner, repo, number)
  }

  /** The rows of one tracker, in table order. */
  function RowsOfTracker(rows: seq<PullRequest>, trackerId: int): seq<PullRequest>
  {
    if |rows| == 0 then []
    else
      var last := rows[|rows| - 1];
      RowsOfTracker(rows[..|rows| - 1], trackerId) + (if last.trackerId == trackerId then [last] else [])
  }

  /** GetPullRequestsByTracker returns exactly the rows whose tracker_id matches. */
  lemma {:induction false} RowsOfTrackerExact(rows: seq<PullRequest>, trackerId: int)
    ensures forall p :: p in RowsOfTracker(rows, trackerId) <==> p in rows && p.trackerId == trackerId
  {
    if |rows| > 0 {
      var prefix := rows[..|rows| - 1];
      RowsOfTrackerExact(prefix, trackerId);
      assert rows == prefix + [rows[|rows| - 1]];
    }
  }

  /** Reading the rows of a tracker from two tables one after the other. */
  lemma {:induction false} RowsOfTrackerAppend(a: seq<PullRequest>, b: seq<PullRequest>, trackerId: int)
    ensures RowsOfTracker(a + b, trackerId) == RowsOfTracker(a, trackerId) + RowsOfTracker(b, trackerId)
  {
    if |b| > 0 {
      var init := b[..|b| - 1];
      RowsOfTrackerAppend(a, init, trackerId);
      assert (a + b)[..|a + b| - 1] == a + init;
    } else {
      assert a + b == a;
    }
  }

  /** The Slack users linked to one pull request, in table order. */
  function ReviewersOf(links: seq<Reviewer>, pullRequestId: int): seq<string>
  {
    if |links| == 0 then []
    else
      var last := links[|links| - 1];
      ReviewersOf(links[..|links| - 1], pullRequestId)
        + (if last.pullRequestId == pullRequestId then [last.slackUserId] else [])
  }

  /** GetReviewersByPR returns every user linked to the pull request, once per link,
      so a user linked twice comes back twice. */
  lemma {:induction false} ReviewersOfCountsLinks(links: seq<Reviewer>, pullRequestId: int, user: string)
    ensures multiset(ReviewersOf(links, pullRequestId))[user] == multiset(links)[Reviewer(pullRequestId, user)]
  {
    if |links| > 0 {
      var prefix := links[..|links| - 1];
      ReviewersOfCountsLinks(prefix, pullRequestId, user);
      assert links == prefix + [links[|links| - 1]];
    }
  }

  /** Reading the users of a pull request from two link tables one after the other. */
  lemma {:induction false} ReviewersOfAppend(a: seq<Reviewer>, b: seq<Reviewer>, pullRequestId: int)
    ensures ReviewersOf(a + b, pullRequestId) == ReviewersOf(a, pullRequestId) + ReviewersOf(b, pullRequestId)
  {
    if |b| > 0 {
      var init := b[..|b| - 1];
      ReviewersOfAppend(a, init, pullRequestId);
      assert (a + b)[..|a + b| - 1] == a + init;
    } else {
      assert a + b == a;
    }
  }

  /** The table without the rows of one id (DeletePullRequest, which is not part of
      this model, is read as doing this). */
  function WithoutPullRequest(rows: seq<PullRequest>, id: int): seq<PullRequest>
  {
    if |rows| == 0 then []
    else (if rows[0].id == id then [] else [rows[0]]) + WithoutPullRequest(rows[1..], id)
  }

  /** The rows left are exactly those of other ids. */
  lemma {:induction false} WithoutPullRequestKeeps(rows: seq<PullRequest>, id: int)
    ensures forall p :: p in WithoutPullRequest(rows, id) <==> p in rows && p.id != id
  {
    if |rows| > 0 {
      WithoutPullRequestKeeps(rows[1..], id);
      assert rows == [rows[0]] + rows[1..];
    }
  }

  /** Deleting rows keeps the table valid: the rows left keep their order. */
  lemma {:induction false} WithoutPullRequestValid(rows: seq<PullRequest>, next: int, id: int)
    requires PullRequestIdsValid(rows, next)
    ensures PullRequestIdsValid(WithoutPullRequest(rows, id), next)
  {
    WithoutPullRequestKeeps(rows, id);
    WithoutPullRequestOrdered(rows, id);
    var r := WithoutPullRequest(rows, id);
    forall i | 0 <= i < |r| ensures 1 <= r[i].id < next {
      assert r[i] in rows;
    }
  }

  lemma {:induction false} WithoutPullRequestOrdered(rows: seq<PullRequest>, id: int)
    requires UniqueIds(rows)
    ensures UniqueIds(WithoutPullRequest(rows, id))
  {
    if |rows| > 0 {
      var rest := WithoutPullRequest(rows[1..], id);
      WithoutPullRequestOrdered(rows[1..], id);
      if rows[0].id != id {
        WithoutPullRequestKeeps(rows[1..], id);
        forall p | p in rest ensures rows[0].id < p.id {
          var k :| 0 <= k < |rows[1..]| && rows[1..][k] == p;
          assert rows[k + 1] == p;
        }
        Cons(rows[0], rest);
      } else {
        assert [] + rest == rest;
      }
    }
  }

  /** A row with a smaller id than every row of an ordered table, put in front. */
  lemma Cons(p: PullRequest, rest: seq<PullRequest>)
    requires UniqueIds(rest) && forall q :: q in rest ==> p.id < q.id
    ensures UniqueIds([p] + rest)
  {
    var r := [p] + rest;
    forall i, j | 0 <= i < j < |r| ensures r[i].id < r[j].id {
      assert r[j] == rest[j - 1];
      if i > 0 {
        assert r[i] == rest[i - 1];
      }
    }
  }

  /** The reviewer table without the links of one pull request (DeleteReviewersByPR,
      which is not part of this model, is read as doing this). */
  function WithoutReviewersOf(links: seq<Reviewer>, pullRequestId: int): seq<Reviewer>
  {
    if |links| == 0 then []
    else
      var last := links[|links| - 1];
      WithoutReviewersOf(links[..|links| - 1], pullRequestId) + (if last.pullRequestId == pullRequestId then [] else [last])
  }

  /** After the delete the pull request has no users left and every other pull request
      keeps its own, in order. */
  lemma {:induction false} ReviewersOfWithout(links: seq<Reviewer>, pullRequestId: int, other: int)
    ensures ReviewersOf(WithoutReviewersOf(links, pullRequestId), other)
            == if other == pullRequestId then [] else ReviewersOf(links, other)
  {
    if |links| > 0 {
      var init := links[..|links| - 1];
      var last := links[|links| - 1];
      ReviewersOfWithout(init, pullRequestId, other);
      ReviewersOfAppend(WithoutReviewersOf(init, pullRequestId), if last.pullRequestId == pullRequestId then [] else [last], other);
      ReviewersOfAppend(init, [last], other);
      assert init + [last] == links;
      assert [last][..0] == [];
    }
  }

  /** The first tracker with an id (GetTrackerByID, which is not part of this model,
      is read as doing this). */
  function TrackerById(rows: seq<Tracker>, id: int): (r: Option<Tracker>)
    ensures r.Some? ==> r.value in rows && r.value.id == id
    ensures r.None? <==> forall t :: t in rows ==> t.id != id
  {
    if |rows| == 0 then None
    else if rows[0].id == id then Some(rows[0])
    else TrackerById(rows[1..], id)
  }

  // ---------------------------------------------------------------------

  /** The trackers table after UPDATE trackers SET title = ? WHERE id = ?: that
      tracker's title changes and nothing else. */
  function Retitled(rows: seq<Tracker>, id: int, title: string): (r: seq<Tracker>)
    ensures |r| == |rows|
    ensures forall i :: 0 <= i < |rows| ==> r[i] == if rows[i].id == id then rows[i].(title := title) else rows[i]
  {
    seq(|rows|, i requires 0 <= i < |rows| => if rows[i].id == id then rows[i].(title := title) else rows[i])
  }

  class Database {
    var trackers: seq<Tracker>
    var pullRequests: seq<PullRequest>
    var reviewers: seq<Reviewer>
    var nextTrackerId: int
    var nextPullRequestId: int
    const defaults: ColumnDefaults

    ghost predicate Valid()
      reads this
    {
      && nextTrackerId >= 1 && nextPullRequestId >= 1
      && TrackerIdsValid(trackers, nextTrackerId)
      && PullRequestIdsValid(pullRequests, nextPullRequestId)
    }

    constructor (defaults: ColumnDefaults)
      ensures Valid()
      ensures this.defaults == defaults
      ensures trackers == [] && pullRequests == [] && reviewers == []
    {
      this.defaults := defaults;
      trackers, pullRequests, reviewers := [], [], [];
      nextTrackerId, nextPullRequestId := 1, 1;
    }

    /** CreateTracker: one new row with the channel, an empty message timestamp and
        the given title; its id was not used before. */
    method CreateTracker(channelId: string, title: string) returns (id: int)
      requires Valid()
      modifies this
      ensures Valid()
      ensures trackers == old(trackers) + [Tracker(id, channelId, "", title)]
      ensures forall t :: t in old(trackers) ==> t.id != id
      ensures pullRequests == old(pullRequests) && reviewers == old(reviewers)
    {
      id := nextTrackerId;
      forall t | t in trackers ensures t.id < id {
        var i :| 0 <= i < |trackers| && trackers[i] == t;
      }
      AppendTracker(trackers, id, Tracker(id, channelId, "", title));
      trackers := trackers + [Tracker(id, channelId, "", title)];
      nextTrackerId := nextTrackerId + 1;
    }

    /** UpdateTrackerMessageTS: only the timestamp of that tracker changes. */
    method UpdateTrackerMessageTS(trackerId: int, messageTs: string)
      requires Valid()
      modifies this
      ensures Valid()
      ensures |trackers| == |old(trackers)|
      ensures forall i :: 0 <= i < |trackers| ==>
                trackers[i] == if old(trackers)[i].id == trackerId then old(trackers)[i].(messageTs := messageTs)
                               else old(trackers)[i]
      ensures pullRequests == old(pullRequests) && reviewers == old(reviewers)
    {
      var rows := trackers;
      trackers := seq(|rows|, i requires 0 <= i < |rows| =>
        if rows[i].id == trackerId then rows[i].(messageTs := messageTs) else rows[i]);
    }

    /** UpdateTrackerTitle (not part of this model; read as its name says). */
    method UpdateTrackerTitle(trackerId: int, title: string)
      requires Valid()
      modifies this
      ensures Valid()
      ensures trackers == Retitled(old(trackers), trackerId, title)
      ensures pullRequests == old(pullRequests) && reviewers == old(reviewers)
    {
      trackers := Retitled(trackers, trackerId, title);
    }

    function GetTrackerByID(id: int): (r: Option<Tracker>)
      reads this
      ensures r.Some? ==> r.value in trackers && r.value.id == id
      ensures r.None? <==> forall t :: t in trackers ==> t.id != id
    {
      TrackerById(trackers, id)
    }

    /** CreatePullRequest (db/pull_request.go): one new row with exactly the given
        values, status and current approvals from the schema, and a fresh id. */
    method CreatePullRequest(trackerId: int, owner: string, repo: string, number: int, url: string,
                             title: string, approvalsRequired: int) returns (id: int)
      requires Valid()
      modifies this
      ensures Valid()
      ensures pullRequests == old(pullRequests) + [PullRequest(id, trackerId, owner, repo, number, url, title,
                                                              defaults.status, approvalsRequired, defaults.approvalsCurrent)]
      ensures forall p :: p in old(pullRequests) ==> p.id != id
      ensures trackers == old(trackers) && reviewers == old(reviewers)
    {
      id := nextPullRequestId;
      forall p | p in pullRequests ensures p.id < id {
        var i :| 0 <= i < |pullRequests| && pullRequests[i] == p;
      }
      var row := PullRequest(id, trackerId, owner, repo, number, url, title,
                             defaults.status, approvalsRequired, defaults.approvalsCurrent);
      AppendPullRequest(pullRequests, id, row);
      pullRequests := pullRequests + [row];
      nextPullRequestId := nextPullRequestId + 1;
    }

    /** The older CreatePullRequest (db/tracker.go): tracker, owner, repo, number and
        url only; every other column from the schema. */
    method CreateUntitledPullRequest(trackerId: int, owner: string, repo: string, number: int, url: string)
      returns (id: int)
      requires Valid()
      modifies this
      ensures Valid()
      ensures pullRequests == old(pullRequests) + [PullRequest(id, trackerId, owner, repo, number, url,
                                                              defaults.pullRequestTitle, defaults.status,
                                                              defaults.approvalsRequired, defaults.approvalsCurrent)]
      ensures forall p :: p in old(pullRequests) ==> p.id != id
      ensures trackers == old(trackers) && reviewers == old(reviewers)
    {
      id := CreatePullRequest(trackerId, owner, repo, number, url, defaults.pullRequestTitle, defaults.approvalsRequired);
    }

    /** CreateReviewer: exactly one new (pull request, Slack user) link. */
    method CreateReviewer(pullRequestId: int, slackUserId: string)
      requires Valid()
      modifies this
      ensures Valid()
      ensures reviewers == old(reviewers) + [Reviewer(pullRequestId, slackUserId)]
      ensures trackers == old(trackers) && pullRequests == old(pullRequests)
    {
      reviewers := reviewers + [Reviewer(pullRequestId, slackUserId)];
    }

    /** FindPullRequest: a row for (owner, repo, number), or none when nothing matches
        (the ErrNoRows case). */
    function FindPullRequest(owner: string, repo: string, number: int): (r: Option<PullRequest>)
      reads this
      ensures r.Some? ==> r.value in pullRequests && r.value.owner == owner && r.value.repo == repo
                          && r.value.number == number
      ensures r.None? <==> forall p :: p in pullRequests ==> !(p.owner == owner && p.repo == repo && p.number == number)
    {
      FirstMatch(pullRequests, owner, repo, number)
    }

    /** UpdatePullRequestApprovals, UpdatePullRequestTitle and UpdatePullRequestStatus:
        one column of the row with that id. */
    method UpdatePullRequest(pullRequestId: int, c: Change)
      requires Valid()
      modifies this
      ensures Valid()
      ensures pullRequests == UpdateRows(old(pullRequests), pullRequestId, c)
      ensures trackers == old(trackers) && reviewers == old(reviewers)
    {
      pullRequests := UpdateRows(pullRequests, pullRequestId, c);
    }

    method UpdatePullRequestApprovals(pullRequestId: int, approvals: int)
      requires Valid()
      modifies this
      ensures Valid()
      ensures pullRequests == UpdateRows(old(pullRequests), pullRequestId, SetApprovals(approvals))
      ensures trackers == old(trackers) && reviewers == old(reviewers)
    {
      UpdatePullRequest(pullRequestId, SetApprovals(approvals));
    }

    method UpdatePullRequestTitle(pullRequestId: int, title: string)
      requires Valid()
      modifies this
      ensures Valid()
      ensures pullRequests == UpdateRows(old(pullRequests), pullRequestId, SetTitle(title))
      ensures trackers == old(trackers) && reviewers == old(reviewers)
    {
      UpdatePullRequest(pullRequestId, SetTitle(title));
    }

    method UpdatePullRequestStatus(pullRequestId: int, status: string)
      requires Valid()
      modifies this
      ensures Valid()
      ensures pullRequests == UpdateRows(old(pullRequests), pullRequestId, SetStatus(status))
      ensures trackers == old(trackers) && reviewers == old(reviewers)
    {
      UpdatePullRequest(pullRequestId, SetStatus(status));
    }

    /** GetPullRequestsByTracker: scan the table, keep the tracker's rows. */
    method GetPullRequestsByTracker(trackerId: int) returns (prs: seq<PullRequest>)
      ensures prs == RowsOfTracker(pullRequests, trackerId)
    {
      prs := [];
      var i := 0;
      while i < |pullRequests|
        invariant 0 <= i <= |pullRequests|
        invariant prs == RowsOfTracker(pullRequests[..i], trackerId)
      {
        assert pullRequests[..i + 1][..i] == pullRequests[..i];
        if pullRequests[i].trackerId == trackerId {
          prs := prs + [pullRequests[i]];
        }
        i := i + 1;
      }
      assert pullRequests[..i] == pullRequests;
    }

    /** GetReviewersByPR: scan the links, keep the users of that pull request. */
    method GetReviewersByPR(pullRequestId: int) returns (userIds: seq<string>)
      ensures userIds == ReviewersOf(reviewers, pullRequestId)
    {
      userIds := [];
      var i := 0;
      while i < |reviewers|
        invariant 0 <= i <= |reviewers|
        invariant userIds == ReviewersOf(reviewers[..i], pullRequestId)
      {
        assert reviewers[..i + 1][..i] == reviewers[..i];
        if reviewers[i].pullRequestId == pullRequestId {
          userIds := userIds + [reviewers[i].slackUserId];
        }
        i := i + 1;
      }
      assert reviewers[..i] == reviewers;
    }

    /** DeletePullRequest (not part of this model; read as its name says). */
    method DeletePullRequest(pullRequestId: int)
      requires Valid()
      modifies this
      ensures Valid()
      ensures pullRequests == WithoutPullRequest(old(pullRequests), pullRequestId)
      ensures trackers == old(trackers) && reviewers == old(reviewers)
    {
      WithoutPullRequestValid(pullRequests, nextPullRequestId, pullRequestId);
      pullRequests := WithoutPullRequest(pullRequests, pullRequestId);
    }

    /** DeleteReviewersByPR (not part of this model; read as its name says). */
    method DeleteReviewersByPR(pullRequestId: int)
      requires Valid()
      modifies this
      ensures Valid()
      ensures reviewers == WithoutReviewersOf(old(reviewers), pullRequestId)
      ensures trackers == old(trackers) && pullRequests == old(pullRequests)
    {
      reviewers := WithoutReviewersOf(reviewers, pullRequestId);
    }
  }
}
