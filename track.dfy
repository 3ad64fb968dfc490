/** Creating a tracker from a submitted "Track PRs" form: a tracker row, one row per
    submitted pull request with its requirement and initial review state, the chosen
    reviewers linked to each, then the Slack message and its timestamp. Two versions
    exist: the modal handler, and the older one next to the slash command. */
module Track {
  import opened Wrappers
  import opened Text
  import opened PullRequestUrl
  import opened Reviews
  import opened Status
  import opened Store
  import opened Forms
  import opened Submission
  import opened Messages

  /** Which of the two submission handlers runs. The modal handler stores the title
      GitHub reports and always applies the snapshot, even a failed one; the older
      handler leaves the title column alone and applies only a complete snapshot. */
  datatype Flow = ModalFlow | ServerFlow

  /** What the HTTP handler answers Slack. */
  datatype Response = Accepted | FieldError(blockId: string, cause: SubmitError) | BadRequest | InternalError

  /** The row one submitted pull request leaves behind. */
  function TrackedRow(id: int, trackerId: int, p: ParsedPR, gh: GitHub, flow: Flow, defaults: ColumnDefaults)
    : (row: PullRequest)
    ensures row.id == id && row.trackerId == trackerId && row.url == p.url
    ensures row.approvalsRequired == RequiredFor(gh, p.owner, p.repo)
  {
    var snap := SnapshotFor(gh, p);
    var required := RequiredFor(gh, p.owner, p.repo);
    match flow
    case ModalFlow => NewRow(id, trackerId, p, required, snap.0.title, snap.0, true, defaults)
    case ServerFlow => NewRow(id, trackerId, p, required, defaults.pullRequestTitle, snap.0, snap.1, defaults)
  }

  /** The rows of all submitted pull requests, in order, with the ids handed out. */
  function NewRows(ids: seq<int>, trackerId: int, prs: seq<ParsedPR>, gh: GitHub, flow: Flow,
                   defaults: ColumnDefaults): (rows: seq<PullRequest>)
    requires |ids| == |prs|
    ensures |rows| == |prs|
  {
    if |prs| == 0 then []
    else NewRows(ids[..|ids| - 1], trackerId, prs[..|prs| - 1], gh, flow, defaults)
         + [TrackedRow(ids[|ids| - 1], trackerId, prs[|prs| - 1], gh, flow, defaults)]
  }

  /** Row k is the row of the k-th pull request, under the k-th id. */
  lemma {:induction false} NewRowsAt(ids: seq<int>, trackerId: int, prs: seq<ParsedPR>, gh: GitHub, flow: Flow,
                                     defaults: ColumnDefaults, k: nat)
    requires |ids| == |prs| && k < |prs|
    ensures NewRows(ids, trackerId, prs, gh, flow, defaults)[k] == TrackedRow(ids[k], trackerId, prs[k], gh, flow, defaults)
  {
    if k < |prs| - 1 {
      NewRowsAt(ids[..|ids| - 1], trackerId, prs[..|prs| - 1], gh, flow, defaults, k);
    }
  }

  /** The reviewer links of all new pull requests: every user, for each of them. */
  function AllLinks(ids: seq<int>, users: seq<string>): seq<Reviewer>
  {
    if |ids| == 0 then [] else AllLinks(ids[..|ids| - 1], users) + Links(ids[|ids| - 1], users)
  }

  /** New ids differ from every older row's and from each other. */
  ghost predicate FreshIds(rows: seq<PullRequest>, ids: seq<int>)
  {
    && (forall k, q :: 0 <= k < |ids| && q in rows ==> q.id != ids[k])
    && Distinct(ids)
  }

  /** One pull request: fetch its review state, insert it with its requirement and
      initial state. */
  method InsertTracked(db: Database, gh: GitHub, flow: Flow, trackerId: int, p: ParsedPR, required: int)
    returns (id: int)
    requires db.Valid()
    requires required == RequiredFor(gh, p.owner, p.repo)
    modifies db
    ensures db.Valid()
    ensures db.pullRequests == old(db.pullRequests) + [TrackedRow(id, trackerId, p, gh, flow, db.defaults)]
    ensures db.reviewers == old(db.reviewers) && db.trackers == old(db.trackers)
    ensures forall q :: q in old(db.pullRequests) ==> q.id != id
  {
    var snap, ok := FetchPRReviewState(gh.pullRequest(p.owner, p.repo, p.number), gh.reviews(p.owner, p.repo, p.number));
    match flow {
      case ModalFlow =>
        id := InsertPullRequest(db, trackerId, p, required, snap.title, snap, true);
      case ServerFlow =>
        id := InsertPullRequest(db, trackerId, p, required, db.defaults.pullRequestTitle, snap, ok);
    }
  }

  /** One pull request of a new tracker, with every chosen reviewer linked to it. */
  method TrackOne(db: Database, gh: GitHub, flow: Flow, trackerId: int, p: ParsedPR, required: int,
                  users: seq<string>) returns (id: int)
    requires db.Valid()
    requires required == RequiredFor(gh, p.owner, p.repo)
    modifies db
    ensures db.Valid()
    ensures db.pullRequests == old(db.pullRequests) + [TrackedRow(id, trackerId, p, gh, flow, db.defaults)]
    ensures db.reviewers == old(db.reviewers) + Links(id, users)
    ensures db.trackers == old(db.trackers)
    ensures forall q :: q in old(db.pullRequests) ==> q.id != id
  {
    id := InsertTracked(db, gh, flow, trackerId, p, required);
    AddReviewers(db, id, users);
  }

  ghost predicate Distinct(ids: seq<int>)
  {
    forall j, k :: 0 <= j < k < |ids| ==> ids[j] != ids[k]
  }

  /** The insert loop over the submitted pull requests, in order. */
  method TrackEach(db: Database, gh: GitHub, flow: Flow, trackerId: int, prs: seq<ParsedPR>,
                   cache: map<string, int>, users: seq<string>) returns (ids: seq<int>)
    requires db.Valid()
    requires forall k :: 0 <= k < |prs| ==> RepoKey(prs[k]) in cache
                                            && cache[RepoKey(prs[k])] == RequiredFor(gh, prs[k].owner, prs[k].repo)
    modifies db
    ensures db.Valid()
    ensures |ids| == |prs|
    ensures db.pullRequests == old(db.pullRequests) + NewRows(ids, trackerId, prs, gh, flow, db.defaults)
    ensures db.reviewers == old(db.reviewers) + AllLinks(ids, users)
    ensures db.trackers == old(db.trackers)
    ensures FreshIds(old(db.pullRequests), ids)
  {
    ids := [];
    var i := 0;
    while i < |prs|
      invariant 0 <= i <= |prs| && |ids| == i
      invariant db.Valid()
      invariant db.pullRequests == old(db.pullRequests) + NewRows(ids, trackerId, prs[..i], gh, flow, db.defaults)
      invariant db.reviewers == old(db.reviewers) + AllLinks(ids, users)
      invariant db.trackers == old(db.trackers)
      invariant FreshIds(old(db.pullRequests), ids)
    {
      var id := TrackNext(db, gh, flow, trackerId, prs, i, cache[RepoKey(prs[i])], users, ids,
                          old(db.pullRequests), old(db.reviewers));
      ids := ids + [id];
      i := i + 1;
    }
    assert prs[..i] == prs;
  }

  /** One iteration of the insert loop: the tables grow by the row and links of prs[i]. */
  method TrackNext(db: Database, gh: GitHub, flow: Flow, trackerId: int, prs: seq<ParsedPR>, i: nat,
                   required: int, users: seq<string>, ids: seq<int>,
                   ghost rows: seq<PullRequest>, ghost links: seq<Reviewer>) returns (id: int)
    requires db.Valid() && i < |prs| && |ids| == i
    requires required == RequiredFor(gh, prs[i].owner, prs[i].repo)
    requires db.pullRequests == rows + NewRows(ids, trackerId, prs[..i], gh, flow, db.defaults)
    requires db.reviewers == links + AllLinks(ids, users)
    requires FreshIds(rows, ids)
    modifies db
    ensures db.Valid()
    ensures db.pullRequests == rows + NewRows(ids + [id], trackerId, prs[..i + 1], gh, flow, db.defaults)
    ensures db.reviewers == links + AllLinks(ids + [id], users)
    ensures db.trackers == old(db.trackers)
    ensures FreshIds(rows, ids + [id])
  {
    id := TrackOne(db, gh, flow, trackerId, prs[i], required, users);
    FreshStep(rows, ids, trackerId, prs[..i], gh, flow, db.defaults, id);
    NewRowsStep(ids, id, trackerId, prs, i, gh, flow, db.defaults);
    AllLinksStep(ids, id, users);
    AppendAssoc(rows, NewRows(ids, trackerId, prs[..i], gh, flow, db.defaults),
                [TrackedRow(id, trackerId, prs[i], gh, flow, db.defaults)]);
    AppendAssoc(links, AllLinks(ids, users), Links(id, users));
  }

  lemma NewRowsStep(ids: seq<int>, id: int, trackerId: int, prs: seq<ParsedPR>, i: nat, gh: GitHub, flow: Flow,
                    defaults: ColumnDefaults)
    requires i < |prs| && |ids| == i
    ensures NewRows(ids + [id], trackerId, prs[..i + 1], gh, flow, defaults)
            == NewRows(ids, trackerId, prs[..i], gh, flow, defaults) + [TrackedRow(id, trackerId, prs[i], gh, flow, defaults)]
  {
    assert (ids + [id])[..i] == ids && prs[..i + 1][..i] == prs[..i];
  }

  lemma AllLinksStep(ids: seq<int>, id: int, users: seq<string>)
    ensures AllLinks(ids + [id], users) == AllLinks(ids, users) + Links(id, users)
  {
    assert (ids + [id])[..|ids|] == ids;
  }

  lemma AppendAssoc<T>(a: seq<T>, b: seq<T>, c: seq<T>)
    ensures (a + b) + c == a + (b + c)
  {
  }

  lemma FreshStep(oldRows: seq<PullRequest>, ids: seq<int>, trackerId: int, prs: seq<ParsedPR>, gh: GitHub,
                  flow: Flow, defaults: ColumnDefaults, id: int)
    requires |ids| == |prs| && FreshIds(oldRows, ids)
    requires forall q :: q in oldRows + NewRows(ids, trackerId, prs, gh, flow, defaults) ==> q.id != id
    ensures FreshIds(oldRows, ids + [id])
  {
    var added := NewRows(ids, trackerId, prs, gh, flow, defaults);
    forall k | 0 <= k < |ids| ensures ids[k] != id {
      NewRowsAt(ids, trackerId, prs, gh, flow, defaults, k);
      assert (oldRows + added)[|oldRows| + k] == added[k];
    }
  }

  /** What fetchRequiredApprovals reports for each pull request, in order. */
  function Requirements(gh: GitHub, prs: seq<ParsedPR>): (required: seq<int>)
    ensures |required| == |prs|
    ensures forall k :: 0 <= k < |prs| ==> required[k] == RequiredFor(gh, prs[k].owner, prs[k].repo) >= 1
  {
    seq(|prs|, k requires 0 <= k < |prs| => RequiredFor(gh, prs[k].owner, prs[k].repo))
  }

  /** When the approval cache holds what GitHub requires of each repository, every
      line of the message shows its own repository's requirement. */
  lemma CachedRequirements(prs: seq<ParsedPR>, cache: map<string, int>, gh: GitHub)
    requires forall k :: 0 <= k < |prs| ==> RepoKey(prs[k]) in cache
                                            && cache[RepoKey(prs[k])] == RequiredFor(gh, prs[k].owner, prs[k].repo)
    ensures Cached(prs, cache) == Requirements(gh, prs)
  {
    var cached, required := Cached(prs, cache), Requirements(gh, prs);
    forall k | 0 <= k < |prs| ensures cached[k] == required[k] {
      assert cached[k] == cache[RepoKey(prs[k])];
    }
  }

  /** The text each flow posts when the tracker is created. */
  function FirstMessage(flow: Flow, title: string, prs: seq<ParsedPR>, gh: GitHub, users: seq<string>): string
  {
    match flow
    case ModalFlow => PlaceholderText(title)
    case ServerFlow => TrackerText(title, prs, Requirements(gh, prs), users)
  }

  /** handleTrackPRSubmission. `posted` is Slack's answer to the message post: the new
      message's timestamp, or None when the post failed. Returned besides the response:
      the tracker created, the ids of the new pull request rows, the text posted and the
      tracker whose message is then refreshed. A refused form writes nothing. */
  method HandleTrackPRSubmission(db: Database, gh: GitHub, flow: Flow, channelId: string, values: ViewValues,
                                 posted: Option<string>)
    returns (response: Response, created: Option<int>, ids: seq<int>, message: Option<string>, refresh: Option<int>)
    requires db.Valid()
    modifies db
    ensures db.Valid()
    ensures Submitted(SlotValues(values, SlotCount(values))).Failure? ==>
              var e := Submitted(SlotValues(values, SlotCount(values))).error;
              && response == FieldError(ErrorBlockId(e), e)
              && created == None && ids == [] && message == None && refresh == None
              && db.trackers == old(db.trackers) && db.pullRequests == old(db.pullRequests)
              && db.reviewers == old(db.reviewers)
    ensures Submitted(SlotValues(values, SlotCount(values))).Success? ==>
              var prs := Submitted(SlotValues(values, SlotCount(values))).value;
              var title := FieldValue(values, TitleBlock, TitleAction);
              var users := SelectedUsers(values, ReviewersBlock, ReviewersAction);
              && response == Accepted && created.Some?
              && db.trackers == old(db.trackers)
                                + [Tracker(created.value, channelId, if posted.Some? then posted.value else "", title)]
              && (forall t :: t in old(db.trackers) ==> t.id != created.value)
              && |ids| == |prs|
              && db.pullRequests == old(db.pullRequests) + NewRows(ids, created.value, prs, gh, flow, db.defaults)
              && FreshIds(old(db.pullRequests), ids)
              && db.reviewers == old(db.reviewers) + AllLinks(ids, users)
              && message == Some(FirstMessage(flow, title, prs, gh, users))
              && refresh == (if posted.Some? then created else None)
  {
    ghost var n := SlotCount(values);
    var submitted := CollectSubmittedPRs(values);
    assert submitted == Submitted(SlotValues(values, n));
    if submitted.Failure? {
      return FieldError(ErrorBlockId(submitted.error), submitted.error), None, [], None, None;
    }
    SubmittedParsesEachSlot(SlotValues(values, n));
    var trackerId;
    response := Accepted;
    trackerId, ids, message, refresh :=
      TrackSubmitted(db, gh, flow, channelId, submitted.value, FieldValue(values, TitleBlock, TitleAction),
                     SelectedUsers(values, ReviewersBlock, ReviewersAction), posted);
    created := Some(trackerId);
  }

  /** Everything after the form is accepted: the tracker row, the pull requests and
      their reviewers, the message post and, when it succeeded, its timestamp. */
  method TrackSubmitted(db: Database, gh: GitHub, flow: Flow, channelId: string, prs: seq<ParsedPR>,
                        title: string, users: seq<string>, posted: Option<string>)
    returns (trackerId: int, ids: seq<int>, message: Option<string>, refresh: Option<int>)
    requires db.Valid()
    requires forall p :: p in prs ==> WellFormed(p)
    modifies db
    ensures db.Valid()
    ensures db.trackers == old(db.trackers) + [Tracker(trackerId, channelId, if posted.Some? then posted.value else "", title)]
    ensures forall t :: t in old(db.trackers) ==> t.id != trackerId
    ensures |ids| == |prs|
    ensures db.pullRequests == old(db.pullRequests) + NewRows(ids, trackerId, prs, gh, flow, db.defaults)
    ensures FreshIds(old(db.pullRequests), ids)
    ensures db.reviewers == old(db.reviewers) + AllLinks(ids, users)
    ensures message == Some(FirstMessage(flow, title, prs, gh, users))
    ensures refresh == (if posted.Some? then Some(trackerId) else None)
  {
    trackerId := db.CreateTracker(channelId, title);
    var cache, _ := BuildApprovalCache(prs, gh);
    ids := TrackEach(db, gh, flow, trackerId, prs, cache, users);
    var text := FirstMessageText(flow, title, prs, cache, gh, users);
    message := Some(text);
    if posted.None? {
      return trackerId, ids, message, None;
    }
    StampTracker(db, old(db.trackers), trackerId, channelId, title, posted.value);
    refresh := Some(trackerId);
  }

  /** The text to post, built from the approval cache. */
  method FirstMessageText(flow: Flow, title: string, prs: seq<ParsedPR>, cache: map<string, int>, gh: GitHub,
                          users: seq<string>) returns (text: string)
    requires forall k :: 0 <= k < |prs| ==> RepoKey(prs[k]) in cache
                                            && cache[RepoKey(prs[k])] == RequiredFor(gh, prs[k].owner, prs[k].repo)
    ensures text == FirstMessage(flow, title, prs, gh, users)
  {
    match flow {
      case ModalFlow =>
        text := PlaceholderText(title);
      case ServerFlow =>
        text := BuildTrackerText(title, prs, cache, users);
        CachedRequirements(prs, cache, gh);
    }
  }

  /** UpdateTrackerMessageTS on the tracker just created: only its timestamp changes. */
  method StampTracker(db: Database, ghost before: seq<Tracker>, trackerId: int, channelId: string, title: string,
                      ts: string)
    requires db.Valid()
    requires db.trackers == before + [Tracker(trackerId, channelId, "", title)]
    requires forall t :: t in before ==> t.id != trackerId
    modifies db
    ensures db.Valid()
    ensures db.trackers == before + [Tracker(trackerId, channelId, ts, title)]
    ensures db.pullRequests == old(db.pullRequests) && db.reviewers == old(db.reviewers)
  {
    db.UpdateTrackerMessageTS(trackerId, ts);
    assert forall i :: 0 <= i < |before| ==> before[i] in before;
  }

  // ---------------------------------------------------------------------
  // What the new tracker reads back as

  /** The links made for the new pull requests give each of them the chosen users
      once, in order, and nobody to any other pull request. */
  lemma {:induction false} AllLinksReadBack(ids: seq<int>, users: seq<string>, id: int)
    requires Distinct(ids)
    ensures ReviewersOf(AllLinks(ids, users), id) == if id in ids then users else []
  {
    if |ids| > 0 {
      var init := ids[..|ids| - 1];
      var last := ids[|ids| - 1];
      AllLinksReadBack(init, users, id);
      ReviewersOfAppend(AllLinks(init, users), Links(last, users), id);
      LinksReadBack(last, users, id);
      assert ids == init + [last];
      if id == last {
        assert id !in init;
      }
    }
  }

  /** After a submission, GetReviewersByPR on a new pull request gives what it had
      before followed by the chosen users; any other pull request keeps its users. */
  lemma TrackedReviewers(links: seq<Reviewer>, ids: seq<int>, users: seq<string>, id: int)
    requires Distinct(ids)
    ensures ReviewersOf(links + AllLinks(ids, users), id)
            == ReviewersOf(links, id) + (if id in ids then users else [])
  {
    ReviewersOfAppend(links, AllLinks(ids, users), id);
    AllLinksReadBack(ids, users, id);
  }

  /** The new rows all belong to the new tracker. */
  lemma {:induction false} NewRowsOfTracker(ids: seq<int>, trackerId: int, prs: seq<ParsedPR>, gh: GitHub,
                                            flow: Flow, defaults: ColumnDefaults, other: int)
    requires |ids| == |prs|
    ensures RowsOfTracker(NewRows(ids, trackerId, prs, gh, flow, defaults), other)
            == if other == trackerId then NewRows(ids, trackerId, prs, gh, flow, defaults) else []
  {
    if |prs| > 0 {
      var rows := NewRows(ids, trackerId, prs, gh, flow, defaults);
      NewRowsOfTracker(ids[..|ids| - 1], trackerId, prs[..|prs| - 1], gh, flow, defaults, other);
      assert rows[..|rows| - 1] == NewRows(ids[..|ids| - 1], trackerId, prs[..|prs| - 1], gh, flow, defaults);
    }
  }

  /** After a submission, GetPullRequestsByTracker on the new tracker gives the rows it
      had before (none, when no row points at a tracker that did not exist) followed by
      the submitted pull requests in order; every other tracker keeps its rows. */
  lemma TrackedRows(rows: seq<PullRequest>, ids: seq<int>, trackerId: int, prs: seq<ParsedPR>, gh: GitHub,
                    flow: Flow, defaults: ColumnDefaults, other: int)
    requires |ids| == |prs|
    ensures RowsOfTracker(rows + NewRows(ids, trackerId, prs, gh, flow, defaults), other)
            == RowsOfTracker(rows, other) + (if other == trackerId then NewRows(ids, trackerId, prs, gh, flow, defaults) else [])
  {
    RowsOfTrackerAppend(rows, NewRows(ids, trackerId, prs, gh, flow, defaults), other);
    NewRowsOfTracker(ids, trackerId, prs, gh, flow, defaults, other);
  }

  /** What each new row records. Both flows store the submitted link and the cached
      requirement, which is at least one. The modal flow stores GitHub's title and
      marks a merged or closed pull request so; the older flow keeps the schema's
      title and writes nothing more from a snapshot whose fetch failed. */
  lemma TrackedRowRecords(id: int, trackerId: int, p: ParsedPR, gh: GitHub, flow: Flow, defaults: ColumnDefaults)
    ensures var row := TrackedRow(id, trackerId, p, gh, flow, defaults);
            var snap := SnapshotFor(gh, p);
            && row.owner == p.owner && row.repo == p.repo && row.number == p.number && row.url == p.url
            && row.approvalsRequired == RequiredFor(gh, p.owner, p.repo) >= 1
            && (flow == ModalFlow || snap.1 ==>
                  && (snap.0.approvals > 0 ==> row.approvalsCurrent == snap.0.approvals)
                  && (snap.0.merged ==> row.status == Merged)
                  && (snap.0.closed ==> row.status == Closed)
                  && (row.status == Approved && defaults.status != Approved ==> snap.0.approvals >= row.approvalsRequired))
            && (flow == ModalFlow ==> row.title == snap.0.title)
            && (flow == ServerFlow ==> row.title == defaults.pullRequestTitle)
            && (flow == ServerFlow && !snap.1 ==>
                  row.status == defaults.status && row.approvalsCurrent == defaults.approvalsCurrent)
  {
    var snap := SnapshotFor(gh, p);
    NewRowRecords(id, trackerId, p, RequiredFor(gh, p.owner, p.repo), snap.0.title, snap.0, defaults);
    NewRowRecords(id, trackerId, p, RequiredFor(gh, p.owner, p.repo), defaults.pullRequestTitle, snap.0, defaults);
  }
}
