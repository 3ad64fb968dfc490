/** Saving the edit modal of a tracker: the title is replaced when it changed, the
    tracker's pull requests whose link was left out are deleted, links that are new
    are inserted like at creation, and every pull request of the tracker gets the
    chosen reviewers in place of its old ones. */
module Edit {
  import opened Wrappers
  import opened Text
  import opened PullRequestUrl
  import opened Store
  import opened Forms
  import opened Submission
  import opened Track

  // ---------------------------------------------------------------------
  // Filters over the tables

  /** The links of some rows. */
  function UrlSet(rows: seq<PullRequest>): set<string>
  {
    set p | p in rows :: p.url
  }

  /** The links of the submitted pull requests. */
  function SubmittedUrls(prs: seq<ParsedPR>): set<string>
  {
    set p | p in prs :: p.url
  }

  /** The ids of the rows whose link was not submitted. */
  function RemovedIds(existing: seq<PullRequest>, submitted: set<string>): set<int>
  {
    set p | p in existing && p.url !in submitted :: p.id
  }

  /** One more existing row adds its id to the removed ids iff its link was left out. */
  lemma RemovedIdsStep(existing: seq<PullRequest>, i: int, submitted: set<string>)
    requires 0 <= i < |existing|
    ensures RemovedIds(existing[..i + 1], submitted)
            == RemovedIds(existing[..i], submitted)
               + (if existing[i].url in submitted then {} else {existing[i].id})
  {
    assert existing[..i + 1] == existing[..i] + [existing[i]];
  }

  /** The table without the rows whose id is in `ids`, in table order. */
  function WithoutIds(rows: seq<PullRequest>, ids: set<int>): seq<PullRequest>
  {
    if |rows| == 0 then []
    else (if rows[0].id in ids then [] else [rows[0]]) + WithoutIds(rows[1..], ids)
  }

  /** The rows whose link is still submitted, in table order. */
  function KeptRows(rows: seq<PullRequest>, submitted: set<string>): (r: seq<PullRequest>)
    ensures forall p :: p in r <==> p in rows && p.url in submitted
  {
    if |rows| == 0 then []
    else (if rows[0].url in submitted then [rows[0]] else []) + KeptRows(rows[1..], submitted)
  }

  /** The submitted pull requests whose link is not tracked yet, in submission order;
      a link submitted twice is kept twice. */
  function Added(prs: seq<ParsedPR>, existing: set<string>): seq<ParsedPR>
  {
    if |prs| == 0 then []
    else
      var last := prs[|prs| - 1];
      Added(prs[..|prs| - 1], existing) + (if last.url in existing then [] else [last])
  }

  /** The ids of some rows, in order. */
  function IdsOf(rows: seq<PullRequest>): (ids: seq<int>)
    ensures |ids| == |rows| && forall k :: 0 <= k < |rows| ==> ids[k] == rows[k].id
  {
    seq(|rows|, k requires 0 <= k < |rows| => rows[k].id)
  }

  /** The reviewer table after the relinking loop: for each pull request in turn, its
      links are deleted and one link per chosen user is added. */
  function Relinked(links: seq<Reviewer>, ids: seq<int>, users: seq<string>): seq<Reviewer>
  {
    if |ids| == 0 then links
    else
      var last := ids[|ids| - 1];
      WithoutReviewersOf(Relinked(links, ids[..|ids| - 1], users), last) + Links(last, users)
  }

  // ---------------------------------------------------------------------
  // The loops of the handler

  /** The lookup table of the tracker's rows by link. */
  method IndexByUrl(existing: seq<PullRequest>) returns (byUrl: map<string, PullRequest>)
    ensures byUrl.Keys == UrlSet(existing)
    ensures forall u :: u in byUrl ==> byUrl[u] in existing && byUrl[u].url == u
  {
    byUrl := map[];
    var i := 0;
    while i < |existing|
      invariant 0 <= i <= |existing|
      invariant byUrl.Keys == UrlSet(existing[..i])
      invariant forall u :: u in byUrl ==> byUrl[u] in existing && byUrl[u].url == u
    {
      assert existing[..i + 1] == existing[..i] + [existing[i]];
      byUrl := byUrl[existing[i].url := existing[i]];
      i := i + 1;
    }
    assert existing[..i] == existing;
  }

  /** The set of submitted links. */
  method SubmittedUrlSet(prs: seq<ParsedPR>) returns (urls: set<string>)
    ensures urls == SubmittedUrls(prs)
  {
    urls := {};
    var i := 0;
    while i < |prs|
      invariant 0 <= i <= |prs|
      invariant urls == SubmittedUrls(prs[..i])
    {
      assert prs[..i + 1] == prs[..i] + [prs[i]];
      urls := urls + {prs[i].url};
      i := i + 1;
    }
    assert prs[..i] == prs;
  }

  /** Deleting a row by id from a filtered table filters out one more id. */
  lemma {:induction false} WithoutIdsStep(rows: seq<PullRequest>, ids: set<int>, id: int)
    ensures WithoutPullRequest(WithoutIds(rows, ids), id) == WithoutIds(rows, ids + {id})
  {
    if |rows| > 0 {
      var rest := WithoutIds(rows[1..], ids);
      WithoutIdsStep(rows[1..], ids, id);
      var more := WithoutIds(rows[1..], ids + {id});
      if rows[0].id in ids {
        assert WithoutIds(rows, ids) == [] + rest == rest;
        assert WithoutIds(rows, ids + {id}) == [] + more == more;
      } else {
        var a := [rows[0]] + rest;
        assert WithoutIds(rows, ids) == a;
        assert a[0] == rows[0] && a[1..] == rest;
        assert WithoutPullRequest(a, id) == (if rows[0].id == id then [] else [rows[0]]) + more;
      }
    }
  }

  /** Filtering out ids that no row has leaves the table as it is. */
  lemma {:induction false} WithoutIdsNone(rows: seq<PullRequest>, ids: set<int>)
    requires forall p :: p in rows ==> p.id !in ids
    ensures WithoutIds(rows, ids) == rows
  {
    if |rows| > 0 {
      assert rows[0] in rows;
      assert forall p :: p in rows[1..] ==> p in rows;
      WithoutIdsNone(rows[1..], ids);
      assert rows == [rows[0]] + rows[1..];
    }
  }

  /** The deletion loop: every row of the tracker whose link was left out is deleted. */
  method DeleteRemoved(db: Database, existing: seq<PullRequest>, submitted: set<string>)
    requires db.Valid()
    modifies db
    ensures db.Valid()
    ensures db.pullRequests == WithoutIds(old(db.pullRequests), RemovedIds(existing, submitted))
    ensures db.trackers == old(db.trackers) && db.reviewers == old(db.reviewers)
  {
    var i := 0;
    WithoutIdsNone(db.pullRequests, {});
    assert RemovedIds(existing[..0], submitted) == {};
    while i < |existing|
      invariant 0 <= i <= |existing|
      invariant db.Valid()
      invariant db.pullRequests == WithoutIds(old(db.pullRequests), RemovedIds(existing[..i], submitted))
      invariant db.trackers == old(db.trackers) && db.reviewers == old(db.reviewers)
    {
      DeleteIfRemoved(db, old(db.pullRequests), existing, i, submitted);
      i := i + 1;
    }
    assert existing[..i] == existing;
  }

  /** One turn of the deletion loop: the row is deleted iff its link was left out. */
  method DeleteIfRemoved(db: Database, ghost rows: seq<PullRequest>, existing: seq<PullRequest>, i: int, submitted: set<string>)
    requires db.Valid() && 0 <= i < |existing|
    requires db.pullRequests == WithoutIds(rows, RemovedIds(existing[..i], submitted))
    modifies db
    ensures db.Valid()
    ensures db.pullRequests == WithoutIds(rows, RemovedIds(existing[..i + 1], submitted))
    ensures db.trackers == old(db.trackers) && db.reviewers == old(db.reviewers)
  {
    var pr := existing[i];
    RemovedIdsStep(existing, i, submitted);
    if pr.url !in submitted {
      WithoutIdsStep(rows, RemovedIds(existing[..i], submitted), pr.id);
      db.DeletePullRequest(pr.id);
      assert RemovedIds(existing[..i + 1], submitted) == RemovedIds(existing[..i], submitted) + {pr.id};
    } else {
      assert RemovedIds(existing[..i + 1], submitted) == RemovedIds(existing[..i], submitted);
    }
  }

  /** The insert loop: each submitted link not tracked yet is inserted like at creation
      in the modal flow, with the requirement fetched once per repository. */
  method InsertAdded(db: Database, gh: GitHub, trackerId: int, prs: seq<ParsedPR>, existing: set<string>)
    returns (ids: seq<int>, fetched: seq<string>)
    requires db.Valid()
    requires forall p :: p in prs ==> WellFormed(p)
    modifies db
    ensures db.Valid()
    ensures |ids| == |Added(prs, existing)|
    ensures db.pullRequests == old(db.pullRequests) + NewRows(ids, trackerId, Added(prs, existing), gh, ModalFlow, db.defaults)
    ensures FreshIds(old(db.pullRequests), ids)
    ensures NoDuplicates(fetched) && forall k :: k in fetched <==> k in RepoKeys(Added(prs, existing))
    ensures db.trackers == old(db.trackers) && db.reviewers == old(db.reviewers)
  {
    var cache: map<string, int> := map[];
    ids, fetched := [], [];
    var i := 0;
    while i < |prs|
      invariant 0 <= i <= |prs| && |ids| == |Added(prs[..i], existing)|
      invariant db.Valid()
      invariant CacheAgrees(cache, prs, gh)
      invariant cache.Keys == RepoKeys(Added(prs[..i], existing))
      invariant NoDuplicates(fetched) && forall k :: k in fetched <==> k in cache
      invariant db.pullRequests == old(db.pullRequests)
                                   + NewRows(ids, trackerId, Added(prs[..i], existing), gh, ModalFlow, db.defaults)
      invariant FreshIds(old(db.pullRequests), ids)
      invariant db.trackers == old(db.trackers) && db.reviewers == old(db.reviewers)
    {
      var p := prs[i];
      AddedRepoKeys(prs, i, existing);
      if p.url !in existing {
        var required;
        required, cache, fetched := CachedRequirement(cache, fetched, p, prs, gh);
        var id := InsertTracked(db, gh, ModalFlow, trackerId, p, required);
        AddedStep(old(db.pullRequests), ids, id, trackerId, prs, i, existing, gh, db.defaults);
        ids := ids + [id];
      } else {
        AddedSkip(prs, i, existing);
      }
      i := i + 1;
    }
    assert prs[..i] == prs;
  }

  /** The repositories of some submitted pull requests, as cache keys. */
  function RepoKeys(prs: seq<ParsedPR>): set<string>
  {
    set q | q in prs :: RepoKey(q)
  }

  /** One more submitted pull request adds its repository to those of the added list
      iff its link is new. */
  lemma AddedRepoKeys(prs: seq<ParsedPR>, i: nat, existing: set<string>)
    requires i < |prs|
    ensures RepoKeys(Added(prs[..i + 1], existing))
            == RepoKeys(Added(prs[..i], existing)) + (if prs[i].url in existing then {} else {RepoKey(prs[i])})
  {
    assert prs[..i + 1][..i] == prs[..i];
    var before := Added(prs[..i], existing);
    if prs[i].url in existing {
      assert Added(prs[..i + 1], existing) == before + [];
      assert before + [] == before;
    } else {
      assert Added(prs[..i + 1], existing) == before + [prs[i]];
    }
  }

  /** Every cached requirement is the one of each repository it is keyed by. */
  ghost predicate CacheAgrees(cache: map<string, int>, prs: seq<ParsedPR>, gh: GitHub)
  {
    forall q :: q in prs && RepoKey(q) in cache ==> cache[RepoKey(q)] == RequiredFor(gh, q.owner, q.repo)
  }

  /** The cache lookup: fetch on the first pull request of a repository, reuse after. */
  method CachedRequirement(cache: map<string, int>, fetched: seq<string>, p: ParsedPR, prs: seq<ParsedPR>, gh: GitHub)
    returns (required: int, cache': map<string, int>, fetched': seq<string>)
    requires p in prs && forall q :: q in prs ==> WellFormed(q)
    requires CacheAgrees(cache, prs, gh)
    requires NoDuplicates(fetched) && forall k :: k in fetched <==> k in cache
    ensures required == RequiredFor(gh, p.owner, p.repo)
    ensures CacheAgrees(cache', prs, gh)
    ensures cache'.Keys == cache.Keys + {RepoKey(p)}
    ensures fetched' == if RepoKey(p) in cache then fetched else fetched + [RepoKey(p)]
    ensures NoDuplicates(fetched') && forall k :: k in fetched' <==> k in cache'
  {
    var key := RepoKey(p);
    cache', fetched' := cache, fetched;
    if key !in cache {
      fetched' := fetched + [key];
      forall q | q in prs && RepoKey(q) == key ensures RequiredFor(gh, q.owner, q.repo) == RequiredFor(gh, p.owner, p.repo) {
        RepoKeyInjective(p, q);
      }
      cache' := cache[key := RequiredFor(gh, p.owner, p.repo)];
    }
    required := cache'[key];
  }

  /** One more inserted pull request extends the rows, the ids and the added list. */
  lemma AddedStep(oldRows: seq<PullRequest>, ids: seq<int>, id: int, trackerId: int, prs: seq<ParsedPR>, i: nat,
                  existing: set<string>, gh: GitHub, defaults: ColumnDefaults)
    requires i < |prs| && prs[i].url !in existing && |ids| == |Added(prs[..i], existing)|
    requires FreshIds(oldRows, ids)
    requires forall q :: q in oldRows + NewRows(ids, trackerId, Added(prs[..i], existing), gh, ModalFlow, defaults) ==> q.id != id
    ensures |ids + [id]| == |Added(prs[..i + 1], existing)|
    ensures FreshIds(oldRows, ids + [id])
    ensures oldRows + NewRows(ids, trackerId, Added(prs[..i], existing), gh, ModalFlow, defaults)
              + [TrackedRow(id, trackerId, prs[i], gh, ModalFlow, defaults)]
            == oldRows + NewRows(ids + [id], trackerId, Added(prs[..i + 1], existing), gh, ModalFlow, defaults)
  {
    var before := Added(prs[..i], existing);
    var added := Added(prs[..i + 1], existing);
    AddedGrows(prs, i, existing);
    FreshStep(oldRows, ids, trackerId, before, gh, ModalFlow, defaults, id);
    var rows := NewRows(ids, trackerId, before, gh, ModalFlow, defaults);
    var row := TrackedRow(id, trackerId, prs[i], gh, ModalFlow, defaults);
    assert NewRows(ids + [id], trackerId, added, gh, ModalFlow, defaults) == rows + [row] by {
      NewRowsStep(ids, id, trackerId, added, |ids|, gh, ModalFlow, defaults);
      assert added[..|ids|] == before && added[..|ids| + 1] == added && added[|ids|] == prs[i];
    }
    AppendAssoc(oldRows, rows, [row]);
  }

  /** A submitted pull request whose link is new joins the end of the added list. */
  lemma AddedGrows(prs: seq<ParsedPR>, i: nat, existing: set<string>)
    requires i < |prs| && prs[i].url !in existing
    ensures Added(prs[..i + 1], existing) == Added(prs[..i], existing) + [prs[i]]
  {
    assert prs[..i + 1][..i] == prs[..i];
  }

  lemma AddedSkip(prs: seq<ParsedPR>, i: nat, existing: set<string>)
    requires i < |prs| && prs[i].url in existing
    ensures Added(prs[..i + 1], existing) == Added(prs[..i], existing)
  {
    assert prs[..i + 1][..i] == prs[..i];
  }

  /** The relinking loop over the tracker's current pull requests. */
  method Relink(db: Database, current: seq<PullRequest>, users: seq<string>)
    requires db.Valid()
    modifies db
    ensures db.Valid()
    ensures db.reviewers == Relinked(old(db.reviewers), IdsOf(current), users)
    ensures db.trackers == old(db.trackers) && db.pullRequests == old(db.pullRequests)
  {
    var i := 0;
    while i < |current|
      invariant 0 <= i <= |current|
      invariant db.Valid()
      invariant db.reviewers == Relinked(old(db.reviewers), IdsOf(current[..i]), users)
      invariant db.trackers == old(db.trackers) && db.pullRequests == old(db.pullRequests)
    {
      var id := current[i].id;
      db.DeleteReviewersByPR(id);
      AddReviewers(db, id, users);
      assert IdsOf(current[..i + 1])[..i] == IdsOf(current[..i]);
      i := i + 1;
    }
    assert current[..i] == current;
  }

  // ---------------------------------------------------------------------
  // The handler

  /** handleEditTrackerSubmission. `metadata` is the view's private metadata, the
      tracker id the edit modal was opened for. Returned besides the response: the ids
      of the inserted rows and the tracker whose message is then refreshed. A refused
      form writes nothing. */
  method HandleEditTrackerSubmission(db: Database, gh: GitHub, metadata: string, values: ViewValues)
    returns (response: Response, ids: seq<int>, refresh: Option<int>)
    requires db.Valid()
    modifies db
    ensures db.Valid()
    ensures Atoi(metadata).Failure? ==>
              && response == BadRequest && ids == [] && refresh == None
              && db.trackers == old(db.trackers) && db.pullRequests == old(db.pullRequests)
              && db.reviewers == old(db.reviewers)
    ensures Atoi(metadata).Success? && Submitted(SlotValues(values, SlotCount(values))).Failure? ==>
              var e := Submitted(SlotValues(values, SlotCount(values))).error;
              && response == FieldError(ErrorBlockId(e), e) && ids == [] && refresh == None
              && db.trackers == old(db.trackers) && db.pullRequests == old(db.pullRequests)
              && db.reviewers == old(db.reviewers)
    ensures Atoi(metadata).Success? && Submitted(SlotValues(values, SlotCount(values))).Success? ==>
              Edited(old(db.trackers), old(db.pullRequests), old(db.reviewers), db.trackers, db.pullRequests,
                     db.reviewers, gh, db.defaults, Atoi(metadata).value,
                     Submitted(SlotValues(values, SlotCount(values))).value,
                     FieldValue(values, TitleBlock, TitleAction),
                     SelectedUsers(values, ReviewersBlock, ReviewersAction), response, ids, refresh)
  {
    var parsedId := Atoi(metadata);
    if parsedId.Failure? {
      return BadRequest, [], None;
    }
    ghost var n := SlotCount(values);
    var submitted := CollectSubmittedPRs(values);
    assert submitted == Submitted(SlotValues(values, n));
    if submitted.Failure? {
      return FieldError(ErrorBlockId(submitted.error), submitted.error), [], None;
    }
    SubmittedParsesEachSlot(SlotValues(values, n));
    response, ids, refresh := EditSubmitted(db, gh, parsedId.value, submitted.value,
                                            FieldValue(values, TitleBlock, TitleAction),
                                            SelectedUsers(values, ReviewersBlock, ReviewersAction));
  }

  /** The outcome of an accepted edit form: an unknown tracker is an internal error that
      writes nothing; otherwise the title is replaced when it differs, the rows of the
      tracker whose link was left out are deleted, the new links are inserted, every
      row of the tracker gets the chosen users, and the tracker's message is refreshed. */
  ghost predicate Edited(trackers: seq<Tracker>, rows: seq<PullRequest>, links: seq<Reviewer>,
                         trackers': seq<Tracker>, rows': seq<PullRequest>, links': seq<Reviewer>,
                         gh: GitHub, defaults: ColumnDefaults, trackerId: int, prs: seq<ParsedPR>,
                         title: string, users: seq<string>, response: Response, ids: seq<int>, refresh: Option<int>)
  {
    match TrackerById(trackers, trackerId)
    case None =>
      && response == InternalError && ids == [] && refresh == None
      && trackers' == trackers && rows' == rows && links' == links
    case Some(tracker) =>
      && response == Accepted && refresh == Some(trackerId)
      && trackers' == (if title != tracker.title then Retitled(trackers, trackerId, title) else trackers)
      && |ids| == |Added(prs, UrlSet(RowsOfTracker(rows, trackerId)))|
      && rows' == EditedRows(rows, trackerId, prs, ids, gh, defaults)
      && links' == Relinked(links, IdsOf(RowsOfTracker(rows', trackerId)), users)
  }

  /** Everything after the form is accepted. */
  method EditSubmitted(db: Database, gh: GitHub, trackerId: int, prs: seq<ParsedPR>, title: string,
                       users: seq<string>) returns (response: Response, ids: seq<int>, refresh: Option<int>)
    requires db.Valid()
    requires forall p :: p in prs ==> WellFormed(p)
    modifies db
    ensures db.Valid()
    ensures Edited(old(db.trackers), old(db.pullRequests), old(db.reviewers), db.trackers, db.pullRequests,
                   db.reviewers, gh, db.defaults, trackerId, prs, title, users, response, ids, refresh)
  {
    var tracker := db.GetTrackerByID(trackerId);
    if tracker.None? {
      return InternalError, [], None;
    }
    if title != tracker.value.title {
      db.UpdateTrackerTitle(trackerId, title);
    }
    ids := ReplaceRows(db, gh, trackerId, prs);
    var current := db.GetPullRequestsByTracker(trackerId);
    Relink(db, current, users);
    response, refresh := Accepted, Some(trackerId);
  }

  /** The deletions and the inserts of an edit. */
  method ReplaceRows(db: Database, gh: GitHub, trackerId: int, prs: seq<ParsedPR>) returns (ids: seq<int>)
    requires db.Valid()
    requires forall p :: p in prs ==> WellFormed(p)
    modifies db
    ensures db.Valid()
    ensures |ids| == |Added(prs, UrlSet(RowsOfTracker(old(db.pullRequests), trackerId)))|
    ensures db.pullRequests == EditedRows(old(db.pullRequests), trackerId, prs, ids, gh, db.defaults)
    ensures db.trackers == old(db.trackers) && db.reviewers == old(db.reviewers)
  {
    var existing := db.GetPullRequestsByTracker(trackerId);
    var byUrl := IndexByUrl(existing);
    var submitted := SubmittedUrlSet(prs);
    DeleteRemoved(db, existing, submitted);
    var fetched;
    ids, fetched := InsertAdded(db, gh, trackerId, prs, byUrl.Keys);
  }

  // ---------------------------------------------------------------------
  // What the tracker reads back as after an edit

  /** The membership of the added list: the submitted pull requests whose link is new. */
  lemma {:induction false} AddedExact(prs: seq<ParsedPR>, existing: set<string>)
    ensures forall p :: p in Added(prs, existing) <==> p in prs && p.url !in existing
  {
    if |prs| > 0 {
      var init := prs[..|prs| - 1];
      AddedExact(init, existing);
      assert prs == init + [prs[|prs| - 1]];
    }
  }

  /** The rows of a tracker, read from the front. */
  lemma RowsOfTrackerCons(x: PullRequest, rest: seq<PullRequest>, trackerId: int)
    ensures RowsOfTracker([x] + rest, trackerId) == (if x.trackerId == trackerId then [x] else []) + RowsOfTracker(rest, trackerId)
  {
    RowsOfTrackerAppend([x], rest, trackerId);
    assert [x][..0] == [];
  }

  lemma {:induction false} WithoutIdsAppend(a: seq<PullRequest>, b: seq<PullRequest>, ids: set<int>)
    ensures WithoutIds(a + b, ids) == WithoutIds(a, ids) + WithoutIds(b, ids)
  {
    if |a| > 0 {
      WithoutIdsAppend(a[1..], b, ids);
      assert (a + b)[1..] == a[1..] + b;
      assert (a + b)[0] == a[0];
    } else {
      assert a + b == b;
    }
  }

  /** Deleting by id and then reading a tracker's rows is reading them, then filtering. */
  lemma {:induction false} WithoutIdsOfTracker(rows: seq<PullRequest>, ids: set<int>, trackerId: int)
    ensures RowsOfTracker(WithoutIds(rows, ids), trackerId) == WithoutIds(RowsOfTracker(rows, trackerId), ids)
  {
    if |rows| > 0 {
      var x, rest := rows[0], rows[1..];
      assert rows == [x] + rest;
      WithoutIdsOfTracker(rest, ids, trackerId);
      RowsOfTrackerCons(x, rest, trackerId);
      var kept := if x.id in ids then [] else [x];
      RowsOfTrackerAppend(kept, WithoutIds(rest, ids), trackerId);
      var mine := if x.trackerId == trackerId then [x] else [];
      WithoutIdsAppend(mine, RowsOfTracker(rest, trackerId), ids);
      assert RowsOfTracker(kept, trackerId) == WithoutIds(mine, ids) by {
        if x.id !in ids {
          RowsOfTrackerCons(x, [], trackerId);
          assert [x] + [] == [x];
        }
        if x.trackerId == trackerId {
          assert [x][1..] == [];
        }
      }
    }
  }

  /** When exactly the rows whose link was left out are marked, deleting the marked rows
      keeps the rows whose link is still submitted. */
  lemma {:induction false} WithoutIdsKept(rows: seq<PullRequest>, ids: set<int>, submitted: set<string>)
    requires forall p :: p in rows ==> (p.id in ids <==> p.url !in submitted)
    ensures WithoutIds(rows, ids) == KeptRows(rows, submitted)
  {
    if |rows| > 0 {
      assert rows[0] in rows;
      assert forall p :: p in rows[1..] ==> p in rows;
      WithoutIdsKept(rows[1..], ids, submitted);
    }
  }

  /** In a valid table a row is determined by its id. */
  lemma SameId(rows: seq<PullRequest>, p: PullRequest, q: PullRequest)
    requires UniqueIds(rows) && p in rows && q in rows
    ensures p.id == q.id ==> p == q
  {
    var i :| 0 <= i < |rows| && rows[i] == p;
    var j :| 0 <= j < |rows| && rows[j] == q;
    assert i < j ==> p.id < q.id;
    assert j < i ==> q.id < p.id;
  }

  /** The table after the deletions and inserts of an edit of `trackerId`. */
  function EditedRows(rows: seq<PullRequest>, trackerId: int, prs: seq<ParsedPR>, ids: seq<int>, gh: GitHub,
                      defaults: ColumnDefaults): seq<PullRequest>
    requires |ids| == |Added(prs, UrlSet(RowsOfTracker(rows, trackerId)))|
  {
    var existing := RowsOfTracker(rows, trackerId);
    WithoutIds(rows, RemovedIds(existing, SubmittedUrls(prs)))
      + NewRows(ids, trackerId, Added(prs, UrlSet(existing)), gh, ModalFlow, defaults)
  }

  /** After an edit the tracker has its rows whose link is still submitted, in table
      order, then one new row per new link; every other tracker keeps its rows. */
  lemma EditedTrackerRows(rows: seq<PullRequest>, trackerId: int, prs: seq<ParsedPR>, ids: seq<int>, gh: GitHub,
                          defaults: ColumnDefaults, other: int)
    requires UniqueIds(rows)
    requires |ids| == |Added(prs, UrlSet(RowsOfTracker(rows, trackerId)))|
    ensures var existing := RowsOfTracker(rows, trackerId);
            RowsOfTracker(EditedRows(rows, trackerId, prs, ids, gh, defaults), other)
            == if other == trackerId
               then KeptRows(existing, SubmittedUrls(prs))
                    + NewRows(ids, trackerId, Added(prs, UrlSet(existing)), gh, ModalFlow, defaults)
               else RowsOfTracker(rows, other)
  {
    var existing := RowsOfTracker(rows, trackerId);
    var submitted := SubmittedUrls(prs);
    var removed := RemovedIds(existing, submitted);
    var added := NewRows(ids, trackerId, Added(prs, UrlSet(existing)), gh, ModalFlow, defaults);
    RowsOfTrackerAppend(WithoutIds(rows, removed), added, other);
    NewRowsOfTracker(ids, trackerId, Added(prs, UrlSet(existing)), gh, ModalFlow, defaults, other);
    WithoutIdsOfTracker(rows, removed, other);
    RowsOfTrackerExact(rows, trackerId);
    RowsOfTrackerExact(rows, other);
    if other == trackerId {
      forall p | p in existing ensures p.id in removed <==> p.url !in submitted {
        if p.id in removed {
          var q :| q in existing && q.url !in submitted && q.id == p.id;
          SameId(rows, p, q);
        }
      }
      WithoutIdsKept(existing, removed, submitted);
    } else {
      forall p | p in RowsOfTracker(rows, other) ensures p.id !in removed {
        forall q | q in existing ensures q.id != p.id {
          SameId(rows, p, q);
        }
      }
      WithoutIdsNone(RowsOfTracker(rows, other), removed);
      assert RowsOfTracker(rows, other) + [] == RowsOfTracker(rows, other);
    }
  }

  /** The links of new rows are the links of the pull requests they were made from. */
  lemma NewRowsUrls(ids: seq<int>, trackerId: int, prs: seq<ParsedPR>, gh: GitHub, flow: Flow, defaults: ColumnDefaults)
    requires |ids| == |prs|
    ensures UrlSet(NewRows(ids, trackerId, prs, gh, flow, defaults)) == SubmittedUrls(prs)
  {
    var rows := NewRows(ids, trackerId, prs, gh, flow, defaults);
    forall u | u in UrlSet(rows) ensures u in SubmittedUrls(prs) {
      var q :| q in rows && q.url == u;
      var k :| 0 <= k < |rows| && rows[k] == q;
      NewRowsAt(ids, trackerId, prs, gh, flow, defaults, k);
      assert prs[k] in prs;
    }
    forall u | u in SubmittedUrls(prs) ensures u in UrlSet(rows) {
      var p :| p in prs && p.url == u;
      var k :| 0 <= k < |prs| && prs[k] == p;
      NewRowsAt(ids, trackerId, prs, gh, flow, defaults, k);
      assert rows[k] in rows;
    }
  }

  /** The point of the edit: afterwards the tracker tracks exactly the submitted links. */
  lemma EditTracksSubmittedUrls(existing: seq<PullRequest>, trackerId: int, prs: seq<ParsedPR>, ids: seq<int>,
                                gh: GitHub, defaults: ColumnDefaults)
    requires |ids| == |Added(prs, UrlSet(existing))|
    ensures UrlSet(KeptRows(existing, SubmittedUrls(prs))
                   + NewRows(ids, trackerId, Added(prs, UrlSet(existing)), gh, ModalFlow, defaults))
            == SubmittedUrls(prs)
  {
    var kept := KeptRows(existing, SubmittedUrls(prs));
    var added := Added(prs, UrlSet(existing));
    var rows := NewRows(ids, trackerId, added, gh, ModalFlow, defaults);
    NewRowsUrls(ids, trackerId, added, gh, ModalFlow, defaults);
    AddedExact(prs, UrlSet(existing));
    assert UrlSet(kept + rows) == UrlSet(kept) + UrlSet(rows) by {
      assert forall p :: p in kept + rows <==> p in kept || p in rows;
    }
    assert UrlSet(kept) == UrlSet(existing) * SubmittedUrls(prs);
    assert SubmittedUrls(added) == SubmittedUrls(prs) - UrlSet(existing);
  }

  /** After relinking, every relinked pull request has exactly the chosen users, in
      order, and every other pull request keeps its own. */
  lemma {:induction false} RelinkedReadBack(links: seq<Reviewer>, ids: seq<int>, users: seq<string>, id: int)
    ensures ReviewersOf(Relinked(links, ids, users), id) == if id in ids then users else ReviewersOf(links, id)
  {
    if |ids| > 0 {
      var init, last := ids[..|ids| - 1], ids[|ids| - 1];
      var before := Relinked(links, init, users);
      var kept := WithoutReviewersOf(before, last);
      var added := ReviewersOf(Links(last, users), id);
      assert ReviewersOf(Relinked(links, ids, users), id) == ReviewersOf(kept, id) + added by {
        assert Relinked(links, ids, users) == kept + Links(last, users);
        ReviewersOfAppend(kept, Links(last, users), id);
      }
      assert id in ids <==> id in init || id == last by {
        assert ids == init + [last];
      }
      if id == last {
        assert ReviewersOf(kept, id) == [] by { ReviewersOfWithout(before, last, id); }
        assert added == users by { LinksReadBack(last, users, id); }
        assert [] + users == users;
      } else {
        assert ReviewersOf(kept, id) == ReviewersOf(before, id) by { ReviewersOfWithout(before, last, id); }
        assert added == [] by { LinksReadBack(last, users, id); }
        RelinkedReadBack(links, init, users, id);
        assert ReviewersOf(before, id) + [] == ReviewersOf(before, id);
      }
    }
  }

  /** What an accepted edit of a known tracker reads back as: GetPullRequestsByTracker
      gives rows for exactly the submitted links, GetReviewersByPR gives the chosen users
      for each of them, and the other trackers keep their rows. */
  lemma EditReadBack(trackers: seq<Tracker>, rows: seq<PullRequest>, links: seq<Reviewer>,
                     trackers': seq<Tracker>, rows': seq<PullRequest>, links': seq<Reviewer>,
                     gh: GitHub, defaults: ColumnDefaults, trackerId: int, prs: seq<ParsedPR>,
                     title: string, users: seq<string>, response: Response, ids: seq<int>, refresh: Option<int>)
    requires UniqueIds(rows) && TrackerById(trackers, trackerId).Some?
    requires Edited(trackers, rows, links, trackers', rows', links', gh, defaults, trackerId, prs, title, users,
                    response, ids, refresh)
    ensures UrlSet(RowsOfTracker(rows', trackerId)) == SubmittedUrls(prs)
    ensures forall p :: p in RowsOfTracker(rows', trackerId) ==> ReviewersOf(links', p.id) == users
    ensures forall other :: other != trackerId ==> RowsOfTracker(rows', other) == RowsOfTracker(rows, other)
  {
    EditedTrackerRows(rows, trackerId, prs, ids, gh, defaults, trackerId);
    EditTracksSubmittedUrls(RowsOfTracker(rows, trackerId), trackerId, prs, ids, gh, defaults);
    var current := RowsOfTracker(rows', trackerId);
    forall p | p in current ensures ReviewersOf(links', p.id) == users {
      var k :| 0 <= k < |current| && current[k] == p;
      assert IdsOf(current)[k] == p.id;
      RelinkedReadBack(links, IdsOf(current), users, p.id);
    }
    forall other | other != trackerId ensures RowsOfTracker(rows', other) == RowsOfTracker(rows, other) {
      EditedTrackerRows(rows, trackerId, prs, ids, gh, defaults, other);
    }
  }
}
