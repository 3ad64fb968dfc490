/** The steps the modal submission handlers share: reading and validating the URL
    slots, the per-repository approval cache, and inserting one tracked pull request
    with its initial state. GitHub is an oracle: what each REST call would answer. */
module Submission {
  import opened Wrappers
  import opened Text
  import opened PullRequestUrl
  import opened Reviews
  import opened Status
  import opened Store
  import opened Forms

  /** What GitHub answers for each call the handlers make. */
  datatype GitHub = GitHub(
    repository: (string, string) -> RepoResponse,
    protection: (string, string, string) -> ProtectionResponse,
    pullRequest: (string, string, int) -> PullRequestResponse,
    reviews: (string, string, int) -> ReviewsResponse)

  /** fetchRequiredApprovals for one repository, with an error read as 1. */
  function RequiredFor(gh: GitHub, owner: string, repo: string): (n: int)
    ensures n >= 1
  {
    var r := gh.repository(owner, repo);
    RequiredOrDefault(r, gh.protection(owner, repo, if r.RepoFound? then r.defaultBranch else ""))
  }

  /** fetchPRReviewState for one pull request. */
  function SnapshotFor(gh: GitHub, p: ParsedPR): (PRReviewState, bool)
  {
    Snapshot(gh.pullRequest(p.owner, p.repo, p.number), gh.reviews(p.owner, p.repo, p.number))
  }

  // ---------------------------------------------------------------------
  // Reading the URL slots

  /** The parse result of every raw URL, in slot order. */
  function ParseEach(raws: seq<string>): (rs: seq<Result<ParsedPR, ParseError>>)
    ensures |rs| == |raws|
  {
    if |raws| == 0 then [] else ParseEach(raws[..|raws| - 1]) + [ParsePRURL(raws[|raws| - 1])]
  }

  /** Each result is the parse of the URL in the same place. */
  lemma {:induction false} ParseEachAt(raws: seq<string>, i: nat)
    requires i < |raws|
    ensures ParseEach(raws)[i] == ParsePRURL(raws[i])
  {
    if i < |raws| - 1 {
      ParseEachAt(raws[..|raws| - 1], i);
    }
  }

  /** Walk the results in order: all the values, or the index and error of the first
      failure. */
  function FirstError<T, E>(rs: seq<Result<T, E>>): (r: Result<seq<T>, (nat, E)>)
    ensures r.Success? ==> |r.value| == |rs| && forall i :: 0 <= i < |rs| ==> rs[i] == Success(r.value[i])
    ensures r.Failure? ==> && r.error.0 < |rs|
                           && rs[r.error.0] == Failure(r.error.1)
                           && forall i :: 0 <= i < r.error.0 ==> rs[i].Success?
  {
    if |rs| == 0 then Success([])
    else
      match FirstError(rs[..|rs| - 1])
      case Failure(e) => Failure(e)
      case Success(vs) =>
        match rs[|rs| - 1]
        case Failure(e) => Failure(((|rs| - 1) as nat, e))
        case Success(v) => Success(vs + [v])
  }

  /** Once a prefix fails, every longer list fails the same way. */
  lemma {:induction false} FirstErrorPersists<T, E>(rs: seq<Result<T, E>>, j: nat)
    requires j <= |rs| && FirstError(rs[..j]).Failure?
    ensures FirstError(rs) == FirstError(rs[..j])
    decreases |rs| - j
  {
    if j < |rs| {
      assert rs[..j + 1][..j] == rs[..j];
      FirstErrorPersists(rs, j + 1);
    } else {
      assert rs[..j] == rs;
    }
  }

  /** Why a submission is refused before anything is written. */
  datatype SubmitError = BadUrl(slot: nat, cause: ParseError) | NoUrls

  /** The block the error is reported on: the bad slot, or slot 0 when there is none. */
  function ErrorBlockId(e: SubmitError): string
  {
    match e
    case BadUrl(slot, _) => BlockId(slot)
    case NoUrls => BlockId(0)
  }

  function Submitted(raws: seq<string>): Result<seq<ParsedPR>, SubmitError>
  {
    match FirstError(ParseEach(raws))
    case Failure((k, e)) => Failure(BadUrl(k, e))
    case Success(prs) => if |prs| == 0 then Failure(NoUrls) else Success(prs)
  }

  /** The slot loop of the submission handlers: parse slot after slot until one is
      missing, stop at the first URL that does not parse, refuse an empty list. */
  method CollectSubmittedPRs(values: ViewValues) returns (r: Result<seq<ParsedPR>, SubmitError>)
    ensures forall n: nat :: IsSlotRun(values, n) ==> r == Submitted(SlotValues(values, n))
  {
    var prs: seq<ParsedPR> := [];
    var i := 0;
    while BlockId(i) in values
      invariant forall j :: 0 <= j < i ==> BlockId(j) in values
      invariant FirstError(ParseEach(SlotValues(values, i))) == Success(prs)
      decreases |values.Keys| - i
    {
      SlotsBounded(values, i);
      var raw := FieldValue(values, BlockId(i), ActionId(i));
      var parsed := ParsePRURL(raw);
      SlotValuesStep(values, i);
      FirstErrorStep(ParseEach(SlotValues(values, i)), parsed);
      if parsed.Failure? {
        FailureAtSlot(values, i, parsed.error);
        return Failure(BadUrl(i, parsed.error));
      }
      prs := prs + [parsed.value];
      i := i + 1;
    }
    forall n: nat | IsSlotRun(values, n) ensures n == i {
      SlotRunUnique(values, n, i);
    }
    if |prs| == 0 {
      return Failure(NoUrls);
    }
    r := Success(prs);
  }

  /** One more slot appends its value to those before it. */
  lemma SlotValuesStep(values: ViewValues, i: nat)
    ensures SlotValues(values, i + 1) == SlotValues(values, i) + [FieldValue(values, BlockId(i), ActionId(i))]
  {
  }

  /** The walk over one more result: the earlier failure, or this one, or one more value. */
  lemma FirstErrorStep<T, E>(rs: seq<Result<T, E>>, x: Result<T, E>)
    ensures FirstError(rs + [x]) == match FirstError(rs)
                                    case Failure(e) => Failure(e)
                                    case Success(vs) =>
                                      match x
                                      case Failure(e) => Failure((|rs|, e))
                                      case Success(v) => Success(vs + [v])
  {
    assert (rs + [x])[..|rs|] == rs;
  }

  /** The prefix of a longer slot run is the shorter run. */
  lemma SlotValuesPrefix(values: ViewValues, i: nat, n: nat)
    requires i <= n
    ensures SlotValues(values, n)[..i] == SlotValues(values, i)
  {
  }

  /** Parsing a prefix gives the prefix of the parses. */
  lemma ParseEachPrefix(raws: seq<string>, i: nat)
    requires i <= |raws|
    ensures ParseEach(raws)[..i] == ParseEach(raws[..i])
  {
    var whole, part := ParseEach(raws)[..i], ParseEach(raws[..i]);
    forall k | 0 <= k < i ensures whole[k] == part[k] {
      ParseEachAt(raws, k);
      ParseEachAt(raws[..i], k);
    }
  }

  /** A failure at slot i, after slots 0 .. i all exist, is what the whole submission reports. */
  lemma FailureAtSlot(values: ViewValues, i: nat, e: ParseError)
    requires forall j :: 0 <= j <= i ==> BlockId(j) in values
    requires FirstError(ParseEach(SlotValues(values, i))).Success?
    requires ParsePRURL(FieldValue(values, BlockId(i), ActionId(i))) == Failure(e)
    ensures forall n: nat :: IsSlotRun(values, n) ==> Submitted(SlotValues(values, n)) == Failure(BadUrl(i, e))
  {
    var prefix := SlotValues(values, i + 1);
    SlotValuesStep(values, i);
    FirstErrorStep(ParseEach(SlotValues(values, i)), ParsePRURL(FieldValue(values, BlockId(i), ActionId(i))));
    assert FirstError(ParseEach(prefix)) == Failure((i, e));
    forall n: nat | IsSlotRun(values, n) ensures Submitted(SlotValues(values, n)) == Failure(BadUrl(i, e)) {
      assert BlockId(n) !in values;
      assert i < n;
      var all := ParseEach(SlotValues(values, n));
      SlotValuesPrefix(values, i + 1, n);
      ParseEachPrefix(SlotValues(values, n), i + 1);
      FirstErrorPersists(all, i + 1);
    }
  }

  /** The first slot that does not parse is the one reported, and a refused list with
      no bad slot is an empty one. */
  lemma SubmittedReportsFirstBadSlot(raws: seq<string>)
    ensures Submitted(raws).Failure? && Submitted(raws).error.BadUrl? ==>
              var k := Submitted(raws).error.slot;
              && k < |raws| && ParsePRURL(raws[k]).Failure?
              && forall i :: 0 <= i < k ==> ParsePRURL(raws[i]).Success?
    ensures Submitted(raws) == Failure(NoUrls) <==> |raws| == 0
    ensures Submitted(raws).Success? <==> |raws| > 0 && forall i :: 0 <= i < |raws| ==> ParsePRURL(raws[i]).Success?
  {
    var rs := ParseEach(raws);
    if FirstError(rs).Failure? {
      var k := FirstError(rs).error.0;
      ParseEachAt(raws, k);
      forall i | 0 <= i < k ensures ParsePRURL(raws[i]).Success? {
        ParseEachAt(raws, i);
      }
    } else {
      forall i | 0 <= i < |raws| ensures ParsePRURL(raws[i]).Success? {
        ParseEachAt(raws, i);
      }
    }
  }

  /** An accepted list holds the parse of every slot, in slot order, so each entry is
      well formed and keeps its trimmed URL. */
  lemma SubmittedParsesEachSlot(raws: seq<string>)
    ensures Submitted(raws).Success? ==>
              && |Submitted(raws).value| == |raws|
              && forall i :: 0 <= i < |raws| ==> ParsePRURL(raws[i]) == Success(Submitted(raws).value[i])
    ensures Submitted(raws).Success? ==> forall p :: p in Submitted(raws).value ==> WellFormed(p)
  {
    if Submitted(raws).Success? {
      var prs := Submitted(raws).value;
      forall i | 0 <= i < |raws| ensures ParsePRURL(raws[i]) == Success(prs[i]) {
        ParseEachAt(raws, i);
      }
      forall p | p in prs ensures WellFormed(p) {
        var i :| 0 <= i < |prs| && prs[i] == p;
        assert ParsePRURL(raws[i]) == Success(prs[i]);
      }
    }
  }

  // ---------------------------------------------------------------------
  // The approval cache

  /** The cache key, owner + "/" + repo. */
  function RepoKey(p: ParsedPR): string { p.owner + "/" + p.repo }

  /** Parsed URLs carry no '/' in owner or repository, so their keys tell them apart. */
  lemma RepoKeyInjective(p: ParsedPR, q: ParsedPR)
    requires WellFormed(p) && WellFormed(q) && RepoKey(p) == RepoKey(q)
    ensures p.owner == q.owner && p.repo == q.repo
  {
    var key := RepoKey(p);
    assert IndexOf(key, '/') == |p.owner| by { SlashAfter(p.owner, p.repo); }
    assert IndexOf(key, '/') == |q.owner| by { SlashAfter(q.owner, q.repo); }
    var k := |p.owner|;
    assert key[..k] == p.owner && key[..k] == q.owner;
    assert key[k + 1..] == p.repo && key[k + 1..] == q.repo;
  }

  /** In owner + "/" + repo the first slash is the one after the owner. */
  lemma SlashAfter(owner: string, repo: string)
    requires '/' !in owner
    ensures IndexOf(owner + "/" + repo, '/') == |owner|
  {
    IndexOfConcat(owner, "/" + repo, '/');
    assert owner + "/" + repo == owner + ("/" + repo);
  }

  predicate NoDuplicates(keys: seq<string>)
  {
    forall i, j :: 0 <= i < j < |keys| ==> keys[i] != keys[j]
  }

  /** The cache loop: fetch the requirement of each repository the first time one of
      its pull requests is seen, and only then. The keys fetched are returned in order. */
  method BuildApprovalCache(prs: seq<ParsedPR>, gh: GitHub) returns (cache: map<string, int>, fetched: seq<string>)
    requires forall p :: p in prs ==> WellFormed(p)
    ensures cache.Keys == set p | p in prs :: RepoKey(p)
    ensures forall p :: p in prs ==> cache[RepoKey(p)] == RequiredFor(gh, p.owner, p.repo)
    ensures forall k :: k in cache ==> cache[k] >= 1
    ensures NoDuplicates(fetched) && (forall k :: k in fetched <==> k in cache)
  {
    cache, fetched := map[], [];
    var i := 0;
    while i < |prs|
      invariant 0 <= i <= |prs|
      invariant cache.Keys == set p | p in prs[..i] :: RepoKey(p)
      invariant forall p :: p in prs[..i] ==> cache[RepoKey(p)] == RequiredFor(gh, p.owner, p.repo)
      invariant forall k :: k in cache ==> cache[k] >= 1
      invariant NoDuplicates(fetched) && (forall k :: k in fetched <==> k in cache)
    {
      var p := prs[i];
      var key := RepoKey(p);
      assert prs[..i + 1] == prs[..i] + [p];
      if key !in cache {
        cache := cache[key := RequiredFor(gh, p.owner, p.repo)];
        fetched := fetched + [key];
      } else {
        var q :| q in prs[..i] && RepoKey(q) == key;
        RepoKeyInjective(p, q);
      }
      i := i + 1;
    }
    assert prs[..i] == prs;
  }

  // ---------------------------------------------------------------------
  // One new tracked pull request

  /** The row a submission leaves behind for one pull request: the values given to
      CreatePullRequest, then the review count when it is positive and the initial
      status when there is one, if the snapshot is applied at all. Columns nobody
      writes keep the schema's values. */
  function NewRow(id: int, trackerId: int, p: ParsedPR, required: int, title: string,
                  snap: PRReviewState, applyState: bool, defaults: ColumnDefaults): (row: PullRequest)
  {
    var status := if applyState then InitialStatus(snap, required) else None;
    PullRequest(id, trackerId, p.owner, p.repo, p.number, p.url, title,
                if status.Some? then status.value else defaults.status,
                required,
                if applyState && snap.approvals > 0 then snap.approvals else defaults.approvalsCurrent)
  }

  /** What a new row records, read back: it is the submitted pull request, it needs
      what the cache says, and when the snapshot is applied a positive approval count
      is carried over, a merged or closed pull request is marked so, and a row is only
      marked approved when its count reached the requirement. */
  lemma NewRowRecords(id: int, trackerId: int, p: ParsedPR, required: int, title: string,
                      snap: PRReviewState, defaults: ColumnDefaults)
    requires required >= 1
    ensures var row := NewRow(id, trackerId, p, required, title, snap, true, defaults);
            && row.owner == p.owner && row.repo == p.repo && row.number == p.number && row.url == p.url
            && row.approvalsRequired == required
            && (snap.approvals > 0 ==> row.approvalsCurrent == snap.approvals)
            && (snap.merged ==> row.status == Merged)
            && (snap.closed && !snap.merged ==> row.status == Closed)
            && (row.status == Approved && defaults.status != Approved ==> snap.approvals >= required)
  {
    InitialStatusIsHighestCandidate(snap, required);
  }

  /** Writing the last row of a table changes only that row. */
  lemma UpdateLastRow(rows: seq<PullRequest>, row: PullRequest, c: Change)
    requires forall q :: q in rows ==> q.id != row.id
    ensures UpdateRows(rows + [row], row.id, c) == rows + [Apply(row, c)]
  {
    var r := UpdateRows(rows + [row], row.id, c);
    assert |r| == |rows| + 1 && r[|rows|] == Apply(row, c);
    forall i | 0 <= i < |rows| ensures r[i] == rows[i] {
      assert rows[i] in rows;
    }
  }

  /** Insert one pull request and, when the snapshot is applied, its approvals and
      initial status. */
  method InsertPullRequest(db: Database, trackerId: int, p: ParsedPR, required: int, title: string,
                           snap: PRReviewState, applyState: bool) returns (id: int)
    requires db.Valid()
    modifies db
    ensures db.Valid()
    ensures db.pullRequests == old(db.pullRequests) + [NewRow(id, trackerId, p, required, title, snap, applyState, db.defaults)]
    ensures forall q :: q in old(db.pullRequests) ==> q.id != id
    ensures db.trackers == old(db.trackers) && db.reviewers == old(db.reviewers)
  {
    ghost var rows := db.pullRequests;
    id := db.CreatePullRequest(trackerId, p.owner, p.repo, p.number, p.url, title, required);
    ghost var row := db.pullRequests[|rows|];
    assert db.pullRequests == rows + [row];
    if applyState {
      if snap.approvals > 0 {
        db.UpdatePullRequestApprovals(id, snap.approvals);
        UpdateLastRow(rows, row, SetApprovals(snap.approvals));
        row := Apply(row, SetApprovals(snap.approvals));
      }
      var status := InitialStatus(snap, required);
      if status.Some? {
        db.UpdatePullRequestStatus(id, status.value);
        UpdateLastRow(rows, row, SetStatus(status.value));
        row := Apply(row, SetStatus(status.value));
      }
    }
    assert row == NewRow(id, trackerId, p, required, title, snap, applyState, db.defaults);
  }

  /** The reviewer links of one pull request, in the order given. */
  function Links(pullRequestId: int, users: seq<string>): (links: seq<Reviewer>)
    ensures |links| == |users|
  {
    seq(|users|, i requires 0 <= i < |users| => Reviewer(pullRequestId, users[i]))
  }

  /** Link every selected user to one pull request. */
  method AddReviewers(db: Database, pullRequestId: int, users: seq<string>)
    requires db.Valid()
    modifies db
    ensures db.Valid()
    ensures db.reviewers == old(db.reviewers) + Links(pullRequestId, users)
    ensures db.trackers == old(db.trackers) && db.pullRequests == old(db.pullRequests)
  {
    var i := 0;
    while i < |users|
      invariant 0 <= i <= |users|
      invariant db.Valid()
      invariant db.reviewers == old(db.reviewers) + Links(pullRequestId, users[..i])
      invariant db.trackers == old(db.trackers) && db.pullRequests == old(db.pullRequests)
    {
      db.CreateReviewer(pullRequestId, users[i]);
      assert Links(pullRequestId, users[..i + 1]) == Links(pullRequestId, users[..i]) + [Reviewer(pullRequestId, users[i])];
      i := i + 1;
    }
    assert users[..i] == users;
  }

  /** The links of one pull request read back as exactly the users given, in order,
      for that pull request, and as nothing for any other. */
  lemma {:induction false} LinksReadBack(pullRequestId: int, users: seq<string>, other: int)
    ensures ReviewersOf(Links(pullRequestId, users), other) == if other == pullRequestId then users else []
  {
    if |users| > 0 {
      var init := users[..|users| - 1];
      LinksReadBack(pullRequestId, init, other);
      assert Links(pullRequestId, users)[..|users| - 1] == Links(pullRequestId, init);
    }
  }
}
