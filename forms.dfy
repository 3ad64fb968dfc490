/** The Slack modal logic of server/interaction_handler.go and server/server.go that
    is not a submission: counting and collecting the PR URL slots, the add/remove
    slot buttons, and opening the edit modal. Building the modal blocks and talking
    to Slack are left to the caller; the methods return what would be rendered. */
module Forms {
  import opened Wrappers
  import opened Text
  import opened Store
  import Reviews

  const UrlBlockPrefix: string := "pr_url_block_"
  const UrlActionPrefix: string := "pr_url_"
  const AddUrlAction: string := "add_pr_url"
  const RemoveUrlAction: string := "remove_pr_url"
  const EditCallback: string := "edit_tracker"
  const TitleBlock: string := "title_block"
  const TitleAction: string := "title"
  const ReviewersBlock: string := "reviewers_block"
  const ReviewersAction: string := "reviewers"

  /** The block id of URL slot i, fmt's "pr_url_block_%d". */
  function BlockId(i: nat): string { UrlBlockPrefix + NatDigits(i) }

  /** The action id of URL slot i, "pr_url_%d". */
  function ActionId(i: nat): string { UrlActionPrefix + NatDigits(i) }

  lemma BlockIdInjective(i: nat, j: nat)
    requires BlockId(i) == BlockId(j)
    ensures i == j
  {
    var n := |UrlBlockPrefix|;
    assert NatDigits(i) == BlockId(i)[n..];
    assert NatDigits(j) == BlockId(j)[n..];
    NatDigitsInjective(i, j);
  }

  /** One input element of a submitted or updated view. */
  datatype ActionValue = ActionValue(value: string, selectedUsers: seq<string>)

  /** view.state.values: block id, then action id. */
  type ViewValues = map<string, map<string, ActionValue>>

  /** values[block][action].Value, the empty string when either is missing. */
  function FieldValue(values: ViewValues, block: string, action: string): string
  {
    if block in values && action in values[block] then values[block][action].value else ""
  }

  /** values[block][action].SelectedUsers, empty when either is missing. */
  function SelectedUsers(values: ViewValues, block: string, action: string): seq<string>
  {
    if block in values && action in values[block] then values[block][action].selectedUsers else []
  }

  // ---------------------------------------------------------------------
  // The URL slots of a view

  /** Slots 0 .. n-1 are in the view and slot n is not. */
  ghost predicate IsSlotRun(values: ViewValues, n: nat)
  {
    && (forall i :: 0 <= i < n ==> BlockId(i) in values)
    && BlockId(n) !in values
  }

  function SlotIds(n: nat): set<string>
  {
    set i | 0 <= i < n :: BlockId(i)
  }

  /** Slots have pairwise different block ids, so n slots are n blocks. */
  lemma {:induction false} SlotIdsCount(n: nat)
    ensures |SlotIds(n)| == n
  {
    if n > 0 {
      SlotIdsCount(n - 1);
      assert SlotIds(n) == SlotIds(n - 1) + {BlockId(n - 1)};
      if BlockId(n - 1) in SlotIds(n - 1) {
        var i :| 0 <= i < n - 1 && BlockId(i) == BlockId(n - 1);
        BlockIdInjective(i, n - 1);
      }
    }
  }

  /** A view cannot hold more slots than it has blocks. */
  lemma SlotsBounded(values: ViewValues, n: nat)
    requires forall i :: 0 <= i < n ==> BlockId(i) in values
    requires BlockId(n) in values
    ensures n < |values.Keys|
  {
    var ids := SlotIds(n + 1);
    SlotIdsCount(n + 1);
    assert ids <= values.Keys;
    Reviews.SubsetCardinality(ids, values.Keys);
  }

  /** Every view has exactly one slot count. */
  lemma SlotRunUnique(values: ViewValues, m: nat, n: nat)
    requires IsSlotRun(values, m) && IsSlotRun(values, n)
    ensures m == n
  {
    assert !(m < n) && !(n < m);
  }

  /** Every view has a run of slots: the walk from slot 0 stops within its blocks. */
  lemma SlotRunExists(values: ViewValues)
    ensures exists n: nat :: IsSlotRun(values, n)
  {
    var n: nat := 0;
    while BlockId(n) in values
      invariant forall j :: 0 <= j < n ==> BlockId(j) in values
      decreases |values.Keys| - n
    {
      SlotsBounded(values, n);
      n := n + 1;
    }
    assert IsSlotRun(values, n);
  }

  /** The number of URL slots a view holds. */
  ghost function SlotCount(values: ViewValues): (n: nat)
    ensures IsSlotRun(values, n)
  {
    SlotRunExists(values);
    var n: nat :| IsSlotRun(values, n); n
  }

  /** The values of slots 0 .. n-1, in slot order. */
  function SlotValues(values: ViewValues, n: nat): (urls: seq<string>)
    ensures |urls| == n
  {
    seq(n, i requires 0 <= i < n => FieldValue(values, BlockId(i), ActionId(i)))
  }

  /** The collecting loop of handleAddRemovePR: walk the slots 0, 1, ... and stop at
      the first one missing from the view. */
  method CollectSlots(values: ViewValues) returns (urls: seq<string>)
    ensures IsSlotRun(values, |urls|)
    ensures urls == SlotValues(values, |urls|)
  {
    urls := [];
    var i := 0;
    while BlockId(i) in values
      invariant i == |urls|
      invariant forall j :: 0 <= j < i ==> BlockId(j) in values
      invariant urls == SlotValues(values, i)
      decreases |values.Keys| - i
    {
      SlotsBounded(values, i);
      urls := urls + [FieldValue(values, BlockId(i), ActionId(i))];
      i := i + 1;
    }
  }

  /** The slot count after a click: "add" adds one, "remove" takes one away but never
      the last. */
  function NextCount(action: string, n: nat): (m: nat)
    ensures action == AddUrlAction ==> m == n + 1
    ensures action != AddUrlAction ==> m == (if n > 1 then n - 1 else n) && (n >= 1 ==> m >= 1)
  {
    if action == AddUrlAction then n + 1 else if n > 1 then n - 1 else n
  }

  /** What handleAddRemovePR hands to the block builders: the edit modal keeps the
      title, the URLs typed so far and the reviewers; the track modal only needs the count. */
  datatype SlotLayout =
    | EditLayout(title: string, urls: seq<string>, numFields: nat, reviewerIds: seq<string>)
    | TrackLayout(numFields: nat)

  /** handleAddRemovePR (interaction_handler.go): count and collect the slots, apply
      the click, and lay the modal out again. */
  method HandleAddRemovePR(values: ViewValues, action: string, callbackId: string) returns (layout: SlotLayout)
    ensures layout.EditLayout? <==> callbackId == EditCallback
    ensures forall n: nat :: IsSlotRun(values, n) ==>
              && layout.numFields == NextCount(action, n)
              && (layout.EditLayout? ==>
                    && layout.urls == (if action != AddUrlAction && n > 1 then SlotValues(values, n - 1)
                                       else SlotValues(values, n))
                    && layout.title == FieldValue(values, TitleBlock, TitleAction)
                    && layout.reviewerIds == SelectedUsers(values, ReviewersBlock, ReviewersAction))
  {
    var urls := CollectSlots(values);
    var collected := |urls|;
    var count := collected;
    if action == AddUrlAction {
      count := count + 1;
    } else if count > 1 {
      count := count - 1;
      urls := urls[..|urls| - 1];
      assert urls == SlotValues(values, collected - 1);
    }
    forall n: nat | IsSlotRun(values, n) ensures n == collected {
      SlotRunUnique(values, n, collected);
    }
    if callbackId == EditCallback {
      layout := EditLayout(FieldValue(values, TitleBlock, TitleAction), urls, count,
                           SelectedUsers(values, ReviewersBlock, ReviewersAction));
    } else {
      layout := TrackLayout(count);
    }
  }

  // ---------------------------------------------------------------------
  // server.go: the slot count is the number of blocks carrying the prefix

  function CountPrefixed(blockIds: seq<string>): nat
  {
    if |blockIds| == 0 then 0
    else CountPrefixed(blockIds[..|blockIds| - 1]) + (if HasPrefix(blockIds[|blockIds| - 1], UrlBlockPrefix) then 1 else 0)
  }

  /** handleBlockAction (server.go): count the blocks whose id starts with the slot
      prefix, then apply the click. */
  method CountURLBlocks(blockIds: seq<string>, action: string) returns (numFields: nat)
    ensures numFields == NextCount(action, CountPrefixed(blockIds))
  {
    var n := 0;
    var i := 0;
    while i < |blockIds|
      invariant 0 <= i <= |blockIds|
      invariant n == CountPrefixed(blockIds[..i])
    {
      assert blockIds[..i + 1][..i] == blockIds[..i];
      if HasPrefix(blockIds[i], UrlBlockPrefix) {
        n := n + 1;
      }
      i := i + 1;
    }
    assert blockIds[..i] == blockIds;
    if action == AddUrlAction {
      n := n + 1;
    } else if n > 1 {
      n := n - 1;
    }
    numFields := n;
  }

  function SlotBlockIds(n: nat): (ids: seq<string>)
    ensures |ids| == n
  {
    seq(n, i requires 0 <= i < n => BlockId(i))
  }

  /** On a modal laid out with slots 0 .. n-1 among other blocks that do not carry the
      prefix, counting by prefix gives n: both ways of counting agree on such a view. */
  lemma {:induction false} PrefixCountOfSlots(n: nat, others: seq<string>)
    requires forall b :: b in others ==> !HasPrefix(b, UrlBlockPrefix)
    ensures CountPrefixed(SlotBlockIds(n) + others) == n
  {
    if |others| > 0 {
      var init := others[..|others| - 1];
      PrefixCountOfSlots(n, init);
      assert (SlotBlockIds(n) + others)[..n + |others| - 1] == SlotBlockIds(n) + init;
    } else {
      assert SlotBlockIds(n) + others == SlotBlockIds(n);
      SlotsCountPrefixed(n);
    }
  }

  lemma {:induction false} SlotsCountPrefixed(n: nat)
    ensures CountPrefixed(SlotBlockIds(n)) == n
  {
    if n > 0 {
      SlotsCountPrefixed(n - 1);
      assert SlotBlockIds(n)[..n - 1] == SlotBlockIds(n - 1);
      assert HasPrefix(BlockId(n - 1), UrlBlockPrefix);
    }
  }

  // ---------------------------------------------------------------------
  // Opening the edit modal

  /** The fields of the edit modal handleEditTrackerButton opens. */
  datatype EditModal = EditModal(title: string, urls: seq<string>, numFields: nat, reviewerIds: set<string>, metadata: string)

  function Urls(prs: seq<PullRequest>): (urls: seq<string>)
    ensures |urls| == |prs| && forall i :: 0 <= i < |prs| ==> urls[i] == prs[i].url
  {
    seq(|prs|, i requires 0 <= i < |prs| => prs[i].url)
  }

  /** The users linked to any of the given pull requests. */
  ghost predicate ReviewsAny(links: seq<Reviewer>, prs: seq<PullRequest>, user: string)
  {
    exists p :: p in prs && Reviewer(p.id, user) in links
  }

  /** handleEditTrackerButton: read the tracker id from the button, load its pull
      requests and their reviewers, and fill the modal. Nothing opens for an id that
      does not parse or a tracker that does not exist. */
  method OpenEditModal(db: Database, buttonValue: string) returns (modal: Option<EditModal>)
    ensures modal.None? <==> Atoi(buttonValue).Failure? || db.GetTrackerByID(Atoi(buttonValue).value).None?
    ensures modal.Some? ==>
              var id := Atoi(buttonValue).value;
              var prs := RowsOfTracker(db.pullRequests, id);
              && modal.value.title == db.GetTrackerByID(id).value.title
              && modal.value.urls == Urls(prs)
              && modal.value.numFields == (if |prs| == 0 then 1 else |prs|)
              && (forall u :: u in modal.value.reviewerIds <==> ReviewsAny(db.reviewers, prs, u))
              && modal.value.metadata == Itoa(id)
  {
    var parsed := Atoi(buttonValue);
    if parsed.Failure? {
      return None;
    }
    var trackerId := parsed.value;
    var tracker := db.GetTrackerByID(trackerId);
    if tracker.None? {
      return None;
    }
    var prs := db.GetPullRequestsByTracker(trackerId);
    var urls := CollectUrls(prs);
    var reviewerSet := CollectReviewers(db, prs);
    var numFields := |urls|;
    if numFields == 0 {
      numFields := 1;
    }
    modal := Some(EditModal(tracker.value.title, urls, numFields, reviewerSet, Itoa(trackerId)));
  }

  /** The links of the tracker's pull requests, in order. */
  method CollectUrls(prs: seq<PullRequest>) returns (urls: seq<string>)
    ensures urls == Urls(prs)
  {
    urls := [];
    var i := 0;
    while i < |prs|
      invariant 0 <= i <= |prs|
      invariant urls == Urls(prs[..i])
    {
      urls := urls + [prs[i].url];
      i := i + 1;
    }
    assert prs[..i] == prs;
  }

  /** The reviewer set: every user linked to any of the pull requests, once. */
  method CollectReviewers(db: Database, prs: seq<PullRequest>) returns (reviewerSet: set<string>)
    ensures forall u :: u in reviewerSet <==> ReviewsAny(db.reviewers, prs, u)
  {
    reviewerSet := {};
    var i := 0;
    while i < |prs|
      invariant 0 <= i <= |prs|
      invariant forall u :: u in reviewerSet <==> ReviewsAny(db.reviewers, prs[..i], u)
    {
      var users := db.GetReviewersByPR(prs[i].id);
      reviewerSet := AddAll(reviewerSet, users);
      forall u ensures u in reviewerSet <==> ReviewsAny(db.reviewers, prs[..i + 1], u) {
        LinkedUsers(db.reviewers, prs[i].id, u);
        assert prs[..i + 1] == prs[..i] + [prs[i]];
      }
      i := i + 1;
    }
    assert prs[..i] == prs;
  }

  /** reviewerSet[uid] = true for each user in turn. */
  method AddAll(s: set<string>, users: seq<string>) returns (r: set<string>)
    ensures forall u :: u in r <==> u in s || u in users
  {
    r := s;
    var j := 0;
    while j < |users|
      invariant 0 <= j <= |users|
      invariant forall u :: u in r <==> u in s || u in users[..j]
    {
      assert users[..j + 1] == users[..j] + [users[j]];
      r := r + {users[j]};
      j := j + 1;
    }
    assert users[..j] == users;
  }

  /** A user is among a pull request's reviewers exactly when a link row joins them. */
  lemma LinkedUsers(links: seq<Reviewer>, pullRequestId: int, user: string)
    ensures user in ReviewersOf(links, pullRequestId) <==> Reviewer(pullRequestId, user) in links
  {
    ReviewersOfCountsLinks(links, pullRequestId, user);
  }
}
