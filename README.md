# revue — a Dafny model of the tracker core

revue is a Slack bot that tracks GitHub pull requests. A user opens a modal, enters
pull-request links, a title and reviewers, and the bot posts a tracker message in the
channel. It stores a tracker row, one pull-request row per link and the reviewer
links in SQL. GitHub webhooks then keep the approval counts and statuses current, and
an edit modal lets the user change the tracked links, the title and the reviewers.

This project models that core in Dafny and proves what it promises:

- `PullRequestUrl` (pull_request_url.dfy) — `parsePRURL`. This covers trimming, a
  reduced `url.Parse`, the host check, the four-segment `owner/repo/pull/n` path and the
  number read. It includes the round trip from the canonical link.
- `Text` (text.dfy) — the string library pieces the core relies on: `TrimSpace`,
  `Trim`, `Split`/`Join`, `Itoa`/`ParseInt`.
- `Reviews` (reviews.dfy) — `fetchRequiredApprovals`'s fallback chain and
  `fetchPRReviewState`'s reduction of the review list. The GitHub answers are inputs.
- `Status` (status.dfy) — the initial status priority merged > closed >
  changes_requested > approved.
- `Store` (store.dfy) — the SQL tables as a class `Database` of three row sequences
  with auto-incremented ids. Every query and update of db/pull_request.go and
  db/tracker.go is a method or function on it.
- `Webhooks` (webhooks.dfy) — `findTrackedPR`, `handlePRReview` and
  `handlePRStateChange` as read-modify-write methods on the store.
- `Forms` (forms.dfy) — the URL-slot walk and the add/remove state machine of both
  handlers. It also covers the block count of server.go and the filling of the edit
  modal.
- `Submission` (submission.dfy) — slot validation that stops at the first bad slot,
  the per-repository approval cache, and the insertion of one pull request with its
  initial approvals and status.
- `Messages` (messages.dfy) — the placeholder text and the full first message of
  `postTrackerMessage`.
- `Track` (track.dfy) — `handleTrackPRSubmission` of both flows: interaction_handler.go
  (the modal flow) and server.go (the older flow).
- `Edit` (edit.dfy) — `handleEditTrackerSubmission`. It diffs the submitted links
  against the tracker's rows, deletes and inserts rows, and replaces the reviewers.

GitHub is the `Submission.GitHub` datatype of functions that stand in for the REST
answers. Slack's answers are parameters: the timestamp of a posted message, or none.
The handlers return what they would write back to Slack or trigger next: the response,
the message text, and the tracker to refresh.

Two source files disagree with their callers, and the model follows each file as
written:

- `CreatePullRequest` exists with 8 arguments (db/pull_request.go:23) and with 6
  (db/tracker.go:19). Both are modelled: `Store.Database.CreatePullRequest` and
  `Store.Database.CreateUntitledPullRequest`. The call at server.go:242 passes no title,
  so it is modelled as inserting the schema's default title.
- `CreateTracker` takes no title (db/tracker.go:7), but both handlers pass one
  (interaction_handler.go:247). The tracker row carries a title so that the callers'
  behaviour can be stated.

The approval branch of `handlePRReview` (github_handler.go:84-95) has no guard for
merged or closed rows; `Webhooks.ApprovalOverwritesMerged` states the consequence.

## Model

| member | source | states |
|---|---|---|
| PullRequestUrl.ParsePRURL | server/parse.go:19-48 | On success the stored URL is the whitespace-trimmed input, never the raw one, and neither owner nor repo holds a slash. |
| PullRequestUrl.ParseAcceptsOnlyPullLinks | server/parse.go:27-47 | A success means the host is exactly github.com and the trimmed path splits into exactly 4 segments with `pull` third. Owner and repo are segments 0 and 1, and the number is segment 3 read as an integer. |
| PullRequestUrl.ParseRefusals | server/parse.go:22-40 | Each refusal is tied to its check, in order: a URL that does not parse, a host other than github.com, a path that is not owner/repo/pull/n, and a fourth segment that is not an integer. |
| PullRequestUrl.PathSegments | server/parse.go:32 | Trimming slashes and splitting at '/' gives at least one segment, and no segment holds a slash. |
| PullRequestUrl.ParseGitHubLink | server/parse.go:19-48 | https://github.com/owner/repo/pull/n, with or without a trailing slash, parses to (owner, repo, n) when n reads as an integer and fails with the number error otherwise. |
| PullRequestUrl.ParseFormatRoundTrip | server/parse.go:17-18 | Parsing the canonical link of (owner, repo, number) gives back exactly owner, repo, number and the link, for plain owner/repo segments and any 64-bit number. |
| PullRequestUrl.ParseTrailingSlash | server/parse.go:32 | A trailing slash after the number parses to the same owner, repo and number. |
| PullRequestUrl.SplitGitHubUrl | server/parse.go:22-27 | The reduced url.Parse of https://github.com + path yields scheme https, host github.com and that path. |
| PullRequestUrl.GitHubPathSegments | server/parse.go:32-33 | /owner/repo/pull/n, with or without one more slash, splits into exactly [owner, repo, pull, n]. |
| Text.TrimSpace | server/parse.go:20 | Neither end of the result is white space. |
| Text.TrimSpaceInfix | server/parse.go:20 | The result is an infix of the input with only white space cut on either side; with the ends above, exactly the leading and trailing white space is removed. |
| Text.TrimSpaceNoop | server/parse.go:20 | Trimming a string whose ends are not white space leaves it unchanged. |
| Text.TrimChar | server/parse.go:32 | Neither end of strings.Trim(path, "/") is a slash. |
| Text.TrimCharInfix | server/parse.go:32 | The result is an infix of the path with only slashes cut on either side; with the ends above, exactly the leading and trailing slashes are removed. |
| Text.SplitJoin | server/parse.go:32 | Splitting a join of separator-free pieces gives the pieces back. |
| Text.JoinSplit | server/parse.go:32 | Joining the pieces of a split with the separator gives the string back. |
| Text.JoinFramed | server/server.go:329 | Joining a heading, some lines and a final line with "\n" is the heading, "\n", each line followed by "\n", then the final line. |
| Text.Atoi | server/parse.go:37 | A string succeeds iff it is an optional sign plus at least one decimal digit whose signed value lies in the 64-bit range, and the value read is that signed value. A decimal string out of range is a range error, and anything else is a syntax error. |
| Text.ItoaAtoi | server/interaction_handler.go:360 | Reading back the decimal form of any 64-bit id gives the id. This is the tracker id carried in the private metadata and in the Edit button. |
| Text.NatDigitsInjective | server/interaction_handler.go:202 | Distinct slot numbers give distinct decimal forms, so the slot block ids are distinct. |
| Reviews.FetchRequiredApprovals | server/github_handler.go:168-198 | The count is always at least 1. An error is reported exactly when the repository lookup fails, or the protection lookup fails other than 404. A count other than 1 comes only from a configured positive rule on the default branch. |
| Reviews.RequiredOrDefault | server/interaction_handler.go:259-265 | The value kept in the cache is at least 1, and is 1 whenever the lookup reported an error. |
| Reviews.Snapshot | server/github_handler.go:212-257 | Merged and closed are never both set. A failed pull-request fetch gives the zero state with an error. Success means both fetches succeeded. A failed call counts no approvals and no change request. |
| Reviews.CollectLatestByUser | server/github_handler.go:237-245 | The first loop builds exactly the map of each user's latest APPROVED or CHANGES_REQUESTED state. |
| Reviews.CountLatest | server/github_handler.go:247-254 | The second loop counts the users whose latest state is APPROVED and sets the flag iff some latest state is CHANGES_REQUESTED. |
| Reviews.FetchPRReviewState | server/github_handler.go:212-257 | The method returns exactly the snapshot of the two GitHub answers. |
| Reviews.LatestIsLastActionable | server/github_handler.go:238-245 | A user is in the map iff they have an actionable review, and the map holds the state of their last actionable review in list order. |
| Reviews.SnapshotCountsLatestReviews | server/github_handler.go:237-254 | Approvals equals the number of users whose last actionable review approves. ChangesRequested holds iff some user's last actionable review requests changes. |
| Reviews.SnapshotApprovalsBounded | server/github_handler.go:247-251 | Approvals never exceeds the number of distinct reviewers. |
| Reviews.OtherStatesIgnored | server/github_handler.go:241-244 | Reviews in any other state (COMMENTED, PENDING, DISMISSED) have no effect on the map. |
| Status.InitialStatusIsHighestCandidate | server/interaction_handler.go:292-303 | The initial status is the highest-priority status whose condition holds (merged > closed > changes_requested > approvals ≥ required), and none when no condition holds. |
| Status.FailedFetchWritesNoStatus | server/server.go:251-279 | A snapshot whose pull-request fetch failed yields no status. |
| Status.ApprovalThreshold | server/interaction_handler.go:301-302 | For an open pull request without a change request, the status is approved iff approvals ≥ required, and none otherwise. |
| Store.AppendPullRequest | db/pull_request.go:23-32 | Appending a row with the next id keeps ids positive, below the counter and increasing along the table. |
| Store.UpdateOnlyTouchesColumn | db/pull_request.go:62-87 | An UPDATE ... WHERE id sets its one column on the rows of that id. Rows keep their id and every other column, other rows are untouched, and an absent id leaves the table as it was. |
| Store.FirstMatch | db/pull_request.go:46-60 | The row found matches owner, repo and number. None is returned iff no row matches (the ErrNoRows case). |
| Store.RowsOfTrackerExact | db/pull_request.go:90-118 | The tracker's rows are exactly the rows whose tracker_id matches. |
| Store.ReviewersOfCountsLinks | db/pull_request.go:121-145 | A user appears among a pull request's reviewers once per link row, duplicates included. |
| Store.WithoutPullRequestKeeps | server/interaction_handler.go:442-448 | After DeletePullRequest the rows left are exactly the rows of other ids. |
| Store.WithoutPullRequestValid | server/interaction_handler.go:442-448 | Deleting rows keeps the id invariant of the table. |
| Store.ReviewersOfWithout | server/interaction_handler.go:520-523 | After DeleteReviewersByPR the pull request has no users, and every other pull request keeps its own users in order. |
| Store.TrackerById | server/interaction_handler.go:416-421 | A tracker is found iff a row has that id, and the row found has it. |
| Store.Retitled | server/interaction_handler.go:422-426 | UpdateTrackerTitle changes the title of that tracker and nothing else. |
| Store.Database.constructor | db/tracker.go:7-16 | The tables start empty and valid. |
| Store.Database.CreateTracker | db/tracker.go:7-16 | Exactly one tracker row is added, with the channel and an empty message timestamp. Its returned id was unused. The other tables are unchanged. |
| Store.Database.UpdateTrackerMessageTS | db/tracker.go:42-48 | Only the timestamp of the given tracker changes. |
| Store.Database.UpdateTrackerTitle | server/interaction_handler.go:422-426 | The trackers table becomes Retitled, and the other tables are unchanged. |
| Store.Database.GetTrackerByID | server/interaction_handler.go:416-421 | The tracker found is in the table with that id, and none is found iff no row has the id. |
| Store.Database.CreatePullRequest | db/pull_request.go:23-33 | Exactly one row is added with the given tracker, owner, repo, number, url, title and required count, under a fresh id. |
| Store.Database.CreateUntitledPullRequest | db/tracker.go:19-29 | Exactly one row is added with the given tracker, owner, repo, number and url, and schema defaults elsewhere, under a fresh id. |
| Store.Database.CreateReviewer | db/pull_request.go:36-42 | Exactly one (pull request, user) link is added, and nothing else changes (also db/tracker.go:32-38). |
| Store.Database.FindPullRequest | db/pull_request.go:46-60 | The method returns a matching row, or none iff no row matches. |
| Store.Database.UpdatePullRequestApprovals | db/pull_request.go:63-69 | Only approvals_current of the rows with that id changes. |
| Store.Database.UpdatePullRequestTitle | db/pull_request.go:72-78 | Only the title of the rows with that id changes. |
| Store.Database.UpdatePullRequestStatus | db/pull_request.go:81-87 | Only the status of the rows with that id changes. |
| Store.Database.GetPullRequestsByTracker | db/pull_request.go:90-118 | The scanning loop returns the tracker's rows in table order. |
| Store.Database.GetReviewersByPR | db/pull_request.go:121-145 | The scanning loop returns the users linked to the pull request in table order. |
| Store.Database.DeletePullRequest | server/interaction_handler.go:442-448 | The rows of that id are removed, and the table stays valid. |
| Store.Database.DeleteReviewersByPR | server/interaction_handler.go:520-523 | The links of that pull request are removed. |
| Webhooks.HandlePRReview | server/github_handler.go:65-110 | The table becomes the reviewed table and the refresh is the found row's tracker. Trackers and links are unchanged. |
| Webhooks.ApplyReview | server/github_handler.go:84-105 | The writes for the found row leave the table with that row replaced by its reviewed form and every other row as it was. |
| Webhooks.HandlePRStateChange | server/github_handler.go:115-163 | The table becomes the changed table. The refresh and completion-check requests are those of the event. Trackers and links are unchanged. |
| Webhooks.FoundRowIsOnlyRowWithId | server/github_handler.go:51-61 | In a valid table the row findTrackedPR returns is the only row with its id. |
| Webhooks.IgnoredReviewChangesNothing | server/github_handler.go:66-82 | A review that is not a submitted approval or change request, or one for an untracked pull request, changes nothing and refreshes nothing. |
| Webhooks.ReviewUpdatesTrackedRow | server/github_handler.go:84-107 | Only the found row changes. An approval sets approvals to the stored count + 1, and sets approved iff the new count reaches the requirement and the status was not approved. A change request sets approvals to 0 and status changes_requested. The found row's tracker is refreshed. |
| Webhooks.ApprovalOverwritesMerged | server/github_handler.go:90-95 | An approval that reaches the requirement turns a merged pull request into an approved one. |
| Webhooks.UntrackedStateChangeDoesNothing | server/github_handler.go:118-125 | An event for an untracked pull request changes nothing and triggers nothing. |
| Webhooks.StateChangeUpdatesTrackedRow | server/github_handler.go:127-162 | Only the found row changes. The title is synced only when non-empty and different. A close sets merged or closed. Other actions leave status and approvals alone. |
| Forms.BlockIdInjective | server/interaction_handler.go:202 | Different slots have different block ids. |
| Forms.SlotRunExists | server/interaction_handler.go:62-71 | Every view has a run of slots 0 .. n-1 with slot n missing. |
| Forms.SlotRunUnique | server/interaction_handler.go:62-71 | That run is unique. |
| Forms.SlotsBounded | server/interaction_handler.go:62-71 | A view holds fewer slots than blocks, which is why the walk stops. |
| Forms.SlotCount | server/interaction_handler.go:62-71 | The slot count of a view is its contiguous run of slots. |
| Forms.SlotValues | server/interaction_handler.go:69 | The collected values are one per slot, in slot order. |
| Forms.CollectSlots | server/interaction_handler.go:60-71 | The loop stops at the first missing slot and returns the values of the run, in slot order. |
| Forms.NextCount | server/interaction_handler.go:73-78 | "add" gives n+1. "remove" gives n-1 when n > 1 and n otherwise, and never goes below 1 from 1. |
| Forms.HandleAddRemovePR | server/interaction_handler.go:55-109 | The new count is NextCount of the slot run. The edit layout keeps the collected URLs, dropping only the last one on a remove with more than one slot, and carries the title and the selected reviewers. |
| Forms.CountURLBlocks | server/server.go:110-125 | The count is NextCount of the number of blocks whose id starts with pr_url_block_, wherever they are. |
| Forms.PrefixCountOfSlots | server/server.go:114-119 | On a modal holding slots 0 .. n-1 among blocks without the prefix, the prefix count is n, so both ways of counting agree. |
| Forms.OpenEditModal | server/interaction_handler.go:113-175 | Nothing opens for an id that does not parse or an unknown tracker. Otherwise the modal has the tracker's title, its links in table order and max(1, #links) slots. The reviewer set holds exactly the users linked to any of its pull requests, and the metadata is the decimal id. |
| Forms.CollectUrls | server/interaction_handler.go:128-131 | The loop collects the links of the rows in order. |
| Forms.CollectReviewers | server/interaction_handler.go:133-149 | The set holds exactly the users linked to any of the rows. |
| Forms.AddAll | server/interaction_handler.go:146-148 | The set grows by exactly the given users. |
| Forms.LinkedUsers | server/interaction_handler.go:140-148 | A user is among a pull request's reviewers iff a link row joins them. |
| Submission.RequiredFor | server/interaction_handler.go:259-265 | The cached requirement of a repository is at least 1. |
| Submission.FirstError | server/interaction_handler.go:201-227 | The walk returns all the parsed values, or the index and error of the first failure with every earlier entry a success. |
| Submission.CollectSubmittedPRs | server/interaction_handler.go:200-242 | The slot loop returns exactly Submitted of the slot run's values. |
| Submission.SubmittedReportsFirstBadSlot | server/interaction_handler.go:200-242 | A bad-URL refusal names the first slot that does not parse, and every earlier slot parses. An empty list is refused with NoUrls iff there are no slots. A submission is accepted iff every slot parses and there is at least one. |
| Submission.SubmittedParsesEachSlot | server/interaction_handler.go:210-226 | An accepted list holds the parse of every slot, in slot order, and each entry is well formed. |
| Submission.FailureAtSlot | server/interaction_handler.go:210-225 | A failure at slot i after slots 0 .. i exist is what the submission reports. |
| Submission.RepoKeyInjective | server/interaction_handler.go:258 | For parsed links, equal owner + "/" + repo keys mean equal owner and repo, so the cache never mixes repositories. |
| Submission.BuildApprovalCache | server/interaction_handler.go:256-267 | The cache holds exactly the submitted repositories, each with its requirement (≥ 1). The requirement is fetched once per repository: the fetched keys have no duplicates and are exactly the cache keys. |
| Submission.NewRowRecords | server/interaction_handler.go:279-309 | A new row stores the submitted link and the requirement. It stores the fetched approvals when positive. A merged pull request gets merged, one closed and not merged gets closed, and approved only when approvals reach the requirement. |
| Submission.UpdateLastRow | server/interaction_handler.go:286-309 | Updating the row just inserted changes only that row. |
| Submission.InsertPullRequest | server/interaction_handler.go:279-309 | Exactly one row is added: the new row with its initial approvals and status when the snapshot is applied. The id is fresh and nothing else changes. |
| Submission.AddReviewers | server/interaction_handler.go:311-317 | One link per selected user is added, in order. |
| Submission.LinksReadBack | server/interaction_handler.go:311-317 | Those links read back as exactly the selected users for that pull request and nothing for any other. |
| Messages.PlaceholderKeepsTitle | server/interaction_handler.go:345-355 | The placeholder "*title* — loading..." keeps the title whole: it reads back from the text. |
| Messages.Bullet | server/server.go:319-320 | Each pull-request line starts with "• <url\|". |
| Messages.TrackerTextLayout | server/server.go:314-329 | The message is the heading "*title*\n", then "\n", then each pull-request line in input order followed by "\n", then "\nReviewers: " and the space-joined mentions. |
| Track.CachedRequirements | server/server.go:317-318 | When the approval cache holds GitHub's requirement for each repository, every line of the message shows its own repository's requirement. |
| Messages.BuildTrackerText | server/server.go:314-329 | The two loops build exactly that text from the cache. |
| Messages.BulletLines | server/server.go:317-321 | The first loop gives one line per pull request, in input order, each with its repository's cached requirement. |
| Messages.MentionList | server/server.go:323-326 | The second loop gives one mention per reviewer, in order. |
| Track.TrackedRow | server/interaction_handler.go:270-309 | The row of a submitted pull request has its id, tracker, link and its repository's requirement. |
| Track.TrackedRowRecords | server/server.go:240-279 | In the modal flow the row takes the fetched title and state. In the server.go flow it takes the schema title, and approvals and status only when the fetch succeeded. Merged wins over closed in both. |
| Track.InsertTracked | server/interaction_handler.go:270-309 | The method appends exactly that row under a fresh id. |
| Track.TrackOne | server/interaction_handler.go:270-317 | The method appends that row and links every selected user to it. |
| Track.TrackEach | server/interaction_handler.go:269-318 | The insert loop appends the rows of all submitted pull requests in order under fresh, distinct ids, and links every selected user to each. |
| Track.HandleTrackPRSubmission | server/interaction_handler.go:193-340 | A refused form answers a field error on the first bad slot (or slot 0) and writes nothing. An accepted one creates one tracker and one row per link, links the reviewers, and posts the first message. It stores the timestamp and refreshes only when the post succeeded. |
| Track.TrackSubmitted | server/server.go:214-310 | The same after acceptance for the server.go flow: the full text of postTrackerMessage is posted and the rows take the schema title. |
| Track.FirstMessageText | server/server.go:290 | The text posted is the placeholder in the modal flow and the full tracker text in the server.go flow. |
| Track.StampTracker | server/interaction_handler.go:329-331 | Only the new tracker's timestamp is set. |
| Track.AllLinksReadBack | server/interaction_handler.go:311-317 | Each new pull request reads back exactly the selected users, and any other id reads back none of the new links. |
| Track.TrackedRows | server/interaction_handler.go:270-318 | After a submission the new tracker's rows are the rows it had before followed by the new rows, and every other tracker keeps its rows. |
| Track.TrackedReviewers | server/interaction_handler.go:311-317 | After a submission each new pull request adds the selected users to what it had, and other ids are unchanged. |
| Edit.IndexByUrl | server/interaction_handler.go:436-440 | The lookup table's keys are exactly the tracker's links, and each maps to a row with that link. |
| Edit.SubmittedUrlSet | server/interaction_handler.go:442-446 | The set is exactly the submitted links. |
| Edit.KeptRows | server/interaction_handler.go:448-455 | The kept rows are exactly the tracker's rows whose link is still submitted. |
| Edit.DeleteRemoved | server/interaction_handler.go:448-455 | The deletion loop removes exactly the tracker rows whose link was left out, and nothing else. |
| Edit.DeleteIfRemoved | server/interaction_handler.go:452-456 | One turn of the deletion loop deletes the row iff its link was left out. |
| Edit.AddedExact | server/interaction_handler.go:458-462 | The pull requests added are exactly the submitted ones whose link is not tracked yet. |
| Edit.InsertAdded | server/interaction_handler.go:459-513 | The insert loop appends one modal-flow row for each added pull request, in order, under fresh distinct ids. The requirements fetched have no repository twice and cover exactly the repositories of the added pull requests. |
| Edit.CachedRequirement | server/interaction_handler.go:466-476 | A cache hit or a fetch both give the repository's requirement and the cache stays consistent. The requirement is fetched only on a miss, so the fetched keys stay free of duplicates and equal to the cache keys. |
| Edit.Relink | server/interaction_handler.go:515-531 | The relinking loop leaves the link table as Relinked over the current rows' ids. |
| Edit.RelinkedReadBack | server/interaction_handler.go:515-531 | After relinking, each relinked pull request has exactly the chosen users in order, and every other pull request keeps its own. |
| Edit.HandleEditTrackerSubmission | server/interaction_handler.go:359-539 | An unparsable id is a bad request, and a refused form a field error; neither writes anything. An unknown tracker is an internal error with no write. Otherwise the outcome is Edited: title replaced only when changed, removed links deleted, new links inserted, every row relinked, tracker refreshed. |
| Edit.EditSubmitted | server/interaction_handler.go:414-539 | After the form is accepted the outcome is exactly Edited. |
| Edit.ReplaceRows | server/interaction_handler.go:429-513 | The deletions and inserts leave the table as EditedRows. |
| Edit.EditedTrackerRows | server/interaction_handler.go:424-513 | After an edit the tracker's rows are its kept rows, unchanged and in table order, followed by one new row per new link. Every other tracker keeps its rows. |
| Edit.EditTracksSubmittedUrls | server/interaction_handler.go:424-513 | Afterwards the tracker tracks exactly the submitted links. |
| Edit.EditReadBack | server/interaction_handler.go:414-531 | After an accepted edit the tracker's rows carry exactly the submitted links, each of them reads back exactly the chosen users, and other trackers keep their rows. |
| Edit.SameId | db/pull_request.go:9-20 | In a valid table a row is determined by its id. |

## Left out

- SQL and API failures: every store statement is modelled as succeeding, so the
  error branches that only log and continue are not modelled. The error paths that
  decide the answer are modelled: the ParseInt of the id, the parse of a slot, a
  missing tracker, a failed GitHub call and a failed message post. Row-close errors
  are left out.
- The schema is not shown: the values an INSERT leaves out (status, title, counts)
  are the `Store.ColumnDefaults` given to the store.
- `DeletePullRequest`, `DeleteReviewersByPR`, `GetTrackerByID` and `UpdateTrackerTitle`
  are called but their source is not part of this model. Each is modelled as doing
  what its name says to the in-memory tables.
- `updateTrackerMessage`, `CompleteTrackerIfDone`, `buildTrackModalBlocks` and
  `buildEditModalBlocks` are not part of this model. The handlers return the tracker
  to refresh or check, and the slot layout they hand to the builders.
- Slack and GitHub calls (PostMessage, UpdateView, OpenView, the REST endpoints)
  become parameters or the `GitHub` oracle. Their JSON encoding, the HTTP status codes
  and the error message strings are left out. Refusals are `ParseError` and
  `SubmitError` values.
- HMAC request verification, webhook signature checks and event decoding are left out.
  Events arrive already typed.
- `url.Parse` is reduced to control-character rejection, fragment and query cut-off,
  scheme, authority and user-info stripping. Percent-decoding, ports and host
  validation are not modelled.
- Go map iteration order: the reviewer set of the edit modal and the approval loop are
  modelled as sets and counts, not as ordered output.
- Concurrency, including the lost update between two approval events handled at the
  same time, is not modelled.
- Edit.AddedExact: a link submitted twice in an edit is inserted twice, as in the code.
  The model proves that the tracked set of links equals the submitted set, not that
  each link gets exactly one row.
- FindPullRequest's `QueryRow` takes the first matching row. The model picks the first
  in table order, while SQL's choice is unspecified.
- Deleting a pull request does not delete its reviewer links in the model, because the
  schema's cascade rules are not shown.
- Store.Database.CreateTracker: stores a title, which db/tracker.go:7 does not take.
- Integer widths: ids and counts are unbounded integers. Only the 64-bit range of the
  decimal reader is modelled.
