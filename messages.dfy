/** The Slack text posted when a tracker is created: the placeholder of the modal flow,
    and the full first message of the slash-command flow. */
module Messages {
  import opened Text
  import opened PullRequestUrl
  import opened Submission

  const LoadingSuffix: string := "* — loading..."
  const AwaitingPrefix: string := "> — :white_circle: awaiting review (0/"
  const ApprovalsSuffix: string := " approvals)"
  const ReviewersPrefix: string := "\nReviewers: "

  /** The placeholder "*<title>* — loading...". */
  function PlaceholderText(title: string): (text: string)
    ensures |text| == 1 + |title| + |LoadingSuffix|
  {
    "*" + title + LoadingSuffix
  }

  /** The title read back from a placeholder. */
  function PlaceholderTitle(text: string): string
    requires |text| >= 1 + |LoadingSuffix|
  {
    text[1..|text| - |LoadingSuffix|]
  }

  /** The placeholder keeps the title whole: it can be read back from the text. */
  lemma PlaceholderKeepsTitle(title: string)
    ensures PlaceholderTitle(PlaceholderText(title)) == title
    ensures PlaceholderText(title)[..1] == "*"
    ensures PlaceholderText(title)[|PlaceholderText(title)| - |LoadingSuffix|..] == LoadingSuffix
  {
    var text := PlaceholderText(title);
    assert text == ("*" + title) + LoadingSuffix;
    assert text[..1 + |title|] == "*" + title;
  }

  /** The heading line, "*<title>*\n". */
  function Heading(title: string): string { "*" + title + "*\n" }

  /** One pull request line, "• <url|owner/repo#n> — :white_circle: awaiting review (0/r approvals)". */
  function Bullet(p: ParsedPR, required: int): (line: string)
    ensures HasPrefix(line, "• <" + p.url + "|")
  {
    var line := "• <" + p.url + "|" + p.owner + "/" + p.repo + "#" + Itoa(p.number)
                + AwaitingPrefix + Itoa(required) + ApprovalsSuffix;
    assert line == ("• <" + p.url + "|") + (p.owner + "/" + p.repo + "#" + Itoa(p.number)
                                           + AwaitingPrefix + Itoa(required) + ApprovalsSuffix);
    PrefixOfConcat("• <" + p.url + "|", p.owner + "/" + p.repo + "#" + Itoa(p.number)
                                        + AwaitingPrefix + Itoa(required) + ApprovalsSuffix);
    line
  }

  lemma PrefixOfConcat(a: string, b: string)
    ensures HasPrefix(a + b, a)
  {
    assert (a + b)[..|a|] == a;
  }

  /** A Slack mention, "<@id>". */
  function Mention(userId: string): string { "<@" + userId + ">" }

  /** The lines of the pull requests, in the order submitted; `required` is what the
      approval cache holds for each. */
  function Bullets(prs: seq<ParsedPR>, required: seq<int>): (lines: seq<string>)
    requires |required| == |prs|
    ensures |lines| == |prs|
    ensures forall k :: 0 <= k < |prs| ==> lines[k] == Bullet(prs[k], required[k])
  {
    seq(|prs|, k requires 0 <= k < |prs| => Bullet(prs[k], required[k]))
  }

  function Mentions(userIds: seq<string>): (ms: seq<string>)
    ensures |ms| == |userIds|
    ensures forall k :: 0 <= k < |userIds| ==> ms[k] == Mention(userIds[k])
  {
    seq(|userIds|, k requires 0 <= k < |userIds| => Mention(userIds[k]))
  }

  /** The first message of the slash-command flow: the heading, one line per pull
      request and the reviewers' mentions, joined with newlines. */
  function TrackerText(title: string, prs: seq<ParsedPR>, required: seq<int>, userIds: seq<string>): string
    requires |required| == |prs|
  {
    Join([Heading(title)] + Bullets(prs, required) + [ReviewersPrefix + Join(Mentions(userIds), " ")], "\n")
  }

  /** The text is the heading, then every pull request line followed by a newline, then
      the reviewers line: nothing else, in that order. */
  lemma TrackerTextLayout(title: string, prs: seq<ParsedPR>, required: seq<int>, userIds: seq<string>)
    requires |required| == |prs|
    ensures TrackerText(title, prs, required, userIds)
            == Heading(title) + "\n" + Terminated(Bullets(prs, required), "\n")
               + ReviewersPrefix + Join(Mentions(userIds), " ")
  {
    JoinFramed(Heading(title), Bullets(prs, required), ReviewersPrefix + Join(Mentions(userIds), " "), "\n");
  }

  /** The requirement of each pull request, looked up in the approval cache. */
  function Cached(prs: seq<ParsedPR>, cache: map<string, int>): (required: seq<int>)
    requires forall k :: 0 <= k < |prs| ==> RepoKey(prs[k]) in cache
    ensures |required| == |prs|
    ensures forall k :: 0 <= k < |prs| ==> required[k] == cache[RepoKey(prs[k])]
  {
    seq(|prs|, k requires 0 <= k < |prs| => cache[RepoKey(prs[k])])
  }

  /** postTrackerMessage of the slash-command flow, building the lines one by one. */
  method BuildTrackerText(title: string, prs: seq<ParsedPR>, cache: map<string, int>, userIds: seq<string>)
    returns (text: string)
    requires forall k :: 0 <= k < |prs| ==> RepoKey(prs[k]) in cache
    ensures text == TrackerText(title, prs, Cached(prs, cache), userIds)
  {
    var bullets := BulletLines(prs, cache);
    var mentions := MentionList(userIds);
    text := Join([Heading(title)] + bullets + [ReviewersPrefix + Join(mentions, " ")], "\n");
  }

  /** The first loop of postTrackerMessage: one line per pull request, in order. */
  method BulletLines(prs: seq<ParsedPR>, cache: map<string, int>) returns (lines: seq<string>)
    requires forall k :: 0 <= k < |prs| ==> RepoKey(prs[k]) in cache
    ensures lines == Bullets(prs, Cached(prs, cache))
  {
    lines := [];
    var i := 0;
    while i < |prs|
      invariant 0 <= i <= |prs|
      invariant |lines| == i
      invariant forall k :: 0 <= k < i ==> lines[k] == Bullet(prs[k], cache[RepoKey(prs[k])])
    {
      lines := lines + [Bullet(prs[i], cache[RepoKey(prs[i])])];
      i := i + 1;
    }
  }

  /** The second loop of postTrackerMessage: one mention per reviewer, in order. */
  method MentionList(userIds: seq<string>) returns (mentions: seq<string>)
    ensures mentions == Mentions(userIds)
  {
    mentions := [];
    var i := 0;
    while i < |userIds|
      invariant 0 <= i <= |userIds|
      invariant |mentions| == i
      invariant forall k :: 0 <= k < i ==> mentions[k] == Mention(userIds[k])
    {
      mentions := mentions + [Mention(userIds[i])];
      i := i + 1;
    }
  }
}
