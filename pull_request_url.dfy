/** server/parse.go: turning a pasted GitHub pull-request link into
    (owner, repo, number). The standard library's url.Parse is modelled by
    `SplitUrl`, which keeps the decisions that decide the host and the path. */
module PullRequestUrl {
  import opened Wrappers
  import opened Text

  /** parsedPR: what a successfully parsed link names. `url` is the trimmed input. */
  datatype ParsedPR = ParsedPR(owner: string, repo: string, number: int, url: string)

  datatype UrlError = InvalidControlCharacter | MissingProtocolScheme | ColonInFirstPathSegment

  datatype ParseError =
    | InvalidUrl(cause: UrlError)
    | NotGitHub
    | NotPullRequestPath
    | InvalidNumber(numError: NumError)

  /** The parts of a URL that parsePRURL looks at. */
  datatype UrlParts = UrlParts(scheme: string, host: string, path: string)

  const GitHubHost: string := "github.com"
  const PullSegment: string := "pull"

  // ---------------------------------------------------------------------
  // url.Parse, simplified

  /** An ASCII control byte, which url.Parse refuses anywhere before the fragment. */
  predicate IsControl(c: char) { c < ' ' || c == '\U{007F}' }

  predicate HasControl(s: string) { exists i :: 0 <= i < |s| && IsControl(s[i]) }

  predicate IsAsciiLetter(c: char) { 'a' <= c <= 'z' || 'A' <= c <= 'Z' }

  /** url.Parse's getScheme, scanning from index i: a scheme is a letter followed by
      letters, digits, '+', '-' or '.', ended by ':'. */
  function SchemeFrom(s: string, i: nat): Result<(string, string), UrlError>
    requires i <= |s|
    decreases |s| - i
  {
    if i == |s| then Success(("", s))
    else if IsAsciiLetter(s[i]) then SchemeFrom(s, i + 1)
    else if IsDigit(s[i]) || s[i] == '+' || s[i] == '-' || s[i] == '.' then
      if i == 0 then Success(("", s)) else SchemeFrom(s, i + 1)
    else if s[i] == ':' then
      if i == 0 then Failure(MissingProtocolScheme) else Success((s[..i], s[i + 1..]))
    else Success(("", s))
  }

  /** The host of an authority: whatever follows the last '@' (the user info is dropped). */
  function HostOf(authority: string): string
  {
    match LastIndexOf(authority, '@')
    case None => authority
    case Some(i) => authority[i + 1..]
  }

  /** The part of `s` before the first `c`, all of `s` when there is none. */
  function Before(s: string, c: char): (r: string)
    ensures c !in s ==> r == s
  {
    s[..IndexOf(s, c)]
  }

  /** url.Parse reduced to scheme, host and path: the fragment after '#' is cut off,
      a control character is refused, then the scheme is read. */
  function SplitUrl(raw: string): (r: Result<UrlParts, UrlError>)
  {
    var u := Before(raw, '#');
    if HasControl(u) then Failure(InvalidControlCharacter)
    else if u == "*" then Success(UrlParts("", "", "*"))
    else
      match SchemeFrom(u, 0)
      case Failure(e) => Failure(e)
      case Success((scheme, afterScheme)) => SplitAfterScheme(scheme, Before(afterScheme, '?'))
  }

  /** What follows the scheme, with the query already cut off: an opaque rest has no
      host, and "//" introduces an authority that runs to the next '/'. */
  function SplitAfterScheme(scheme: string, rest: string): (r: Result<UrlParts, UrlError>)
  {
    if !HasPrefix(rest, "/") && scheme != "" then
      Success(UrlParts(scheme, "", ""))  // an opaque URL such as mailto:x has no host
    else if !HasPrefix(rest, "/") && ':' in Before(rest, '/') then
      Failure(ColonInFirstPathSegment)
    else if (scheme != "" || !HasPrefix(rest, "///")) && HasPrefix(rest, "//") then
      var tail := rest[2..];
      var k := IndexOf(tail, '/');
      Success(UrlParts(scheme, HostOf(tail[..k]), tail[k..]))
    else
      Success(UrlParts(scheme, "", rest))
  }

  // ---------------------------------------------------------------------
  // parsePRURL

  /** The path with leading and trailing slashes trimmed, split at every slash. */
  function PathSegments(path: string): (parts: seq<string>)
    ensures |parts| >= 1 && forall i :: 0 <= i < |parts| ==> '/' !in parts[i]
  {
    Split(TrimChar(path, '/'), '/')
  }

  /** What a successful parse guarantees about owner and repo: neither holds a slash. */
  predicate WellFormed(p: ParsedPR) { '/' !in p.owner && '/' !in p.repo }

  function ParsePRURL(raw: string): (r: Result<ParsedPR, ParseError>)
    // the input is trimmed first, and the trimmed text is what is kept
    ensures r.Success? ==> r.value.url == TrimSpace(raw) && WellFormed(r.value)
  {
    var s := TrimSpace(raw);
    match SplitUrl(s)
    case Failure(e) => Failure(InvalidUrl(e))
    case Success(u) =>
      if u.host != GitHubHost then Failure(NotGitHub)
      else
        var parts := PathSegments(u.path);
        if |parts| != 4 || parts[2] != PullSegment then Failure(NotPullRequestPath)
        else
          match Atoi(parts[3])
          case Failure(e) => Failure(InvalidNumber(e))
          case Success(n) => Success(ParsedPR(parts[0], parts[1], n, s))
  }

  /** Only a github.com link whose path is owner/repo/pull/number, with a number that
      fits in 64 bits, is accepted, and the parts are read from that path in order. */
  lemma ParseAcceptsOnlyPullLinks(raw: string)
    ensures ParsePRURL(raw).Success? ==>
              var u := SplitUrl(TrimSpace(raw));
              && u.Success? && u.value.host == GitHubHost
              && var parts := PathSegments(u.value.path);
                 && |parts| == 4 && parts[2] == PullSegment
                 && ParsePRURL(raw).value.owner == parts[0]
                 && ParsePRURL(raw).value.repo == parts[1]
                 && Atoi(parts[3]) == Success(ParsePRURL(raw).value.number)
  {
  }

  /** Each way a link is refused, in the order the checks run. */
  lemma ParseRefusals(raw: string)
    ensures SplitUrl(TrimSpace(raw)).Failure? ==>
              ParsePRURL(raw) == Failure(InvalidUrl(SplitUrl(TrimSpace(raw)).error))
    ensures SplitUrl(TrimSpace(raw)).Success? && SplitUrl(TrimSpace(raw)).value.host != GitHubHost ==>
              ParsePRURL(raw) == Failure(NotGitHub)
    ensures SplitUrl(TrimSpace(raw)).Success? && SplitUrl(TrimSpace(raw)).value.host == GitHubHost ==>
              var parts := PathSegments(SplitUrl(TrimSpace(raw)).value.path);
              && (|parts| != 4 || parts[2] != PullSegment ==> ParsePRURL(raw) == Failure(NotPullRequestPath))
              && (|parts| == 4 && parts[2] == PullSegment && Atoi(parts[3]).Failure? ==>
                    ParsePRURL(raw) == Failure(InvalidNumber(Atoi(parts[3]).error)))
  {
  }

  // ---------------------------------------------------------------------
  // Round trip

  /** The link GitHub shows for pull request `number` of owner/repo. */
  function FormatPRURL(owner: string, repo: string, number: int): string
  {
    HttpsScheme + ":" + AfterScheme + PullPath(owner, repo, Itoa(number))
  }

  /** A path component that survives url.Parse and the slash split unchanged. */
  predicate PlainSegment(s: string)
  {
    |s| > 0 && '/' !in s && '?' !in s && '#' !in s && '%' !in s && !HasControl(s)
  }

  lemma HasControlConcat(a: string, b: string)
    ensures HasControl(a + b) <==> HasControl(a) || HasControl(b)
  {
    if HasControl(a + b) {
      var i :| 0 <= i < |a + b| && IsControl((a + b)[i]);
      if i < |a| { assert IsControl(a[i]); } else { assert IsControl(b[i - |a|]); }
    }
    if HasControl(a) {
      var i :| 0 <= i < |a| && IsControl(a[i]);
      assert (a + b)[i] == a[i];
    }
    if HasControl(b) {
      var i :| 0 <= i < |b| && IsControl(b[i]);
      assert (a + b)[|a| + i] == b[i];
    }
  }

  lemma ItoaPlain(n: int)
    ensures PlainSegment(Itoa(n)) && Itoa(n)[|Itoa(n)| - 1] != '/' && !IsSpace(Itoa(n)[|Itoa(n)| - 1])
  {
    var s := Itoa(n);
    var d := if n < 0 then NatDigits(-n) else NatDigits(n);
    assert s == if n < 0 then "-" + d else d;
    assert forall i :: 0 <= i < |s| ==> s[i] == '-' || IsDigit(s[i]);
    assert IsDigit(s[|s| - 1]);
    assert forall c :: c in s ==> c == '-' || IsDigit(c);
    assert !HasControl(s);
  }

  const HttpsScheme: string := "https"
  const AfterScheme: string := "//github.com"

  lemma {:induction false} SchemeThroughColon(s: string, i: nat, end: nat)
    requires 1 <= i <= end < |s| && s[end] == ':'
    requires forall j :: 0 <= j < end ==> IsAsciiLetter(s[j])
    ensures SchemeFrom(s, i) == Success((s[..end], s[end + 1..]))
    decreases end - i
  {
    if i < end {
      SchemeThroughColon(s, i + 1, end);
    }
  }

  lemma SchemeOfHttps(rest: string)
    ensures SchemeFrom(HttpsScheme + ":" + rest, 0) == Success((HttpsScheme, rest))
  {
    var s := HttpsScheme + ":" + rest;
    assert s[..5] == HttpsScheme && s[5] == ':';
    assert forall j :: 0 <= j < 5 ==> IsAsciiLetter(s[j]);
    SchemeThroughColon(s, 1, 5);
    assert s[6..] == rest;
  }

  /** The authority part of //github.com/... ends at the first slash of the path. */
  lemma AuthorityOfGitHub(path: string)
    requires |path| > 0 && path[0] == '/'
    ensures var tail := (AfterScheme + path)[2..];
            var k := IndexOf(tail, '/');
            HostOf(tail[..k]) == GitHubHost && tail[k..] == path
  {
    var tail := (AfterScheme + path)[2..];
    assert tail == GitHubHost + path;
    assert '/' !in GitHubHost;
    IndexOfConcat(GitHubHost, path, '/');
    assert IndexOf(tail, '/') == 10;
    assert tail[..10] == GitHubHost;
    assert tail[10..] == path;
    assert '@' !in GitHubHost;
  }

  lemma GitHubPrefixPlain()
    ensures '#' !in HttpsScheme + ":" + AfterScheme
    ensures !HasControl(HttpsScheme + ":" + AfterScheme)
  {
    var p := HttpsScheme + ":" + AfterScheme;
    assert p == "https://github.com";
    assert forall i :: 0 <= i < |p| ==> !IsControl(p[i]) && p[i] != '#';
  }

  /** url.Parse on an https://github.com link whose path starts with '/'. */
  lemma SplitGitHubUrl(path: string)
    requires |path| > 0 && path[0] == '/'
    requires '?' !in path && '#' !in path && !HasControl(path)
    ensures SplitUrl(HttpsScheme + ":" + AfterScheme + path) == Success(UrlParts(HttpsScheme, GitHubHost, path))
  {
    var afterScheme := AfterScheme + path;
    var raw := HttpsScheme + ":" + afterScheme;
    assert raw == HttpsScheme + ":" + AfterScheme + path;
    GitHubPrefixPlain();
    assert Before(raw, '#') == raw;
    HasControlConcat(HttpsScheme + ":" + AfterScheme, path);
    assert raw != "*";
    SchemeOfHttps(afterScheme);
    assert Before(afterScheme, '?') == afterScheme;
    SplitAfterGitHub(path);
  }

  lemma SplitAfterGitHub(path: string)
    requires |path| > 0 && path[0] == '/'
    ensures SplitAfterScheme(HttpsScheme, AfterScheme + path) == Success(UrlParts(HttpsScheme, GitHubHost, path))
  {
    var rest := AfterScheme + path;
    assert HasPrefix(rest, "/") && HasPrefix(rest, "//");
    AuthorityOfGitHub(path);
  }

  /** The path of a pull-request link: /owner/repo/pull/n. */
  function PullPath(owner: string, repo: string, n: string): string
  {
    "/" + owner + "/" + repo + "/" + PullSegment + "/" + n
  }

  lemma JoinFour(a: string, b: string, c: string, d: string)
    ensures Join([a, b, c, d], "/") == a + "/" + b + "/" + c + "/" + d
  {
    var parts := [a, b, c, d];
    assert parts[1..] == [b, c, d] && parts[1..][1..] == [c, d] && parts[1..][1..][1..] == [d];
    assert Join([d], "/") == d;
    assert Join([c, d], "/") == c + "/" + d;
    assert Join([b, c, d], "/") == b + "/" + (c + "/" + d);
    assert Join(parts, "/") == a + "/" + (b + "/" + (c + "/" + d));
  }

  lemma TrimOneSlash(j: string)
    requires |j| > 0 && j[0] != '/' && j[|j| - 1] != '/'
    ensures TrimChar("/" + j, '/') == j
  {
    assert ("/" + j)[1..] == j;
  }

  /** The path /owner/repo/pull/n, with or without one more slash, splits into its four segments. */
  lemma GitHubPathSegments(owner: string, repo: string, n: string, path: string)
    requires PlainSegment(owner) && PlainSegment(repo) && PlainSegment(n)
    requires path == PullPath(owner, repo, n) || path == PullPath(owner, repo, n) + "/"
    ensures PathSegments(path) == [owner, repo, PullSegment, n]
  {
    var parts := [owner, repo, PullSegment, n];
    PullPathTrimmed(owner, repo, n, path);
    assert '/' !in PullSegment by { assert PullSegment == ['p', 'u', 'l', 'l']; }
    assert forall i :: 0 <= i < |parts| ==> '/' !in parts[i];
    SplitJoin(parts, '/');
  }

  /** Trimming the slashes off such a path leaves the segments joined by single slashes. */
  lemma PullPathTrimmed(owner: string, repo: string, n: string, path: string)
    requires PlainSegment(owner) && PlainSegment(n)
    requires path == PullPath(owner, repo, n) || path == PullPath(owner, repo, n) + "/"
    ensures TrimChar(path, '/') == Join([owner, repo, PullSegment, n], "/")
  {
    var joined := Join([owner, repo, PullSegment, n], "/");
    PullPathJoined(owner, repo, n);
    var core := "/" + joined;
    TrimOneSlash(joined);
    if path != core {
      assert path == core + ['/'];
      TrimCharAppend(core, '/');
    }
  }

  lemma PullPathJoined(owner: string, repo: string, n: string)
    requires PlainSegment(owner) && PlainSegment(n)
    ensures var joined := Join([owner, repo, PullSegment, n], "/");
            PullPath(owner, repo, n) == "/" + joined
            && |joined| > 0 && joined[0] != '/' && joined[|joined| - 1] != '/'
  {
    var joined := Join([owner, repo, PullSegment, n], "/");
    JoinFour(owner, repo, PullSegment, n);
    var x := owner + "/" + repo + "/" + PullSegment + "/";
    assert joined == x + n;
    assert n[|n| - 1] != '/' by { assert n[|n| - 1] in n; }
    assert owner[0] != '/' by { assert owner[0] in owner; }
    assert x[0] == owner[0];
  }

  lemma PullPathPlain(owner: string, repo: string, n: string)
    requires PlainSegment(owner) && PlainSegment(repo) && PlainSegment(n)
    ensures var p := PullPath(owner, repo, n);
            p[0] == '/' && '?' !in p && '#' !in p && !HasControl(p)
  {
    assert PullSegment == ['p', 'u', 'l', 'l'];
    var a := "/" + owner + "/";
    var b := repo + "/" + PullSegment + "/";
    assert PullPath(owner, repo, n) == a + b + n;
    assert !HasControl("/") by { assert !IsControl('/'); }
    assert !HasControl(PullSegment) by { assert forall i :: 0 <= i < 4 ==> !IsControl(PullSegment[i]); }
    HasControlConcat("/", owner);
    HasControlConcat("/" + owner, "/");
    HasControlConcat(repo, "/");
    HasControlConcat(repo + "/", PullSegment);
    HasControlConcat(repo + "/" + PullSegment, "/");
    HasControlConcat(a, b);
    HasControlConcat(a + b, n);
  }

  /** The whole parse of https://github.com/owner/repo/pull/n, with or without a trailing slash. */
  lemma ParseGitHubLink(owner: string, repo: string, n: string, path: string)
    requires PlainSegment(owner) && PlainSegment(repo) && PlainSegment(n)
    requires !IsSpace(n[|n| - 1])
    requires path == PullPath(owner, repo, n) || path == PullPath(owner, repo, n) + "/"
    ensures var raw := HttpsScheme + ":" + AfterScheme + path;
            ParsePRURL(raw) == match Atoi(n)
                               case Failure(e) => Failure(InvalidNumber(e))
                               case Success(v) => Success(ParsedPR(owner, repo, v, raw))
  {
    var core := PullPath(owner, repo, n);
    var raw := HttpsScheme + ":" + AfterScheme + path;
    PullPathPlain(owner, repo, n);
    if path != core {
      assert !HasControl("/") by { assert !IsControl('/'); }
      HasControlConcat(core, "/");
    }
    SplitGitHubUrl(path);
    assert raw[|raw| - 1] == path[|path| - 1];
    assert path[|path| - 1] == if path == core then n[|n| - 1] else '/';
    TrimSpaceNoop(raw);
    GitHubPathSegments(owner, repo, n, path);
    var parts := PathSegments(path);
    assert SplitUrl(TrimSpace(raw)) == Success(UrlParts(HttpsScheme, GitHubHost, path));
    assert |parts| == 4 && parts[2] == PullSegment && parts[3] == n;
  }

  /** Parsing the link GitHub shows gives back owner, repo and number. */
  lemma ParseFormatRoundTrip(owner: string, repo: string, number: int)
    requires PlainSegment(owner) && PlainSegment(repo)
    requires MinInt64 <= number <= MaxInt64
    ensures ParsePRURL(FormatPRURL(owner, repo, number))
            == Success(ParsedPR(owner, repo, number, FormatPRURL(owner, repo, number)))
  {
    ItoaPlain(number);
    ItoaAtoi(number);
    ParseGitHubLink(owner, repo, Itoa(number), PullPath(owner, repo, Itoa(number)));
  }

  /** A trailing slash after the number does not change what is parsed. */
  lemma ParseTrailingSlash(owner: string, repo: string, number: int)
    requires PlainSegment(owner) && PlainSegment(repo)
    requires MinInt64 <= number <= MaxInt64
    ensures ParsePRURL(FormatPRURL(owner, repo, number) + "/")
            == Success(ParsedPR(owner, repo, number, FormatPRURL(owner, repo, number) + "/"))
  {
    ItoaPlain(number);
    ItoaAtoi(number);
    var core := PullPath(owner, repo, Itoa(number));
    var path := core + "/";
    var front := HttpsScheme + ":" + AfterScheme;
    assert FormatPRURL(owner, repo, number) + "/" == front + path by {
      assert FormatPRURL(owner, repo, number) == front + core;
      assert (front + core) + "/" == front + (core + "/");
    }
    ParseGitHubLink(owner, repo, Itoa(number), path);
  }
}
