/**
 * src/github.rs: the GitHub records the editor reads, the records it stores
 * as the last-fetched state, the actions it plans, and parsing of issue URLs.
 * The HTTP calls of that file are not part of this model.
 */
module Github {
  import opened Wrappers
  import opened Strings
  import MarkerText
  import IssueTypes

  /** `GitHubIssue`; labels are their names and the user is its login. */
  datatype GithubIssue = GithubIssue(number: nat, title: string, body: Option<string>, labels: seq<string>, login: string, state: string)

  /** `GitHubSubIssue`. */
  datatype GithubSubIssue = GithubSubIssue(number: nat, title: string, state: string)

  /** `GitHubComment`; the user is its login. */
  datatype GithubComment = GithubComment(id: nat, body: Option<string>, login: string)

  /** `OriginalComment`: a comment as it was at the last fetch. */
  datatype OriginalComment = OriginalComment(id: nat, body: Option<string>)

  /** `OriginalSubIssue`: a sub-issue as it was at the last fetch. */
  datatype OriginalSubIssue = OriginalSubIssue(number: nat, state: string)

  /**
   * `IssueAction`, in the shape the issue files of `open` and of
   * `open_interactions` use: create an issue at an index path under a
   * parent number, or change the state of an existing one.
   */
  datatype IssueAction =
    | CreateIssue(path: seq<nat>, title: string, body: string, closed: bool, parent: Option<nat>)
    | UpdateIssueState(issueNumber: nat, closed: bool)

  /** `From<&GitHubComment> for OriginalComment`, over a list. */
  function OriginalComments(cs: seq<GithubComment>): (r: seq<OriginalComment>)
    ensures |r| == |cs|
    ensures forall i :: 0 <= i < |r| ==> r[i].id == cs[i].id && r[i].body == cs[i].body
  {
    if cs == [] then []
    else OriginalComments(cs[..|cs| - 1]) + [OriginalComment(cs[|cs| - 1].id, cs[|cs| - 1].body)]
  }

  /** `From<&GitHubSubIssue> for OriginalSubIssue`, over a list. */
  function OriginalSubIssues(ss: seq<GithubSubIssue>): (r: seq<OriginalSubIssue>)
    ensures |r| == |ss|
    ensures forall i :: 0 <= i < |r| ==> r[i].number == ss[i].number && r[i].state == ss[i].state
  {
    if ss == [] then []
    else OriginalSubIssues(ss[..|ss| - 1]) + [OriginalSubIssue(ss[|ss| - 1].number, ss[|ss| - 1].state)]
  }

  // ---------------------------------------------------------------------
  // Issue URLs

  /** Why a text is not an issue URL. */
  datatype UrlError =
    | SshUrl(repoPath: string)
    | NotGithub(url: string)
    | BadFormat
    | BadNumber(text: string)

  const SSH_PREFIX: string := "git@github.com:"
  const SSH_URL_PREFIX: string := "ssh://git@github.com/"
  const HTTPS_PREFIX: string := "https://"
  const HTTP_PREFIX: string := "http://"
  const GITHUB_PREFIX: string := "github.com/"
  const GIT_SUFFIX: string := ".git"
  const ISSUES: string := "issues"
  const ISSUES_INFIX: string := "/issues/"
  const SLASH: string := "/"

  /** `strip_suffix(p).unwrap_or(s)`. */
  function DropSuffix(s: string, p: string): (r: string)
    ensures EndsWith(s, p) ==> s == r + p
    ensures !EndsWith(s, p) ==> r == s
  {
    if EndsWith(s, p) then s[..|s| - |p|] else s
  }

  /** The text after an optional `https://` or `http://`. */
  function DropScheme(s: string): (r: string)
    ensures r == s || StartsWith(s, HTTPS_PREFIX) || StartsWith(s, HTTP_PREFIX)
  {
    match StripPrefix(s, HTTPS_PREFIX)
      case Some(p) => p
      case None =>
        match StripPrefix(s, HTTP_PREFIX)
          case Some(p) => p
          case None => s
  }

  /**
   * `parse_github_issue_url`: the trimmed text, refused in both SSH forms,
   * must read `github.com/owner/repo/issues/N` after an optional scheme,
   * with `N` a 64-bit number; anything after `N` is ignored.
   */
  function ParseGithubIssueUrl(url: string): (r: Result<(string, string, nat), UrlError>)
    ensures StartsWith(Trim(url), SSH_PREFIX) ==> r == Err(SshUrl(DropSuffix(Trim(url)[|SSH_PREFIX|..], GIT_SUFFIX)))
    ensures StartsWith(Trim(url), SSH_URL_PREFIX) ==> r.Err? && r.error.SshUrl?
    ensures !StartsWith(DropScheme(Trim(url)), GITHUB_PREFIX) ==> r.Err?
    ensures r.Ok? ==> '/' !in r.value.0 && '/' !in r.value.1 && r.value.2 < U64_LIMIT
    ensures r.Ok? ==> IsGithubIssueUrl(url)
  {
    ParseTrimmed(Trim(url))
  }

  /** `parse_github_issue_url` past its first step, on the trimmed text `u`. */
  function ParseTrimmed(u: string): (r: Result<(string, string, nat), UrlError>)
    ensures StartsWith(u, SSH_PREFIX) ==> r == Err(SshUrl(DropSuffix(u[|SSH_PREFIX|..], GIT_SUFFIX)))
    ensures StartsWith(u, SSH_URL_PREFIX) ==> r.Err? && r.error.SshUrl?
    ensures !StartsWith(DropScheme(u), GITHUB_PREFIX) ==> r.Err?
    ensures r.Ok? ==> '/' !in r.value.0 && '/' !in r.value.1 && r.value.2 < U64_LIMIT
    ensures r.Ok? ==> Contains(u, GITHUB_PREFIX) && Contains(u, ISSUES_INFIX)
  {
    match StripPrefix(u, SSH_PREFIX)
      case Some(path) => Err(SshUrl(DropSuffix(path, GIT_SUFFIX)))
      case None =>
        match StripPrefix(u, SSH_URL_PREFIX)
          case Some(path) => Err(SshUrl(DropSuffix(path, GIT_SUFFIX)))
          case None =>
            match StripPrefix(DropScheme(u), GITHUB_PREFIX)
              case None => Err(NotGithub(u))
              case Some(path) => ParsePath(u, path)
  }

  /** The owner, repo and number read from the path after `github.com/`. */
  function ParsePath(u: string, path: string): (r: Result<(string, string, nat), UrlError>)
    requires StripPrefix(DropScheme(u), GITHUB_PREFIX) == Some(path)
    ensures r.Ok? ==> '/' !in r.value.0 && '/' !in r.value.1 && r.value.2 < U64_LIMIT
    ensures r.Ok? ==> Contains(u, GITHUB_PREFIX) && Contains(u, ISSUES_INFIX)
  {
    var parts := Split(path, '/');
    if |parts| < 4 || parts[2] != ISSUES then Err(BadFormat)
    else
      match ParseU64(parts[3])
        case None => Err(BadNumber(parts[3]))
        case Some(n) =>
          ParsedContainsMarkers(u, path, parts);
          Ok((parts[0], parts[1], n))
  }

  /** `is_github_issue_url`: the trimmed text mentions `github.com/` and `/issues/`. */
  predicate IsGithubIssueUrl(s: string) {
    Contains(Trim(s), GITHUB_PREFIX) && Contains(Trim(s), ISSUES_INFIX)
  }

  /** A text that parses as an issue URL holds both parts `is_github_issue_url` looks for. */
  lemma ParsedContainsMarkers(u: string, path: string, parts: seq<string>)
    requires StripPrefix(DropScheme(u), GITHUB_PREFIX) == Some(path)
    requires parts == Split(path, '/') && |parts| >= 4 && parts[2] == ISSUES
    ensures Contains(u, GITHUB_PREFIX) && Contains(u, ISSUES_INFIX)
  {
    var pre := SchemeOf(u);
    assert DropScheme(u) == GITHUB_PREFIX + path;
    MarkersIn(pre, path, parts);
  }

  /** The scheme `DropScheme` removes. */
  function SchemeOf(u: string): (pre: string)
    ensures u == pre + DropScheme(u)
  {
    if StartsWith(u, HTTPS_PREFIX) then HTTPS_PREFIX
    else if StartsWith(u, HTTP_PREFIX) then HTTP_PREFIX
    else []
  }

  lemma MarkersIn(pre: string, path: string, parts: seq<string>)
    requires parts == Split(path, '/') && |parts| >= 4 && parts[2] == ISSUES
    ensures Contains(pre + (GITHUB_PREFIX + path), GITHUB_PREFIX)
    ensures Contains(pre + (GITHUB_PREFIX + path), ISSUES_INFIX)
  {
    var u := pre + (GITHUB_PREFIX + path);
    assert u == pre + GITHUB_PREFIX + path;
    ContainsMiddle(pre, GITHUB_PREFIX, path);
    var tail := Join(parts[3..], SLASH);
    JoinThree(parts);
    var head := pre + GITHUB_PREFIX + parts[0] + SLASH + parts[1];
    Regroup(pre, path, parts[0], parts[1], tail);
    ContainsMiddle(head, ISSUES_INFIX, tail);
  }

  lemma Regroup(pre: string, path: string, a: string, b: string, t: string)
    requires path == a + (SLASH + (b + (SLASH + (ISSUES + (SLASH + t)))))
    ensures pre + (GITHUB_PREFIX + path) == (pre + GITHUB_PREFIX + a + SLASH + b) + ISSUES_INFIX + t
  {
    assert SLASH + ISSUES + SLASH == ISSUES_INFIX;
  }

  lemma JoinThree(parts: seq<string>)
    requires |parts| >= 4
    ensures Join(parts, SLASH) == parts[0] + (SLASH + (parts[1] + (SLASH + (parts[2] + (SLASH + Join(parts[3..], SLASH))))))
  {
    JoinCons(parts[2..]);
    assert parts[2..][1..] == parts[3..];
    JoinCons(parts[1..]);
    assert parts[1..][1..] == parts[2..];
    JoinCons(parts);
  }

  lemma JoinCons(parts: seq<string>)
    requires |parts| >= 2
    ensures Join(parts, SLASH) == parts[0] + (SLASH + Join(parts[1..], SLASH))
  {
  }

  /**
   * `extract_issue_number_from_url`, which src/github.rs does not define:
   * taken here as the number that `parse_github_issue_url` reads.
   */
  function ExtractIssueNumber(url: string): (r: Option<nat>)
    ensures r.Some? <==> ParseGithubIssueUrl(url).Ok?
    ensures r.Some? ==> r.value == ParseGithubIssueUrl(url).value.2
  {
    match ParseGithubIssueUrl(url)
      case Ok(v) => Some(v.2)
      case Err(_) => None
  }

  /** The URL text `https://github.com/{owner}/{repo}/issues/{n}` the editor writes. */
  function IssueUrl(owner: string, repo: string, n: nat): string {
    IssueTypes.LinkText(owner, repo, n)
  }

  /** The path after the host of an issue URL splits into its four parts. */
  lemma IssuePathParts(owner: string, repo: string, digits: string)
    requires '/' !in owner && '/' !in repo && '/' !in digits
    ensures Split(owner + (SLASH + (repo + (SLASH + (ISSUES + (SLASH + digits))))), '/') == [owner, repo, ISSUES, digits]
  {
    var parts := [owner, repo, ISSUES, digits];
    assert parts[3..] == [digits];
    JoinThree(parts);
    SplitJoin(parts, '/');
  }

  /** Every issue URL the editor writes parses back to its owner, repo and number. */
  lemma IssueUrlRoundTrip(owner: string, repo: string, n: nat)
    requires '/' !in owner && '/' !in repo && n < U64_LIMIT
    ensures ParseGithubIssueUrl(IssueUrl(owner, repo, n)) == Ok((owner, repo, n))
    ensures ExtractIssueNumber(IssueUrl(owner, repo, n)) == Some(n)
  {
    var digits := NatToString(n);
    var path := owner + (SLASH + (repo + (SLASH + (ISSUES + (SLASH + digits)))));
    assert IssueUrl(owner, repo, n) == HTTPS_PREFIX + (GITHUB_PREFIX + path);
    assert IsDigit(digits[|digits| - 1]);
    HttpsEntry(path);
    DigitsNoSlash(digits);
    IssuePathParts(owner, repo, digits);
    ParseNatToString(n);
    ParsePathOk(HTTPS_PREFIX + (GITHUB_PREFIX + path), path, owner, repo, n);
  }

  /** An `https://github.com/` text without surrounding whitespace is read by its path. */
  lemma HttpsEntry(path: string)
    requires path == [] || !IsWhitespace(path[|path| - 1])
    ensures var u := HTTPS_PREFIX + (GITHUB_PREFIX + path);
      Trim(u) == u && StripPrefix(DropScheme(u), GITHUB_PREFIX) == Some(path) && ParseTrimmed(u) == ParsePath(u, path)
  {
    var u := HTTPS_PREFIX + (GITHUB_PREFIX + path);
    HttpsTrimmed(path);
    HttpsScheme(u, GITHUB_PREFIX + path);
    StripPrefixConcat(GITHUB_PREFIX, path);
  }

  lemma HttpsTrimmed(path: string)
    requires path == [] || !IsWhitespace(path[|path| - 1])
    ensures Trim(HTTPS_PREFIX + (GITHUB_PREFIX + path)) == HTTPS_PREFIX + (GITHUB_PREFIX + path)
  {
    var u := HTTPS_PREFIX + (GITHUB_PREFIX + path);
    assert IsTrimmed(u) by {
      assert u[0] == 'h';
      assert u[|u| - 1] == if path == [] then '/' else path[|path| - 1];
    }
    TrimmedIsFixed(u);
  }

  /** Behind `https://` there is no SSH form, and the scheme drops off. */
  lemma HttpsScheme(u: string, v: string)
    requires u == HTTPS_PREFIX + v
    ensures !StartsWith(u, SSH_PREFIX) && !StartsWith(u, SSH_URL_PREFIX)
    ensures StripPrefix(u, SSH_PREFIX).None? && StripPrefix(u, SSH_URL_PREFIX).None?
    ensures DropScheme(u) == v
  {
    assert u[0] == 'h' && u[1] == 't';
    assert !StartsWith(u, SSH_PREFIX) by { assert u[0] != SSH_PREFIX[0]; }
    assert !StartsWith(u, SSH_URL_PREFIX) by { assert u[1] != SSH_URL_PREFIX[1]; }
    StripPrefixConcat(HTTPS_PREFIX, v);
  }

  lemma ParsePathOk(u: string, path: string, owner: string, repo: string, n: nat)
    requires StripPrefix(DropScheme(u), GITHUB_PREFIX) == Some(path)
    requires Split(path, '/') == [owner, repo, ISSUES, NatToString(n)]
    requires ParseU64(NatToString(n)) == Some(n)
    ensures ParsePath(u, path) == Ok((owner, repo, n))
  {
  }

  const PULL: string := "pull"

  /** A pull-request URL is not an issue URL. */
  lemma PullUrlRejected(owner: string, repo: string, rest: string)
    requires '/' !in owner && '/' !in repo
    requires rest == [] || !IsWhitespace(rest[|rest| - 1])
    ensures ParseGithubIssueUrl(HTTPS_PREFIX + (GITHUB_PREFIX + (owner + (SLASH + (repo + (SLASH + (PULL + (SLASH + rest)))))))).Err?
  {
    var path := owner + (SLASH + (repo + (SLASH + (PULL + (SLASH + rest)))));
    PathEnd(owner + (SLASH + (repo + (SLASH + PULL))), rest);
    AppendAssoc(repo, SLASH, PULL + (SLASH + rest));
    NoSlashInPull();
    SplitThird(owner, repo, PULL, rest);
    assert PULL != ISSUES;
    NotIssuesRejected(path);
  }

  /** A path ending in `/rest` ends in what `rest` ends in, or in the slash. */
  lemma PathEnd(head: string, rest: string)
    requires rest == [] || !IsWhitespace(rest[|rest| - 1])
    ensures var path := head + (SLASH + rest); path != [] && !IsWhitespace(path[|path| - 1])
  {
    var path := head + (SLASH + rest);
    assert path[|path| - 1] == if rest == [] then '/' else rest[|rest| - 1];
  }

  /** A path whose third piece is not `issues` is refused. */
  lemma NotIssuesRejected(path: string)
    requires path == [] || !IsWhitespace(path[|path| - 1])
    requires var parts := Split(path, '/'); |parts| >= 3 && parts[2] != ISSUES
    ensures ParseGithubIssueUrl(HTTPS_PREFIX + (GITHUB_PREFIX + path)).Err?
  {
    HttpsEntry(path);
  }

  lemma NoSlashInPull()
    ensures '/' !in PULL
  {
    assert PULL == ['p', 'u', 'l', 'l'];
  }

  lemma DigitsNoSlash(digits: string)
    requires AllDigits(digits)
    ensures '/' !in digits
  {
    assert forall i :: 0 <= i < |digits| ==> IsDigit(digits[i]);
  }

  /** The third piece of `a/b/c/rest` is `c` when none of them holds a slash. */
  lemma SplitThird(a: string, b: string, c: string, rest: string)
    requires '/' !in a && '/' !in b && '/' !in c
    ensures var parts := Split(a + (SLASH + (b + (SLASH + (c + (SLASH + rest))))), '/'); |parts| >= 3 && parts[2] == c
  {
    SplitCons(a, b + (SLASH + (c + (SLASH + rest))));
    SplitCons(b, c + (SLASH + rest));
    SplitCons(c, rest);
  }

  lemma SplitCons(a: string, b: string)
    requires '/' !in a
    ensures Split(a + (SLASH + b), '/') == [a] + Split(b, '/')
  {
    var s := a + (SLASH + b);
    assert s == a + ['/'] + b;
    FindCharAfter(a, '/', b);
    assert s[..|a|] == a;
    assert s[|a| + 1..] == b;
  }
}
