/**
 * src/issue/types.rs: the issue link, comment and issue identities, the
 * close state with its checkbox and GitHub forms, the title-line parsers
 * and the path navigation of the issue tree.
 *
 * `url::Url` is read through a small URL reader (`ParseUrl`): a scheme,
 * then either `//host` and a path, or a bare path; the path ends at the
 * first '?' or '#'. Percent-decoding, host case folding, ports and user
 * information are not part of this model.
 */
module IssueTypes {
  import opened Wrappers
  import opened Strings
  import opened IssueError
  import IssueBlocker
  import MarkerText

  // ---------------------------------------------------------------------
  // URLs and issue links

  /** The parts of a `url::Url` that an issue link reads. */
  datatype Url = Url(text: string, host: Option<string>, segments: Option<seq<string>>)

  predicate IsSchemeChar(c: char) { IsAsciiAlnum(c) || c == '+' || c == '-' || c == '.' }

  predicate IsScheme(s: string) {
    s != [] && IsAsciiAlpha(s[0]) && forall i :: 0 <= i < |s| ==> IsSchemeChar(s[i])
  }

  /** A character that ends the host. */
  predicate IsHostStop(c: char) { c == '/' || c == '?' || c == '#' }

  /** A character that ends the path. */
  predicate IsPathStop(c: char) { c == '?' || c == '#' }

  /** Index of the first host stop, or the length. */
  function HostEnd(s: string): (r: nat)
    ensures r <= |s|
    ensures forall i :: 0 <= i < r ==> !IsHostStop(s[i])
    ensures r < |s| ==> IsHostStop(s[r])
  {
    if s == [] || IsHostStop(s[0]) then 0 else 1 + HostEnd(s[1..])
  }

  /** Index of the first path stop, or the length. */
  function PathEnd(s: string): (r: nat)
    ensures r <= |s|
    ensures forall i :: 0 <= i < r ==> !IsPathStop(s[i])
    ensures r < |s| ==> IsPathStop(s[r])
  {
    if s == [] || IsPathStop(s[0]) then 0 else 1 + PathEnd(s[1..])
  }

  /** `path_segments` of a path: "" and "/" both give one empty segment. */
  function PathSegments(path: string): seq<string> {
    if path == [] then [[]] else Split(path[1..], '/')
  }

  const SLASHES: string := "//"

  /** `Url::parse`. A URL without `//` and without a leading '/' cannot be a base and has no segments. */
  function ParseUrl(s: string): (r: Option<Url>)
    ensures r.Some? ==> r.value.text == s
  {
    match FindChar(s, ':')
      case None => None
      case Some(i) =>
        if !IsScheme(s[..i]) then None
        else
          var rest := s[i + 1..];
          if StartsWith(rest, SLASHES) then
            var auth := rest[2..];
            var h := HostEnd(auth);
            var after := auth[h..];
            Some(Url(s, Some(auth[..h]), Some(PathSegments(after[..PathEnd(after)]))))
          else if rest != [] && rest[0] == '/' then
            Some(Url(s, None, Some(PathSegments(rest[..PathEnd(rest)]))))
          else
            Some(Url(s, None, None))
  }

  /** `IssueLink`: a URL known to name a GitHub issue. */
  datatype IssueLink = IssueLink(url: Url)

  const GITHUB_HOST: string := "github.com"
  const ISSUES: string := "issues"

  /** The URL is `https?://github.com/{owner}/{repo}/issues/{u64}…`. */
  predicate IsIssueUrl(u: Url) {
    && u.host == Some(GITHUB_HOST)
    && u.segments.Some?
    && |u.segments.value| >= 4
    && u.segments.value[2] == ISSUES
    && ParseU64(u.segments.value[3]).Some?
  }

  /** `IssueLink::new`: only a github.com URL with an `owner/repo/issues/<u64>` path. */
  function NewLink(u: Url): (r: Option<IssueLink>)
    ensures r.Some? <==> u.host == Some(GITHUB_HOST) && u.segments.Some? && |u.segments.value| >= 4
                         && u.segments.value[2] == ISSUES && ParseU64(u.segments.value[3]).Some?
    ensures r.Some? ==> r.value.url == u
  {
    if IsIssueUrl(u) then Some(IssueLink(u)) else None
  }

  /** `IssueLink::parse`. */
  function ParseLink(s: string): (r: Option<IssueLink>)
    ensures r.Some? ==> IsIssueUrl(r.value.url) && r.value.url.text == s
  {
    match ParseUrl(s)
      case None => None
      case Some(u) => NewLink(u)
  }

  predicate ValidLink(l: IssueLink) { IsIssueUrl(l.url) }

  function Owner(l: IssueLink): string
    requires ValidLink(l)
  {
    l.url.segments.value[0]
  }

  function Repo(l: IssueLink): string
    requires ValidLink(l)
  {
    l.url.segments.value[1]
  }

  function Number(l: IssueLink): (n: nat)
    requires ValidLink(l)
    ensures n < U64_LIMIT
  {
    ParseU64(l.url.segments.value[3]).value
  }

  const HTTPS: string := "https"

  /** `https://github.com/{owner}/{repo}/issues/{number}`. */
  function LinkText(owner: string, repo: string, number: nat): string {
    HTTPS + ":" + SLASHES + GITHUB_HOST + LinkPath(owner, repo, NatToString(number))
  }

  /** A URL `scheme://host/path` with plain parts reads back as those parts. */
  lemma ParseHierarchical(scheme: string, host: string, path: string)
    requires IsScheme(scheme) && ':' !in scheme
    requires forall i :: 0 <= i < |host| ==> !IsHostStop(host[i])
    requires path != [] && path[0] == '/'
    requires forall i :: 0 <= i < |path| ==> !IsPathStop(path[i])
    ensures ParseUrl(scheme + ":" + SLASHES + host + path)
         == Some(Url(scheme + ":" + SLASHES + host + path, Some(host), Some(Split(path[1..], '/'))))
  {
    Strings.AppendAssoc3(scheme + ":", SLASHES, host, path);
    SchemeSplit(scheme, SLASHES + host + path);
    AuthoritySplit(host, path);
    PathEndAll(path);
    assert path[..|path|] == path;
  }

  /** `scheme:tail` splits at its first colon when the scheme has none. */
  lemma SchemeSplit(scheme: string, tail: string)
    requires ':' !in scheme
    ensures var s := scheme + ":" + tail;
      FindChar(s, ':') == Some(|scheme|) && s[..|scheme|] == scheme && s[|scheme| + 1..] == tail
  {
    var s := scheme + ":" + tail;
    assert s == scheme + [':'] + tail;
    FindCharAfter(scheme, ':', tail);
    assert s[..|scheme|] == scheme;
  }

  /** `//host/path` has the authority `host` followed by `path`. */
  lemma AuthoritySplit(host: string, path: string)
    requires forall i :: 0 <= i < |host| ==> !IsHostStop(host[i])
    requires path != [] && path[0] == '/'
    ensures var rest := SLASHES + host + path; var auth := rest[2..];
      && StartsWith(rest, SLASHES) && auth == host + path
      && HostEnd(auth) == |host| && auth[..|host|] == host && auth[|host|..] == path
  {
    var rest := SLASHES + host + path;
    assert rest[..2] == SLASHES;
    assert rest[2..] == host + path;
    HostEndOf(host, path);
    assert (host + path)[..|host|] == host;
    assert (host + path)[|host|..] == path;
  }

  lemma {:induction false} HostEndOf(host: string, path: string)
    requires forall i :: 0 <= i < |host| ==> !IsHostStop(host[i])
    requires path != [] && path[0] == '/'
    ensures HostEnd(host + path) == |host|
  {
    if host != [] {
      assert (host + path)[1..] == host[1..] + path;
      HostEndOf(host[1..], path);
    }
  }

  lemma {:induction false} PathEndAll(path: string)
    requires forall i :: 0 <= i < |path| ==> !IsPathStop(path[i])
    ensures PathEnd(path) == |path|
  {
    if path != [] {
      PathEndAll(path[1..]);
    }
  }

  /** `FetchedIssue::from_parts` followed by the accessors gives the parts back. */
  lemma LinkRoundTrip(owner: string, repo: string, number: nat)
    requires number < U64_LIMIT
    requires forall i :: 0 <= i < |owner| ==> !IsHostStop(owner[i])
    requires forall i :: 0 <= i < |repo| ==> !IsHostStop(repo[i])
    ensures var r := ParseLink(LinkText(owner, repo, number));
      && r.Some? && r.value.url.text == LinkText(owner, repo, number)
      && Owner(r.value) == owner && Repo(r.value) == repo && Number(r.value) == number
  {
    var digits := NatToString(number);
    var path := LinkPath(owner, repo, digits);
    LinkPathParts(owner, repo, digits);
    var s := LinkText(owner, repo, number);
    PlainGithub();
    ParseHierarchical(HTTPS, GITHUB_HOST, path);
    var u := Url(s, Some(GITHUB_HOST), Some([owner, repo, ISSUES, digits]));
    assert ParseUrl(s) == Some(u);
    ParseNatToString(number);
    assert IsIssueUrl(u);
    assert ParseLink(s) == Some(IssueLink(u));
  }

  lemma PlainGithub()
    ensures IsScheme(HTTPS) && ':' !in HTTPS
    ensures forall i :: 0 <= i < |GITHUB_HOST| ==> !IsHostStop(GITHUB_HOST[i])
  {
  }

  /** The path of an issue link. */
  function LinkPath(owner: string, repo: string, digits: string): string {
    "/" + (owner + "/" + repo + "/" + ISSUES + "/" + digits)
  }

  /** The path of an issue link splits into owner, repo, "issues" and the number. */
  lemma LinkPathParts(owner: string, repo: string, digits: string)
    requires forall i :: 0 <= i < |owner| ==> !IsHostStop(owner[i])
    requires forall i :: 0 <= i < |repo| ==> !IsHostStop(repo[i])
    requires AllDigits(digits)
    ensures var path := LinkPath(owner, repo, digits);
      && path != [] && path[0] == '/'
      && (forall i :: 0 <= i < |path| ==> !IsPathStop(path[i]))
      && Split(path[1..], '/') == [owner, repo, ISSUES, digits]
  {
    var path := LinkPath(owner, repo, digits);
    forall i | 0 <= i < |path| ensures !IsPathStop(path[i]) {
      NoStopInLinkPath(owner, repo, digits, i);
    }
    var parts := [owner, repo, ISSUES, digits];
    assert Join(parts[3..], "/") == digits;
    assert parts[2..][1..] == parts[3..];
    assert Join(parts[2..], "/") == ISSUES + "/" + digits;
    assert parts[1..][1..] == parts[2..];
    assert Join(parts[1..], "/") == repo + "/" + (ISSUES + "/" + digits);
    assert Join(parts, "/") == owner + "/" + (repo + "/" + (ISSUES + "/" + digits));
    assert path[1..] == Join(parts, "/");
    forall k | 0 <= k < |parts| ensures '/' !in parts[k] {
      if k == 0 { assert forall i :: 0 <= i < |owner| ==> owner[i] != '/'; }
      if k == 1 { assert forall i :: 0 <= i < |repo| ==> repo[i] != '/'; }
      if k == 3 { assert forall i :: 0 <= i < |digits| ==> IsDigit(digits[i]); }
    }
    SplitJoin(parts, '/');
  }

  lemma NoStopInLinkPath(owner: string, repo: string, digits: string, i: nat)
    requires forall i :: 0 <= i < |owner| ==> !IsHostStop(owner[i])
    requires forall i :: 0 <= i < |repo| ==> !IsHostStop(repo[i])
    requires AllDigits(digits)
    requires i < |"/" + (owner + "/" + repo + "/" + ISSUES + "/" + digits)|
    ensures !IsPathStop(("/" + (owner + "/" + repo + "/" + ISSUES + "/" + digits))[i])
  {
    var p := "/" + (owner + "/" + repo + "/" + ISSUES + "/" + digits);
    var a := |owner| + 2;
    var b := a + |repo| + 1;
    var c := b + |ISSUES| + 1;
    if i == 0 || i == a - 1 || i == b - 1 || i == c - 1 {
    } else if i < a {
      assert p[i] == owner[i - 1];
    } else if i < b {
      assert p[i] == repo[i - a];
    } else if i < c {
      assert p[i] == ISSUES[i - b];
    } else {
      assert p[i] == digits[i - c];
    }
  }

  // ---------------------------------------------------------------------
  // Comment identity

  /** `CommentIdentity`: the issue body, a comment on GitHub, or one awaiting creation. */
  datatype CommentIdentity = Body | Created(user: string, id: nat) | Pending

  /** `CommentIdentity::id`. */
  function CommentId(c: CommentIdentity): (r: Option<nat>)
    ensures r.Some? <==> c.Created?
    ensures r.Some? ==> r.value == c.id
  {
    match c
      case Created(_, id) => Some(id)
      case _ => None
  }

  /** `CommentIdentity::user`. */
  function CommentUser(c: CommentIdentity): (r: Option<string>)
    ensures r.Some? <==> c.Created?
    ensures r.Some? ==> r.value == c.user
  {
    match c
      case Created(user, _) => Some(user)
      case _ => None
  }

  /** `CommentIdentity::is_comment`: everything but the body. */
  predicate IsComment(c: CommentIdentity) { !c.Body? }

  /** `CommentIdentity::is_pending`. */
  predicate IsPendingComment(c: CommentIdentity) { c.Pending? }

  /** A comment has an id exactly when it has a user, and only real comments have either. */
  lemma CommentAccessors(c: CommentIdentity)
    ensures CommentId(c).Some? <==> CommentUser(c).Some?
    ensures CommentId(c).Some? ==> IsComment(c) && !IsPendingComment(c)
    ensures IsPendingComment(c) ==> IsComment(c)
  {
  }

  // ---------------------------------------------------------------------
  // Close state

  /** `CloseState`: `[ ]`, `[x]`, `[-]` and `[N]` for a duplicate of issue N. */
  datatype CloseState = Open | Closed | NotPlanned | Duplicate(of: nat)

  /** A state whose duplicate number fits in a u64. */
  predicate ValidState(s: CloseState) { s.Duplicate? ==> s.of < U64_LIMIT }

  /** `is_closed`. */
  predicate IsClosed(s: CloseState) { !s.Open? }

  /** `should_remove`. */
  predicate ShouldRemove(s: CloseState) { s.Duplicate? }

  const OPEN_STATE: string := "open"
  const CLOSED_STATE: string := "closed"
  const COMPLETED: string := "completed"
  const NOT_PLANNED: string := "not_planned"
  const DUPLICATE: string := "duplicate"

  /** `to_github_state`: "open" exactly for the open state. */
  function ToGithubState(s: CloseState): (r: string)
    ensures r == OPEN_STATE <==> !IsClosed(s)
    ensures r == OPEN_STATE || r == CLOSED_STATE
  {
    if s.Open? then OPEN_STATE else CLOSED_STATE
  }

  /** `to_github_state_reason`. */
  function ToGithubStateReason(s: CloseState): (r: Option<string>)
    ensures r.None? <==> !IsClosed(s)
  {
    match s
      case Open => None
      case Closed => Some(COMPLETED)
      case NotPlanned => Some(NOT_PLANNED)
      case Duplicate(_) => Some(DUPLICATE)
  }

  /** `from_github`; the caller filters duplicates out first. */
  function FromGithub(state: string, reason: Option<string>): (r: CloseState)
    requires reason != Some(DUPLICATE)
    ensures !r.Duplicate?
    ensures r.Open? <==> state != CLOSED_STATE
    ensures r.NotPlanned? <==> state == CLOSED_STATE && reason == Some(NOT_PLANNED)
    ensures r.Closed? <==> state == CLOSED_STATE && reason != Some(NOT_PLANNED)
  {
    if state == OPEN_STATE then Open
    else if state == CLOSED_STATE then
      if reason == Some(NOT_PLANNED) then NotPlanned else Closed
    else Open
  }

  /** `is_duplicate_reason`. */
  predicate IsDuplicateReason(reason: Option<string>) { reason == Some(DUPLICATE) }

  /** Every state but a duplicate survives the trip to GitHub's state and reason and back. */
  lemma GithubRoundTrip(s: CloseState)
    requires !ShouldRemove(s)
    ensures !IsDuplicateReason(ToGithubStateReason(s))
    ensures FromGithub(ToGithubState(s), ToGithubStateReason(s)) == s
  {
  }

  /** A duplicate is exactly the state whose reason has to be filtered. */
  lemma DuplicateReason(s: CloseState)
    ensures IsDuplicateReason(ToGithubStateReason(s)) <==> ShouldRemove(s)
  {
  }

  const X_LOWER: string := "x"
  const X_UPPER: string := "X"
  const DASH: string := "-"
  const SPACE: string := " "

  /** `from_checkbox`: the trimmed bracket content. */
  function FromCheckbox(content: string): (r: Option<CloseState>)
    ensures r.Some? ==> ValidState(r.value)
  {
    var t := Trim(content);
    if t == [] || t == SPACE then Some(Open)
    else if t == X_LOWER || t == X_UPPER then Some(Closed)
    else if t == DASH then Some(NotPlanned)
    else match ParseU64(t)
      case Some(n) => Some(Duplicate(n))
      case None => None
  }

  /** `to_checkbox`. */
  function ToCheckbox(s: CloseState): (r: string)
    ensures ']' !in r && r != []
  {
    match s
      case Open => SPACE
      case Closed => X_LOWER
      case NotPlanned => DASH
      case Duplicate(n) =>
        var d := NatToString(n);
        assert forall i :: 0 <= i < |d| ==> IsDigit(d[i]);
        d
  }

  /** `from_checkbox(to_checkbox(s)) == Some(s)` for every state. */
  lemma CheckboxRoundTrip(s: CloseState)
    requires ValidState(s)
    ensures FromCheckbox(ToCheckbox(s)) == Some(s)
  {
    match s
      case Open => SpaceCheckbox();
      case Closed => SymbolCheckbox(X_LOWER);
      case NotPlanned => SymbolCheckbox(DASH);
      case Duplicate(n) => DuplicateCheckbox(n);
  }

  /** A blank box is open. */
  lemma SpaceCheckbox()
    ensures FromCheckbox(SPACE) == Some(Open)
  {
    assert AllWhitespace(SPACE);
    TrimEmptyIff(SPACE);
  }

  /** A symbol that is its own trimmed form reads as what it stands for. */
  lemma SymbolCheckbox(t: string)
    requires t == X_LOWER || t == DASH
    ensures FromCheckbox(t) == Some(if t == X_LOWER then Closed else NotPlanned)
  {
    TrimmedIsFixed(t);
  }

  /** The number of a duplicate reads back as that duplicate. */
  lemma DuplicateCheckbox(n: nat)
    requires n < U64_LIMIT
    ensures FromCheckbox(NatToString(n)) == Some(Duplicate(n))
  {
    var d := NatToString(n);
    assert IsDigit(d[0]) && IsDigit(d[|d| - 1]);
    TrimmedIsFixed(d);
    assert d != X_LOWER && d != X_UPPER && d != DASH && d != SPACE by {
      assert d[0] != 'x' && d[0] != 'X' && d[0] != '-' && d[0] != ' ';
    }
    ParseNatToString(n);
  }

  /** An upper-case X also reads as closed. */
  lemma UpperCheckbox()
    ensures FromCheckbox(X_UPPER) == Some(Closed)
  {
    TrimmedIsFixed(X_UPPER);
  }

  /** Content that is none of the symbols and does not end in a digit is not a close state. */
  lemma UnknownCheckbox(content: string)
    requires Trim(content) != [] && !IsDigit(Trim(content)[|Trim(content)| - 1])
    requires Trim(content) != X_LOWER && Trim(content) != X_UPPER && Trim(content) != DASH
    requires Trim(content) != SPACE
    ensures FromCheckbox(content) == None
  {
    NoNumberWithoutLastDigit(Trim(content));
  }

  /** A text whose last character is not a digit is no number. */
  lemma NoNumberWithoutLastDigit(t: string)
    requires t != [] && !IsDigit(t[|t| - 1])
    ensures ParseU64(t) == None
  {
    var d := if StartsWith(t, "+") then t[1..] else t;
    if d != [] {
      assert d[|d| - 1] == t[|t| - 1];
    }
  }

  // ---------------------------------------------------------------------
  // Checkbox and child title lines

  const BOX_OPEN: string := "- ["
  const BOX_CLOSE: string := "] "

  /** `CheckboxParseResult`. */
  datatype CheckboxParse = CheckboxOk(state: CloseState, rest: string) | NotCheckbox | InvalidContent(content: string)

  /** `parse_checkbox_prefix_detailed`. */
  function ParseCheckboxPrefix(line: string): (r: CheckboxParse)
    ensures r.NotCheckbox? <==> !StartsWith(line, BOX_OPEN) || IndexOf(line[3..], BOX_CLOSE).None?
    ensures r.InvalidContent? ==>
      && |line| >= 5 + |r.content|
      && line == BOX_OPEN + r.content + BOX_CLOSE + line[5 + |r.content|..]
      && !Contains(r.content, BOX_CLOSE) && FromCheckbox(r.content).None?
    ensures r.CheckboxOk? ==> EndsWith(line, r.rest)
    ensures r.CheckboxOk? ==>
      && |line| >= 5 + |r.rest|
      && var c := line[3..|line| - |r.rest| - 2];
         line == BOX_OPEN + c + BOX_CLOSE + r.rest && !Contains(c, BOX_CLOSE) && FromCheckbox(c) == Some(r.state)
  {
    match StripPrefix(line, BOX_OPEN)
      case None => NotCheckbox
      case Some(rest) =>
        match IndexOf(rest, BOX_CLOSE)
          case None => NotCheckbox
          case Some(b) =>
            var content := rest[..b];
            assert !Contains(content, BOX_CLOSE) by {
              NoEarlierOccurrence(rest, BOX_CLOSE, b);
            }
            BoxSplit(line, rest, b);
            match FromCheckbox(content)
              case Some(s) => CheckboxOk(s, rest[b + 2..])
              case None => InvalidContent(content)
  }

  /** A line that starts with `- [` and has `] ` at `b` after it is the box around the text before `b`. */
  lemma BoxSplit(line: string, rest: string, b: nat)
    requires line == BOX_OPEN + rest && OccursAt(rest, BOX_CLOSE, b)
    ensures line == BOX_OPEN + rest[..b] + BOX_CLOSE + rest[b + 2..]
    ensures |line| == 5 + b + |rest[b + 2..]|
    ensures line[3..|line| - |rest[b + 2..]| - 2] == rest[..b]
  {
    assert rest == rest[..b] + rest[b..b + 2] + rest[b + 2..];
    assert line[3..|line| - |rest[b + 2..]| - 2] == rest[..b] by {
      assert |line| - |rest[b + 2..]| - 2 == 3 + b;
      assert line[3..3 + b] == (BOX_OPEN + rest)[3..3 + b];
    }
  }

  /** No occurrence lies wholly before the first one. */
  lemma NoEarlierOccurrence(s: string, p: string, b: nat)
    requires p != [] && b <= |s| && IndexOf(s, p) == Some(b)
    ensures !Contains(s[..b], p)
  {
    if Contains(s[..b], p) {
      var j := IndexOf(s[..b], p).value;
      assert OccursAt(s[..b], p, j);
      assert j < b;
      assert s[..b][j..j + |p|] == s[j..j + |p|];
      assert OccursAt(s, p, j);
    }
  }

  /** The first occurrence of `p` is right after a prefix that lacks its first character. */
  lemma FirstAt(base: string, p: string, rest: string)
    requires p != [] && p[0] !in base && StartsWith(rest, p)
    ensures IndexOf(base + rest, p) == Some(|base|)
  {
    var u := base + rest;
    assert u[|base|..|base| + |p|] == rest[..|p|];
    assert OccursAt(u, p, |base|);
    forall j | 0 <= j < |base| ensures !OccursAt(u, p, j) {
      assert u[j] == base[j];
      MarkerText.NotOccursAtByFirst(u, p, j);
    }
    var r := IndexOf(u, p);
    assert r.Some?;
    assert r.value >= |base|;
  }

  /** A string without the first character of `p` does not contain `p`. */
  lemma NoFirstChar(s: string, p: string)
    requires p != [] && p[0] !in s
    ensures !Contains(s, p)
  {
    forall j | 0 <= j < |s| ensures !OccursAt(s, p, j) {
      MarkerText.NotOccursAtByFirst(s, p, j);
    }
  }

  /** The checkbox written by `to_checkbox` reads back with the text after it. */
  lemma CheckboxPrefixRoundTrip(s: CloseState, rest: string)
    requires ValidState(s)
    ensures ParseCheckboxPrefix(BOX_OPEN + ToCheckbox(s) + BOX_CLOSE + rest) == CheckboxOk(s, rest)
  {
    var c := ToCheckbox(s);
    var line := BOX_OPEN + c + BOX_CLOSE + rest;
    assert line == BOX_OPEN + (c + (BOX_CLOSE + rest));
    assert StripPrefix(line, BOX_OPEN) == Some(c + (BOX_CLOSE + rest));
    FirstAt(c, BOX_CLOSE, BOX_CLOSE + rest);
    assert (c + (BOX_CLOSE + rest))[..|c|] == c;
    assert (c + (BOX_CLOSE + rest))[|c| + 2..] == rest;
    CheckboxRoundTrip(s);
  }

  /** Unrecognised bracket content is reported as it stands. */
  lemma InvalidCheckboxContent(content: string, rest: string)
    requires ']' !in content && FromCheckbox(content).None?
    ensures ParseCheckboxPrefix(BOX_OPEN + content + BOX_CLOSE + rest) == InvalidContent(content)
  {
    var line := BOX_OPEN + content + BOX_CLOSE + rest;
    AppendAssoc3(BOX_OPEN, content, BOX_CLOSE, rest);
    AppendAssoc(content, BOX_CLOSE, rest);
    assert StripPrefix(line, BOX_OPEN) == Some(content + (BOX_CLOSE + rest));
    FirstAt(content, BOX_CLOSE, BOX_CLOSE + rest);
    assert (content + (BOX_CLOSE + rest))[..|content|] == content;
  }

  /** `ChildTitleParseResult`. */
  datatype ChildTitle = ChildOk | NotChildTitle | ChildInvalidCheckbox(content: string)

  const MARKER_OPEN: string := "<!--"
  const MARKER_CLOSE: string := "-->"
  const SUB_OPEN: string := "<!--sub "

  /**
   * Where the title of a child line's rest ends: at its first `<!--sub `
   * marker, or at the end when it has none.
   */
  function TitleEnd(rest: string): (m: nat)
    ensures m <= |rest| && !Contains(rest[..m], SUB_OPEN)
    ensures m < |rest| ==> OccursAt(rest, SUB_OPEN, m)
    ensures m == |rest| ==> !Contains(rest, SUB_OPEN)
  {
    match IndexOf(rest, SUB_OPEN)
      case Some(m) =>
        NoEarlierOccurrence(rest, SUB_OPEN, m);
        m
      case None =>
        assert rest[..|rest|] == rest;
        |rest|
  }

  /**
   * The test on a checkbox's rest: a non-blank title before its first sub
   * marker, with a closing `-->` somewhere in the rest; or, without a sub
   * marker, a non-blank rest that opens no comment at all.
   */
  predicate ChildRest(rest: string)
    ensures ChildRest(rest) <==>
      var m := TitleEnd(rest);
      && Trim(rest[..m]) != []
      && (m < |rest| ==> Contains(rest, MARKER_CLOSE))
      && (m == |rest| ==> !Contains(rest, MARKER_OPEN))
  {
    match IndexOf(rest, SUB_OPEN)
      case Some(m) => Contains(rest, MARKER_CLOSE) && Trim(rest[..m]) != []
      case None =>
        assert rest[..TitleEnd(rest)] == rest;
        !Contains(rest, MARKER_OPEN) && Trim(rest) != []
  }

  /**
   * `parse_child_title_line_detailed`: a child title is a checkbox whose
   * rest passes `ChildRest`.
   */
  function ParseChildTitleLine(line: string): (r: ChildTitle)
    ensures r.ChildInvalidCheckbox? <==> ParseCheckboxPrefix(line).InvalidContent?
    ensures r.ChildInvalidCheckbox? ==> r.content == ParseCheckboxPrefix(line).content
    ensures ParseCheckboxPrefix(line).NotCheckbox? ==> r.NotChildTitle?
    ensures r.ChildOk? <==>
      && ParseCheckboxPrefix(line).CheckboxOk?
      && var rest := ParseCheckboxPrefix(line).rest;
         var m := TitleEnd(rest);
         && Trim(rest[..m]) != []
         && (m < |rest| ==> Contains(rest, MARKER_CLOSE))
         && (m == |rest| ==> !Contains(rest, MARKER_OPEN))
  {
    match ParseCheckboxPrefix(line)
      case NotCheckbox => NotChildTitle
      case InvalidContent(c) => ChildInvalidCheckbox(c)
      case CheckboxOk(_, rest) => if ChildRest(rest) then ChildOk else NotChildTitle
  }

  /** A checkbox line with a non-blank title and a `<!--sub …-->` marker is a child title. */
  lemma SubChildTitle(s: CloseState, title: string, inner: string)
    requires ValidState(s) && '<' !in title && Trim(title) != []
    ensures ParseChildTitleLine(BOX_OPEN + ToCheckbox(s) + BOX_CLOSE + title + SUB_OPEN + inner + MARKER_CLOSE) == ChildOk
  {
    var rest := title + SUB_OPEN + inner + MARKER_CLOSE;
    var line := BOX_OPEN + ToCheckbox(s) + BOX_CLOSE + title + SUB_OPEN + inner + MARKER_CLOSE;
    var box := BOX_OPEN + ToCheckbox(s) + BOX_CLOSE;
    AppendAssoc3(box, title, SUB_OPEN, inner);
    AppendAssoc(box, title + SUB_OPEN + inner, MARKER_CLOSE);
    assert line == box + rest;
    CheckboxPrefixRoundTrip(s, rest);
    SubRest(title, inner);
    SubTitled(line, s, rest, title);
  }

  /** A checkbox whose rest has a `<!--sub` marker after a non-blank title, and a closing marker, is a child title. */
  lemma SubTitled(line: string, s: CloseState, rest: string, title: string)
    requires ParseCheckboxPrefix(line) == CheckboxOk(s, rest)
    requires IndexOf(rest, SUB_OPEN) == Some(|title|) && Contains(rest, MARKER_CLOSE)
    requires rest[..|title|] == title && Trim(title) != []
    ensures ParseChildTitleLine(line) == ChildOk
  {
  }

  lemma SubRest(title: string, inner: string)
    requires '<' !in title
    ensures var rest := title + SUB_OPEN + inner + MARKER_CLOSE;
      IndexOf(rest, SUB_OPEN) == Some(|title|) && Contains(rest, MARKER_CLOSE) && rest[..|title|] == title
  {
    var rest := title + SUB_OPEN + inner + MARKER_CLOSE;
    assert rest == title + (SUB_OPEN + inner + MARKER_CLOSE);
    FirstAt(title, SUB_OPEN, SUB_OPEN + inner + MARKER_CLOSE);
    ContainsMiddle(title + SUB_OPEN + inner, MARKER_CLOSE, []);
    assert title + SUB_OPEN + inner + MARKER_CLOSE + [] == rest;
  }

  /** A checkbox line whose rest is a plain non-blank title is a child title. */
  lemma PlainChildTitle(s: CloseState, title: string)
    requires ValidState(s) && '<' !in title && Trim(title) != []
    ensures ParseChildTitleLine(BOX_OPEN + ToCheckbox(s) + BOX_CLOSE + title) == ChildOk
  {
    CheckboxPrefixRoundTrip(s, title);
    NoFirstChar(title, SUB_OPEN);
    NoFirstChar(title, MARKER_OPEN);
  }

  /** A checkbox line whose rest is blank is not a child title. */
  lemma BlankChildTitle(s: CloseState, rest: string)
    requires ValidState(s) && AllWhitespace(rest)
    ensures ParseChildTitleLine(BOX_OPEN + ToCheckbox(s) + BOX_CLOSE + rest) == NotChildTitle
  {
    CheckboxPrefixRoundTrip(s, rest);
    assert '<' !in rest by {
      assert forall i :: 0 <= i < |rest| ==> IsWhitespace(rest[i]);
    }
    NoFirstChar(rest, SUB_OPEN);
    NoFirstChar(rest, MARKER_OPEN);
    TrimIsTrimmed(rest);
  }

  // ---------------------------------------------------------------------
  // Issue identity

  /** `LinkedIssueMeta`; the timestamp is an opaque instant. */
  datatype LinkedIssueMeta = LinkedIssueMeta(user: string, link: IssueLink, ts: Option<int>, lineage: seq<nat>)

  /** `IssueIdentity`. */
  datatype IssueIdentity = Linked(meta: LinkedIssueMeta) | Local(path: string)

  const LOCAL: string := "local:"

  /** `IssueIdentity::encode`: `@user url` or `local:path`. */
  function EncodeIdentity(id: IssueIdentity): string {
    match id
      case Linked(meta) => "@" + meta.user + " " + meta.link.url.text
      case Local(path) => LOCAL + path
  }

  /** `ParsedIdentityInfo`. */
  datatype IdentityInfo = LinkedInfo(user: string, link: IssueLink) | LocalInfo(path: string)

  /** `parse_identity_info`. */
  function ParseIdentityInfo(s: string): (r: Option<IdentityInfo>)
    ensures r.Some? ==> Trim(s) != []
    ensures r.Some? && r.value.LinkedInfo? ==> ValidLink(r.value.link) && ' ' !in r.value.user
  {
    var t := Trim(s);
    if t == [] then None
    else match StripPrefix(t, LOCAL)
      case Some(path) => Some(LocalInfo(path))
      case None =>
        if t[0] != '@' then None
        else match FindChar(t[1..], ' ')
          case None => None
          case Some(k) =>
            match ParseLink(Trim(t[1..][k + 1..]))
              case Some(link) => Some(LinkedInfo(t[1..][..k], link))
              case None => None
  }

  /** What parsing an encoded identity gives back. */
  function InfoOf(id: IssueIdentity): IdentityInfo {
    match id
      case Linked(meta) => LinkedInfo(meta.user, meta.link)
      case Local(path) => LocalInfo(path)
  }

  /** An identity whose encoding reads back: plain user names and trimmed texts. */
  predicate Encodable(id: IssueIdentity) {
    match id
      case Linked(meta) =>
        ' ' !in meta.user && ParseLink(meta.link.url.text) == Some(meta.link)
        && IsTrimmed(meta.link.url.text)
      case Local(path) => path == [] || !IsWhitespace(path[|path| - 1])
  }

  /** `parse_identity_info(encode(id))` gives the identity back. */
  lemma IdentityRoundTrip(id: IssueIdentity)
    requires Encodable(id)
    ensures ParseIdentityInfo(EncodeIdentity(id)) == Some(InfoOf(id))
  {
    match id {
      case Local(path) => LocalRoundTrip(path);
      case Linked(meta) => LinkedRoundTrip(meta);
    }
  }

  lemma LocalRoundTrip(path: string)
    requires path == [] || !IsWhitespace(path[|path| - 1])
    ensures ParseIdentityInfo(LOCAL + path) == Some(LocalInfo(path))
  {
    var e := LOCAL + path;
    assert e[0] == 'l' && e[|e| - 1] == (if path == [] then ':' else path[|path| - 1]);
    TrimmedIsFixed(e);
    assert StripPrefix(e, LOCAL) == Some(path);
  }

  lemma LinkedRoundTrip(meta: LinkedIssueMeta)
    requires Encodable(Linked(meta))
    ensures ParseIdentityInfo("@" + meta.user + " " + meta.link.url.text) == Some(LinkedInfo(meta.user, meta.link))
  {
    var text := meta.link.url.text;
    assert text != [] by { assert ParseUrl(text).Some?; }
    AtTrimmed(meta.user, text);
    AtPieces(meta.user, text);
    var e := "@" + meta.user + " " + text;
    MarkerText.NotStartsWithByFirst(e, LOCAL);
    TrimmedIsFixed(text);
    ParseLinkedAt(e, |meta.user|, meta.link);
  }

  /** A trimmed `@…` text that splits at its first space after `k` characters reads as the link after it. */
  lemma ParseLinkedAt(e: string, k: nat, link: IssueLink)
    requires e != [] && e[0] == '@' && FindChar(e[1..], ' ') == Some(k)
    requires ParseLink(Trim(e[1..][k + 1..])) == Some(link)
    requires Trim(e) == e && !StartsWith(e, LOCAL)
    ensures ParseIdentityInfo(e) == Some(LinkedInfo(e[1..][..k], link))
  {
    assert StripPrefix(Trim(e), LOCAL).None?;
  }

  /** `@user text` is trimmed when `text` is. */
  lemma AtTrimmed(user: string, text: string)
    requires text != [] && IsTrimmed(text)
    ensures var e := "@" + user + " " + text; Trim(e) == e && e[0] == '@'
  {
    var e := "@" + user + " " + text;
    assert e[|e| - 1] == text[|text| - 1];
    assert IsTrimmed(e);
    TrimmedIsFixed(e);
  }

  /** The user name and the text of `@user text`, as the identity parsers split it. */
  lemma AtPieces(user: string, text: string)
    requires ' ' !in user
    ensures var e := "@" + user + " " + text;
      && FindChar(e[1..], ' ') == Some(|user|)
      && e[1..][..|user|] == user && e[1..][|user| + 1..] == text
  {
    var e := "@" + user + " " + text;
    assert e[1..] == user + [' '] + text;
    FindCharAfter(user, ' ', text);
  }

  /** `local:` takes precedence: anything after it is a local path. */
  lemma LocalIdentity(path: string)
    requires path == [] || !IsWhitespace(path[|path| - 1])
    ensures ParseIdentityInfo(LOCAL + path) == Some(LocalInfo(path))
  {
    IdentityRoundTrip(Local(path));
  }

  /** `parse_comment_identity`: `@user url#issuecomment-id`, and Pending for anything else. */
  function ParseCommentIdentity(s: string): (r: CommentIdentity)
    ensures !r.Body?
    ensures r.Created? ==> ' ' !in r.user && r.id < U64_LIMIT
  {
    var t := Trim(s);
    if t == [] || t[0] != '@' then Pending
    else match FindChar(t[1..], ' ')
      case None => Pending
      case Some(k) =>
        match SecondPiece(Trim(t[1..][k + 1..]), MarkerText.ISSUE_COMMENT)
          case None => Pending
          case Some(piece) =>
            match ParseU64(piece)
              case Some(id) => Created(t[1..][..k], id)
              case None => Pending
  }

  /** `s.split(p).nth(1)`: the text between the first and second `p`. */
  function SecondPiece(s: string, p: string): Option<string> {
    match IndexOf(s, p)
      case None => None
      case Some(i) =>
        var t := s[i + |p|..];
        match IndexOf(t, p)
          case Some(j) => Some(t[..j])
          case None => Some(t)
  }

  /** The comment marker written by the serialiser reads back as the created comment. */
  lemma CommentIdentityRoundTrip(user: string, base: string, id: nat)
    requires ' ' !in user && '#' !in base && id < U64_LIMIT
    requires base == [] || !IsWhitespace(base[0])
    ensures ParseCommentIdentity("@" + user + " " + base + MarkerText.ISSUE_COMMENT + NatToString(id))
         == Created(user, id)
  {
    var digits := NatToString(id);
    var url := base + MarkerText.ISSUE_COMMENT + digits;
    assert IsDigit(digits[|digits| - 1]);
    assert !IsWhitespace(url[0]) by {
      if base == [] { assert url[0] == '#'; } else { assert url[0] == base[0]; }
    }
    SecondPieceOf(base, digits);
    ParseNatToString(id);
    CreatedOf(user, url, id);
    Strings.AppendAssoc3("@" + user + " ", base, MarkerText.ISSUE_COMMENT, digits);
  }

  /** `@user url` where the url's text after its comment anchor is the number of the comment. */
  lemma CreatedOf(user: string, url: string, id: nat)
    requires ' ' !in user && url != [] && IsTrimmed(url) && id < U64_LIMIT
    requires SecondPiece(url, MarkerText.ISSUE_COMMENT) == Some(NatToString(id))
    requires ParseU64(NatToString(id)) == Some(id)
    ensures ParseCommentIdentity("@" + user + " " + url) == Created(user, id)
  {
    TrimmedIsFixed(url);
    AtTrimmed(user, url);
    AtPieces(user, url);
  }

  /** The text after the only comment anchor. */
  lemma SecondPieceOf(base: string, digits: string)
    requires '#' !in base && AllDigits(digits)
    ensures SecondPiece(base + MarkerText.ISSUE_COMMENT + digits, MarkerText.ISSUE_COMMENT) == Some(digits)
  {
    var url := base + MarkerText.ISSUE_COMMENT + digits;
    assert url == base + (MarkerText.ISSUE_COMMENT + digits);
    MarkerText.AnchorIndex(base, MarkerText.ISSUE_COMMENT + digits);
    assert url[|base| + |MarkerText.ISSUE_COMMENT|..] == digits;
    assert '#' !in digits by {
      assert forall i :: 0 <= i < |digits| ==> IsDigit(digits[i]);
    }
    NoFirstChar(digits, MarkerText.ISSUE_COMMENT);
  }

  // ---------------------------------------------------------------------
  // Ancestry and lineage

  /** `Ancestry`: where an issue lives. */
  datatype Ancestry = Ancestry(owner: string, repo: string, lineage: seq<nat>)

  /** `Ancestry::root`. */
  function RootAncestry(owner: string, repo: string): (a: Ancestry)
    ensures a.owner == owner && a.repo == repo && a.lineage == []
  {
    Ancestry(owner, repo, [])
  }

  /** `Ancestry::child`: the parent number appended, owner and repo kept. */
  function ChildAncestry(a: Ancestry, parent: nat): (r: Ancestry)
    ensures r.owner == a.owner && r.repo == a.repo
    ensures |r.lineage| == |a.lineage| + 1 && r.lineage[..|a.lineage|] == a.lineage
    ensures r.lineage[|a.lineage|] == parent
  {
    Ancestry(a.owner, a.repo, a.lineage + [parent])
  }

  /** `LinkedIssueMeta::ancestry`. */
  function MetaAncestry(meta: LinkedIssueMeta): Ancestry
    requires ValidLink(meta.link)
  {
    Ancestry(Owner(meta.link), Repo(meta.link), meta.lineage)
  }

  /** `LinkedIssueMeta::child_lineage`. */
  function ChildLineage(meta: LinkedIssueMeta): (r: seq<nat>)
    requires ValidLink(meta.link)
    ensures |r| == |meta.lineage| + 1
    ensures r[..|r| - 1] == MetaAncestry(meta).lineage
    ensures r[|r| - 1] == Number(meta.link)
  {
    meta.lineage + [Number(meta.link)]
  }

  /** A child's lineage is the ancestry of its parent extended by the parent's number. */
  lemma ChildLineageIsChildAncestry(meta: LinkedIssueMeta)
    requires ValidLink(meta.link)
    ensures ChildAncestry(MetaAncestry(meta), Number(meta.link)).lineage == ChildLineage(meta)
  {
  }

  /** Descending through a path of parents keeps owner and repo and appends the path. */
  lemma {:induction false} DescendantAncestry(a: Ancestry, parents: seq<nat>)
    ensures Descend(a, parents) == Ancestry(a.owner, a.repo, a.lineage + parents)
  {
    if parents != [] {
      DescendantAncestry(a, parents[..|parents| - 1]);
      assert a.lineage + parents == a.lineage + parents[..|parents| - 1] + [parents[|parents| - 1]];
    } else {
      assert a.lineage + parents == a.lineage;
    }
  }

  /** `child` applied once per parent number, outermost first. */
  function Descend(a: Ancestry, parents: seq<nat>): Ancestry {
    if parents == [] then a else ChildAncestry(Descend(a, parents[..|parents| - 1]), parents[|parents| - 1])
  }

  // ---------------------------------------------------------------------
  // The issue tree

  /** `Comment`: the body is opaque text. */
  datatype Comment = Comment(identity: CommentIdentity, body: string)

  /** `IssueContents`. */
  datatype IssueContents = IssueContents(
    title: string, labels: seq<string>, state: CloseState, comments: seq<Comment>,
    blockers: IssueBlocker.BlockerSequence)

  /** `Issue`: identity, contents and the sub-issues in order. */
  datatype Issue = Issue(identity: IssueIdentity, contents: IssueContents, children: seq<Issue>)

  /** The node reached by following `path` as child indices. */
  function ChildAt(issue: Issue, path: seq<nat>): Option<Issue>
    decreases |path|
  {
    if path == [] then Some(issue)
    else if path[0] < |issue.children| then ChildAt(issue.children[path[0]], path[1..])
    else None
  }

  /** One more step of a path looks one level further down. */
  lemma {:induction false} ChildAtSnoc(issue: Issue, path: seq<nat>, k: nat)
    ensures ChildAt(issue, path + [k]) ==
      match ChildAt(issue, path)
        case None => None
        case Some(c) => if k < |c.children| then Some(c.children[k]) else None
    decreases |path|
  {
    if path == [] {
      assert [] + [k] == [k];
      assert [k][1..] == [];
    } else {
      assert (path + [k])[1..] == path[1..] + [k];
      if path[0] < |issue.children| {
        ChildAtSnoc(issue.children[path[0]], path[1..], k);
      }
    }
  }

  /**
   * `get_child_mut`: walks every index of the path but the last, then
   * takes the last one; the empty path is the issue itself.
   */
  method GetChildMut(issue: Issue, path: seq<nat>) returns (r: Option<Issue>)
    ensures r == ChildAt(issue, path)
  {
    if path == [] {
      return Some(issue);
    }
    var current := issue;
    var i := 0;
    while i < |path| - 1
      invariant 0 <= i <= |path| - 1
      invariant ChildAt(issue, path[..i]) == Some(current)
    {
      var idx := path[i];
      if idx >= |current.children| {
        ChildAtSnoc(issue, path[..i], idx);
        assert path[..i] + [idx] == path[..i + 1];
        NoneExtends(issue, path[..i + 1], path[i + 1..]);
        assert path[..i + 1] + path[i + 1..] == path;
        return None;
      }
      ChildAtSnoc(issue, path[..i], idx);
      assert path[..i] + [idx] == path[..i + 1];
      current := current.children[idx];
      i := i + 1;
    }
    var last := path[|path| - 1];
    ChildAtSnoc(issue, path[..i], last);
    assert path[..i] + [last] == path;
    if last < |current.children| {
      r := Some(current.children[last]);
    } else {
      r := None;
    }
  }

  /** A path that leaves the tree stays outside it whatever follows. */
  lemma {:induction false} NoneExtends(issue: Issue, p: seq<nat>, q: seq<nat>)
    requires ChildAt(issue, p).None?
    ensures ChildAt(issue, p + q).None?
    decreases |p|
  {
    if p != [] {
      assert (p + q)[1..] == p[1..] + q;
      assert (p + q)[0] == p[0];
      if p[0] < |issue.children| {
        NoneExtends(issue.children[p[0]], p[1..], q);
      }
    }
  }

  /** The empty path is the root; an index past the children is nothing. */
  lemma ChildAtBounds(issue: Issue, k: nat)
    ensures ChildAt(issue, []) == Some(issue)
    ensures k >= |issue.children| ==> ChildAt(issue, [k]).None?
    ensures k < |issue.children| ==> ChildAt(issue, [k]) == Some(issue.children[k])
  {
  }

  // ---------------------------------------------------------------------
  // Title lines

  /** `ParsedTitleLine`. */
  datatype ParsedTitleLine = ParsedTitleLine(title: string, identity: Option<IdentityInfo>, state: CloseState, labels: seq<string>)

  const SUB_PREFIX: string := "sub "

  /** The trimmed, non-empty comma-separated labels. */
  function LabelList(parts: seq<string>): (r: seq<string>)
    ensures forall k :: 0 <= k < |r| ==> r[k] != []
  {
    if parts == [] then []
    else
      var rest := LabelList(parts[..|parts| - 1]);
      var t := Trim(parts[|parts| - 1]);
      if t == [] then rest else rest + [t]
  }

  /** The leading `[a, b] ` label list and the text after it. */
  function SplitLabels(rest: string): (seq<string>, string) {
    if rest != [] && rest[0] == '[' then
      match IndexOf(rest, BOX_CLOSE)
        case Some(b) =>
          if b >= 1 then (LabelList(Split(rest[1..b], ',')), rest[b + 2..]) else ([], rest)
        case None => ([], rest)
    else ([], rest)
  }

  /** A label list closed by its first `] ` splits there. */
  lemma SplitLabelsAt(s: string, b: nat)
    requires s != [] && s[0] == '[' && IndexOf(s, BOX_CLOSE) == Some(b) && b >= 1
    ensures b + 2 <= |s|
    ensures SplitLabels(s) == (LabelList(Split(s[1..b], ',')), s[b + 2..])
  {
  }

  /**
   * The bounds test of the title-line parser as written: it rejects only a
   * closing `-->` found at or before the opening `<!--`.
   */
  predicate MarkerBoundsAsWritten(start: nat, end: nat) { end > start }

  /**
   * The inner marker text `rest[start + 4..end]` exists only when the
   * closing `-->` begins after the opening `<!--` ends.
   */
  predicate MarkerBounds(start: nat, end: nat) { end >= start + |MARKER_OPEN| }

  /** The text after the checkbox and labels of a title line. */
  function TitleRest(line: string): Option<(CloseState, seq<string>, string)> {
    match ParseCheckboxPrefix(line)
      case CheckboxOk(state, rest0) =>
        var (labels, rest) := SplitLabels(rest0);
        Some((state, labels, rest))
      case _ => None
  }

  /**
   * The slice the title-line parser takes as written would start after it
   * ends: both markers are found, the test passes, and `rest[start + 4..end]`
   * is out of order.
   */
  predicate TitleSliceOutOfOrder(line: string) {
    match TitleRest(line)
      case None => false
      case Some(t) =>
        var rest := t.2;
        IndexOf(rest, MARKER_OPEN).Some? && IndexOf(rest, MARKER_CLOSE).Some?
        && MarkerBoundsAsWritten(IndexOf(rest, MARKER_OPEN).value, IndexOf(rest, MARKER_CLOSE).value)
        && !MarkerBounds(IndexOf(rest, MARKER_OPEN).value, IndexOf(rest, MARKER_CLOSE).value)
  }

  const OVERLAP_TITLE: string := "T <!-->"

  /** A title line ending in `<!-->` passes the test as written and would slice backwards. */
  lemma OverlappingMarkerAsWritten()
    ensures TitleSliceOutOfOrder(BOX_OPEN + ToCheckbox(Open) + BOX_CLOSE + OVERLAP_TITLE)
  {
    CheckboxPrefixRoundTrip(Open, OVERLAP_TITLE);
    assert SplitLabels(OVERLAP_TITLE) == ([], OVERLAP_TITLE);
    OverlapOpen();
    OverlapClose();
  }

  lemma OverlapOpen()
    ensures IndexOf(OVERLAP_TITLE, MARKER_OPEN) == Some(2)
  {
    var rest := OVERLAP_TITLE;
    assert rest[2..6] == MARKER_OPEN;
    assert OccursAt(rest, MARKER_OPEN, 2);
    MarkerText.NotOccursAtByFirst(rest, MARKER_OPEN, 0);
    MarkerText.NotOccursAtByFirst(rest, MARKER_OPEN, 1);
  }

  lemma OverlapClose()
    ensures IndexOf(OVERLAP_TITLE, MARKER_CLOSE) == Some(4)
  {
    var rest := OVERLAP_TITLE;
    assert rest[4..7] == MARKER_CLOSE;
    assert OccursAt(rest, MARKER_CLOSE, 4);
    MarkerText.NotOccursAtByFirst(rest, MARKER_CLOSE, 0);
    MarkerText.NotOccursAtByFirst(rest, MARKER_CLOSE, 1);
    MarkerText.NotOccursAtByFirst(rest, MARKER_CLOSE, 2);
    MarkerText.NotOccursAtByFirst(rest, MARKER_CLOSE, 3);
  }

  /**
   * `parse_title_line`, with the marker bounds test corrected to require the
   * closing `-->` after the opening `<!--`.
   */
  function ParseTitleLine(line: string, lineNum: nat, ctx: ParseContext): (r: Result<ParsedTitleLine, ParseError>)
    ensures ParseCheckboxPrefix(line).NotCheckbox? <==> r == Err(InvalidTitle(LineSpan(ctx, lineNum), line))
    ensures ParseCheckboxPrefix(line).InvalidContent? ==> r == Err(InvalidCheckbox(LineSpan(ctx, lineNum), ParseCheckboxPrefix(line).content))
    ensures r.Ok? ==> ParseCheckboxPrefix(line).CheckboxOk? && r.value.state == ParseCheckboxPrefix(line).state
    ensures r.Ok? ==> IsTrimmed(r.value.title)
    ensures TitleSliceOutOfOrder(line) ==> r == Err(MalformedUrlMarker(LineSpan(ctx, lineNum)))
  {
    var span := LineSpan(ctx, lineNum);
    match ParseCheckboxPrefix(line)
      case NotCheckbox => Err(InvalidTitle(span, line))
      case InvalidContent(c) => Err(InvalidCheckbox(span, c))
      case CheckboxOk(state, rest0) =>
        var (labels, rest) := SplitLabels(rest0);
        match IndexOf(rest, MARKER_OPEN)
          case None => Err(MissingUrlMarker(span))
          case Some(ms) =>
            match IndexOf(rest, MARKER_CLOSE)
              case None => Err(MalformedUrlMarker(span))
              case Some(me) =>
                if !MarkerBounds(ms, me) then Err(MalformedUrlMarker(span))
                else
                  var title := Trim(rest[..ms]);
                  TrimIsTrimmed(rest[..ms]);
                  var inner := Trim(rest[ms + 4..me]);
                  var inner2 := match StripPrefix(inner, SUB_PREFIX) case Some(x) => x case None => inner;
                  Ok(ParsedTitleLine(title, ParseIdentityInfo(inner2), state, labels))
  }
}
