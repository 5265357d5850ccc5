/**
 * The pure parts of the `open` command of src/open.rs: reading an issue URL
 * and writing the fetched issue and its comments as a markdown or typst
 * document. The two formatters share one layout and differ only in markup,
 * which is `Style` here.
 */
module OpenCommand {
  import opened Wrappers
  import opened Strings
  import Github
  import OpenUtil

  /** The issue record this command fetches: no author and no state. */
  datatype Issue = Issue(number: nat, title: string, body: Option<string>, labels: seq<string>)

  /** The comment record this command fetches. */
  datatype Comment = Comment(id: nat, body: Option<string>)

  // ---------------------------------------------------------------------
  // Issue URLs

  /**
   * `parse_github_issue_url` of this command: the trimmed text after an
   * optional scheme must start with `github.com/`; the rest is read as in
   * `Github.ParsePath`. Unlike the parser of src/github.rs it knows nothing
   * of SSH remotes.
   */
  function ParseIssueUrl(url: string): (r: Result<(string, string, nat), Github.UrlError>)
    ensures !StartsWith(Github.DropScheme(Trim(url)), Github.GITHUB_PREFIX) ==> r == Err(Github.NotGithub(Trim(url)))
    ensures r.Ok? ==> '/' !in r.value.0 && '/' !in r.value.1 && r.value.2 < U64_LIMIT
  {
    var u := Trim(url);
    match StripPrefix(Github.DropScheme(u), Github.GITHUB_PREFIX)
      case None => Err(Github.NotGithub(u))
      case Some(path) => Github.ParsePath(u, path)
  }

  /** On everything but an SSH remote the command's parser and the shared one agree. */
  lemma SameAsSharedParser(url: string)
    requires !StartsWith(Trim(url), Github.SSH_PREFIX) && !StartsWith(Trim(url), Github.SSH_URL_PREFIX)
    ensures ParseIssueUrl(url) == Github.ParseGithubIssueUrl(url)
  {
    var u := Trim(url);
    assert StripPrefix(u, Github.SSH_PREFIX).None?;
    assert StripPrefix(u, Github.SSH_URL_PREFIX).None?;
  }

  /** Every issue URL the program writes is read back as its owner, repository and number. */
  lemma IssueUrlRoundTrip(owner: string, repo: string, n: nat)
    requires '/' !in owner && '/' !in repo && n < U64_LIMIT
    ensures ParseIssueUrl(Github.IssueUrl(owner, repo, n)) == Ok((owner, repo, n))
  {
    var digits := NatToString(n);
    var path := owner + (Github.SLASH + (repo + (Github.SLASH + (Github.ISSUES + (Github.SLASH + digits)))));
    assert Github.IssueUrl(owner, repo, n) == Github.HTTPS_PREFIX + (Github.GITHUB_PREFIX + path);
    assert IsDigit(digits[|digits| - 1]);
    Github.HttpsEntry(path);
    Github.IssueUrlRoundTrip(owner, repo, n);
  }

  /** An SSH remote is not a GitHub URL to this command. */
  lemma SshRemoteRejected()
    ensures ParseIssueUrl("git@github.com:owner/repo/issues/1") == Err(Github.NotGithub("git@github.com:owner/repo/issues/1"))
  {
    var u := "git@github.com:owner/repo/issues/1";
    assert u[0] == 'g' && u[3] == '@' && u[|u| - 1] == '1';
    TrimmedIsFixed(u);
    NoSchemeUnlessH(u);
    DiffersAt(u, Github.GITHUB_PREFIX, 3);
  }

  /** A text that does not start with `h` has no scheme to drop. */
  lemma NoSchemeUnlessH(u: string)
    requires u != [] && u[0] != 'h'
    ensures Github.DropScheme(u) == u
  {
    DiffersAt(u, Github.HTTPS_PREFIX, 0);
    DiffersAt(u, Github.HTTP_PREFIX, 0);
  }

  // ---------------------------------------------------------------------
  // The document

  /**
   * The markup of one kind of document: the title's heading, how a marker
   * comment is opened and closed, how the labels line starts, and what is
   * done to a body before it is written.
   */
  datatype Style = Style(heading: string, markerOpen: string, markerClose: string, labelsLead: string,
                         convert: string -> string)

  /** `format_issue_as_markdown`: bodies are written as they are. */
  const MARKDOWN: Style := Style("# ", "<!--", "-->", "**Labels:** ", s => s)

  /** `format_issue_as_typst`: typst headings and line comments, bodies converted. */
  const TYPST: Style := Style("= ", "// ", "", "*Labels:* ", OpenUtil.ConvertMarkdownToTypst)

  const NL: string := "\n"
  const LABEL_SEP: string := ", "
  const COMMENT_FRAGMENT: string := "#issuecomment-"

  /** A marker: `<!--kind: url-->` or `// kind: url`. */
  function Marker(style: Style, kind: string, url: string): string {
    style.markerOpen + kind + ": " + url + style.markerClose
  }

  function CommentUrl(owner: string, repo: string, number: nat, id: nat): string {
    Github.IssueUrl(owner, repo, number) + COMMENT_FRAGMENT + NatToString(id)
  }

  /** The title heading, then the issue marker and a blank line. */
  function Head(style: Style, issue: Issue, owner: string, repo: string): (r: string)
    ensures EndsWith(r, NL)
  {
    var r := style.heading + issue.title + NL + Marker(style, "issue", Github.IssueUrl(owner, repo, issue.number)) + NL + NL;
    assert r[|r| - 1..] == NL;
    r
  }

  /** The labels line and a blank line, written only when there are labels. */
  function LabelsLine(style: Style, labels: seq<string>): (r: string)
    ensures r == [] <==> labels == []
    ensures labels != [] ==> StartsWith(r, style.labelsLead) && EndsWith(r, NL + NL)
  {
    if labels == [] then []
    else
      var r := style.labelsLead + Join(labels, LABEL_SEP) + NL + NL;
      assert r[..|style.labelsLead|] == style.labelsLead;
      assert r[|r| - 2..] == NL + NL;
      r
  }

  /** The text with a line break added when it does not already end in one. */
  function EndWithNewline(s: string): (r: string)
    ensures EndsWith(r, NL)
    ensures s <= r && |r| <= |s| + 1
    ensures EndsWith(s, NL) ==> r == s
  {
    if EndsWith(s, NL) then s
    else
      var r := s + NL;
      assert r[|r| - 1..] == NL;
      r
  }

  /** A body as written: nothing for a missing or empty body, else its converted text ending in a line break. */
  function BodyBlock(style: Style, body: Option<string>): (r: string)
    ensures r == [] <==> (body.None? || body.value == [])
    ensures r != [] ==> EndsWith(r, NL)
  {
    if body.None? || body.value == [] then [] else EndWithNewline(style.convert(body.value))
  }

  /** One comment: a blank line, its marker, then its body. */
  function CommentBlock(style: Style, c: Comment, owner: string, repo: string, number: nat): (r: string)
    ensures EndsWith(r, NL)
  {
    var lead := NL + Marker(style, "comment", CommentUrl(owner, repo, number, c.id)) + NL;
    var b := BodyBlock(style, c.body);
    assert EndsWith(lead, NL) by { assert lead[|lead| - 1..] == NL; }
    if b == [] then
      assert lead + b == lead;
      lead + b
    else
      EndsAfter(lead, b, NL);
      lead + b
  }

  /** A text ending in `p` still ends in `p` after anything is put before it. */
  lemma EndsAfter(a: string, b: string, p: string)
    requires EndsWith(b, p)
    ensures EndsWith(a + b, p)
  {
    assert (a + b)[|a + b| - |p|..] == b[|b| - |p|..];
  }

  /** The document: head, labels and body, then the comments in order. */
  function Render(style: Style, issue: Issue, comments: seq<Comment>, owner: string, repo: string): string {
    if comments == [] then Head(style, issue, owner, repo) + LabelsLine(style, issue.labels) + BodyBlock(style, issue.body)
    else
      Render(style, issue, comments[..|comments| - 1], owner, repo) +
      CommentBlock(style, comments[|comments| - 1], owner, repo, issue.number)
  }

  /** `push_str` of a body or comment text, then `push('\n')` when it does not end in one. */
  method PushBody(content: string, style: Style, body: Option<string>) returns (r: string)
    ensures r == content + BodyBlock(style, body)
  {
    r := content;
    if body.Some? && body.value != [] {
      var text := style.convert(body.value);
      r := r + text;
      if !EndsWith(text, NL) {
        r := r + NL;
      }
    }
  }

  /** The formatter shared by both kinds of document, with its comment loop. */
  method FormatIssue(style: Style, issue: Issue, comments: seq<Comment>, owner: string, repo: string) returns (content: string)
    ensures content == Render(style, issue, comments, owner, repo)
  {
    content := Head(style, issue, owner, repo);
    content := content + LabelsLine(style, issue.labels);
    content := PushBody(content, style, issue.body);
    for i := 0 to |comments|
      invariant content == Render(style, issue, comments[..i], owner, repo)
    {
      content := PushComment(content, style, comments[i], owner, repo, issue.number);
      assert comments[..i + 1][..i] == comments[..i];
    }
    assert comments[..|comments|] == comments;
  }

  /** One turn of the comment loop: the marker line, then the body. */
  method PushComment(content: string, style: Style, c: Comment, owner: string, repo: string, number: nat) returns (r: string)
    ensures r == content + CommentBlock(style, c, owner, repo, number)
  {
    r := content + NL + Marker(style, "comment", CommentUrl(owner, repo, number, c.id)) + NL;
    r := PushBody(r, style, c.body);
  }

  /** `format_issue_as_markdown`. */
  method FormatIssueAsMarkdown(issue: Issue, comments: seq<Comment>, owner: string, repo: string) returns (content: string)
    ensures content == Render(MARKDOWN, issue, comments, owner, repo)
  {
    content := FormatIssue(MARKDOWN, issue, comments, owner, repo);
  }

  /** `format_issue_as_typst`. */
  method FormatIssueAsTypst(issue: Issue, comments: seq<Comment>, owner: string, repo: string) returns (content: string)
    ensures content == Render(TYPST, issue, comments, owner, repo)
  {
    content := FormatIssue(TYPST, issue, comments, owner, repo);
  }

  // ---------------------------------------------------------------------
  // What the document promises

  /** The document starts with its head and always ends in a line break. */
  lemma {:induction false} RenderShape(style: Style, issue: Issue, comments: seq<Comment>, owner: string, repo: string)
    ensures Head(style, issue, owner, repo) <= Render(style, issue, comments, owner, repo)
    ensures EndsWith(Render(style, issue, comments, owner, repo), NL)
  {
    var h := Head(style, issue, owner, repo);
    if comments == [] {
      HeadThenBlocks(h, LabelsLine(style, issue.labels), BodyBlock(style, issue.body));
    } else {
      var prefix := Render(style, issue, comments[..|comments| - 1], owner, repo);
      var c := CommentBlock(style, comments[|comments| - 1], owner, repo, issue.number);
      RenderShape(style, issue, comments[..|comments| - 1], owner, repo);
      EndsAfter(prefix, c, NL);
      PrefixGrows(h, prefix, c);
    }
  }

  /** A head followed by two blocks, each empty or ending in a line break, still ends in one. */
  lemma HeadThenBlocks(h: string, l: string, b: string)
    requires EndsWith(h, NL) && (l == [] || EndsWith(l, NL)) && (b == [] || EndsWith(b, NL))
    ensures h <= h + l + b && EndsWith(h + l + b, NL)
  {
    if b != [] {
      EndsAfter(h + l, b, NL);
    } else if l != [] {
      assert h + l + b == h + l;
      EndsAfter(h, l, NL);
    } else {
      assert h + l + b == h;
    }
  }

  /** Dropping the head leaves what follows it. */
  lemma AfterHead(h: string, rest: string)
    ensures (h + rest)[|h|..] == rest
  {
  }

  /** Comments are only appended: the document of the first `k` comments is a prefix of the whole. */
  lemma {:induction false} CommentsAppended(style: Style, issue: Issue, comments: seq<Comment>, k: nat, owner: string, repo: string)
    requires k <= |comments|
    ensures Render(style, issue, comments[..k], owner, repo) <= Render(style, issue, comments, owner, repo)
  {
    if k < |comments| {
      var init := comments[..|comments| - 1];
      assert init[..k] == comments[..k];
      CommentsAppended(style, issue, init, k, owner, repo);
    } else {
      assert comments[..k] == comments;
    }
  }

  /** The first line of the document is the title heading. */
  lemma TitleFirstLine(style: Style, issue: Issue, comments: seq<Comment>, owner: string, repo: string)
    requires '\n' !in style.heading && '\n' !in issue.title
    ensures Split(Render(style, issue, comments, owner, repo), '\n')[0] == style.heading + issue.title
  {
    RenderShape(style, issue, comments, owner, repo);
    HeadFirstLine(style, issue, owner, repo, Render(style, issue, comments, owner, repo));
  }

  /** The first line of any text starting with the head is the title heading. */
  lemma HeadFirstLine(style: Style, issue: Issue, owner: string, repo: string, r: string)
    requires '\n' !in style.heading && '\n' !in issue.title
    requires Head(style, issue, owner, repo) <= r
    ensures Split(r, '\n')[0] == style.heading + issue.title
  {
    var line := style.heading + issue.title;
    var h := Head(style, issue, owner, repo);
    assert h == line + (NL + Marker(style, "issue", Github.IssueUrl(owner, repo, issue.number)) + NL + NL);
    assert r[..|line| + 1] == h[..|line| + 1];
    FirstLineOf(line, r[|line| + 1..], r);
  }

  /** The first line of `line` + a line break + anything is `line`. */
  lemma {:induction false} FirstLineOf(line: string, rest: string, r: string)
    requires '\n' !in line && |line| < |r| && r[..|line| + 1] == line + NL && rest == r[|line| + 1..]
    ensures Split(r, '\n')[0] == line
  {
    assert r == line + ['\n'] + rest;
    FindCharAfter(line, '\n', rest);
  }

  /** A markdown body is written verbatim, followed by a line break only when it lacks one. */
  lemma MarkdownBodyVerbatim(body: string)
    requires body != []
    ensures var b := BodyBlock(MARKDOWN, Some(body));
            body <= b && EndsWith(b, NL) && (EndsWith(body, NL) ==> b == body)
  {
    assert MARKDOWN.convert(body) == body;
  }

  /** A typst body is the markdown body with its level one to three headers rewritten. */
  lemma TypstBodyConverted(body: string)
    requires body != []
    ensures BodyBlock(TYPST, Some(body)) == EndWithNewline(OpenUtil.ConvertMarkdownToTypst(body))
  {
  }

  /** Without labels the body follows the head directly; with labels the labels line comes between them. */
  lemma LabelsOnlyWhenPresent(style: Style, issue: Issue, owner: string, repo: string)
    ensures issue.labels == [] ==>
      Render(style, issue, [], owner, repo) == Head(style, issue, owner, repo) + BodyBlock(style, issue.body)
    ensures issue.labels != [] ==>
      var r := Render(style, issue, [], owner, repo);
      var h := Head(style, issue, owner, repo);
      StartsWith(r[|h|..], style.labelsLead)
  {
    var h := Head(style, issue, owner, repo);
    var l := LabelsLine(style, issue.labels);
    var b := BodyBlock(style, issue.body);
    AppendAssoc(h, l, b);
    if issue.labels != [] {
      AfterHead(h, l + b);
      PrefixGrows(style.labelsLead, l, b);
    } else {
      assert l + b == b;
    }
  }
}
