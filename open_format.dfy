/**
 * `format_issue` of src/open/format.rs: the local file of an issue as the
 * editor first writes it from GitHub. The text is the sequence of the lines
 * it pushes (each push is one line and its line break): the title line, the
 * body indented under it, the comments, then the sub-issues.
 */
module OpenFormat {
  import opened Wrappers
  import opened Strings
  import opened Extensions
  import Github
  import FileMarker
  import OpenUtil
  import MarkerText

  const CLOSED: string := "closed"
  const TAB: string := "\t"
  const DOUBLE_TAB: string := "\t\t"
  const FOUR_SPACES: string := "    "
  const LABEL_SEP: string := ", "
  const COMMENT_FRAGMENT: string := "#issuecomment-"
  const BOX_OPEN: string := "- ["
  const BOX_CLOSE: string := "] "

  // ---------------------------------------------------------------------
  // Single lines

  /** The character inside the box: `x` for a closed issue. */
  function Box(closed: bool): string {
    if closed then "x" else " "
  }

  /** `[l1, l2] ` before the title, or nothing without labels. */
  function LabelsPart(labels: seq<string>): string {
    if labels == [] then "" else "[" + Join(labels, LABEL_SEP) + BOX_CLOSE
  }

  /** The URL of a comment: the issue URL and `#issuecomment-{id}`. */
  function CommentUrl(owner: string, repo: string, number: nat, id: nat): string {
    Github.IssueUrl(owner, repo, number) + COMMENT_FRAGMENT + NatToString(id)
  }

  /** `- [x] [labels] Title <marker>`: the marker is immutable when someone else owns the issue. */
  function TitleLine(issue: Github.GithubIssue, owner: string, repo: string, currentUser: string, ext: Extension): string {
    var marker := FileMarker.IssueUrl(Github.IssueUrl(owner, repo, issue.number), issue.login != currentUser);
    BOX_OPEN + Box(issue.state == CLOSED) + BOX_CLOSE + LabelsPart(issue.labels) + issue.title + " " + FileMarker.Encode(marker, ext)
  }

  /** The line of a sub-issue under its parent. */
  function SubIssueLine(sub: Github.GithubIssue, owner: string, repo: string, ext: Extension): string {
    var marker := FileMarker.SubIssue(Github.IssueUrl(owner, repo, sub.number));
    TAB + BOX_OPEN + Box(sub.state == CLOSED) + BOX_CLOSE + sub.title + " " + FileMarker.Encode(marker, ext)
  }

  /** A body as written into a file of the given kind: markdown headers become typst headers in typst files. */
  function BodyText(body: string, ext: Extension): string {
    match ext
      case Md => body
      case Typ => OpenUtil.ConvertMarkdownToTypst(body)
  }

  /** The lines of a body that is present and non-empty, and none otherwise. */
  function BodyLines(body: Option<string>, ext: Extension): seq<string> {
    if body.Some? && body.value != [] then Lines(BodyText(body.value, ext)) else []
  }

  /** Each line behind the given indentation. */
  function Indented(lines: seq<string>, prefix: string): (r: seq<string>)
    ensures |r| == |lines|
  {
    seq(|lines|, i requires 0 <= i < |lines| => prefix + lines[i])
  }

  /** One tab under an issue one owns, two under someone else's. */
  function Indent(owned: bool): string {
    if owned then TAB else DOUBLE_TAB
  }

  // ---------------------------------------------------------------------
  // The body without the sub-issues' own checkbox lines

  function Titles(subs: seq<Github.GithubIssue>): (r: seq<string>)
    ensures |r| == |subs|
  {
    seq(|subs|, i requires 0 <= i < |subs| => subs[i].title)
  }

  /** A checkbox line whose title is one of the sub-issues'. */
  predicate MatchesSubIssue(line: string, titles: seq<string>) {
    var t := OpenUtil.ExtractCheckboxTitle(line);
    t.Some? && t.value in titles
  }

  /** The test the body loop applies: a checkbox line with a sub-issue's title. */
  function SubIssueItem(subs: seq<Github.GithubIssue>): string -> bool {
    line => MatchesSubIssue(line, Titles(subs))
  }

  /** A line that continues the item above it: indented or empty. */
  predicate IsContinuation(line: string) {
    StartsWith(line, TAB) || StartsWith(line, FOUR_SPACES) || line == []
  }

  datatype BodyState = BodyState(kept: seq<string>, skipping: bool)

  /**
   * The body lines kept after reading `lines`, and whether the lines that
   * follow are still being skipped: a sub-issue's checkbox line starts a
   * skip, continuation lines are skipped while it lasts, and any other line
   * ends it and is kept.
   */
  function FilterBody(lines: seq<string>, isSub: string -> bool): (s: BodyState)
    ensures |s.kept| <= |lines|
    ensures forall k :: 0 <= k < |s.kept| ==> s.kept[k] in lines && !isSub(s.kept[k])
  {
    if lines == [] then BodyState([], false)
    else Step(FilterBody(lines[..|lines| - 1], isSub), lines[|lines| - 1], isSub(lines[|lines| - 1]))
  }

  /** One line of the body loop, given whether it is a sub-issue's checkbox line. */
  function Step(s: BodyState, line: string, matches: bool): BodyState {
    if matches then BodyState(s.kept, true)
    else if s.skipping && IsContinuation(line) then s
    else BodyState(s.kept + [line], false)
  }

  // ---------------------------------------------------------------------
  // Comments and sub-issues

  /** A markdown file gets a `\t` spacer line when the last line so far has text. */
  function Spacer(prev: seq<string>, ext: Extension): seq<string> {
    if ext == Md && |prev| > 0 && !AllWhitespace(prev[|prev| - 1]) then [TAB] else []
  }

  /** What one comment adds after `prev`: spacer, marker line, body. */
  function CommentBlock(prev: seq<string>, c: Github.GithubComment, number: nat, owner: string, repo: string,
                        currentUser: string, ext: Extension): seq<string> {
    var owned := c.login == currentUser;
    var marker := FileMarker.Comment(CommentUrl(owner, repo, number, c.id), c.id, !owned);
    Spacer(prev, ext) + [TAB + FileMarker.Encode(marker, ext)] + Indented(BodyLines(c.body, ext), Indent(owned))
  }

  /** The lines after `start` once the comments are written, one block each in order. */
  function WithComments(start: seq<string>, cs: seq<Github.GithubComment>, number: nat, owner: string, repo: string,
                        currentUser: string, ext: Extension): (r: seq<string>)
    ensures start <= r
  {
    if cs == [] then start
    else
      var prev := WithComments(start, cs[..|cs| - 1], number, owner, repo, currentUser, ext);
      prev + CommentBlock(prev, cs[|cs| - 1], number, owner, repo, currentUser, ext)
  }

  /** The body embedded under a sub-issue: the local file's when there is one, otherwise GitHub's. */
  function EmbeddedBody(sub: Github.GithubIssue, localBody: nat -> Option<string>): Option<string> {
    if localBody(sub.number).Some? then localBody(sub.number) else sub.body
  }

  /** What one sub-issue adds after `prev`: spacer, its line, then either the omitted marker or its body. */
  function SubIssueBlock(prev: seq<string>, sub: Github.GithubIssue, owner: string, repo: string, ext: Extension,
                         localBody: nat -> Option<string>): seq<string> {
    Spacer(prev, ext) + [SubIssueLine(sub, owner, repo, ext)] + SubIssueContent(sub, ext, localBody)
  }

  /** Under a sub-issue's line: the omitted marker when it is closed, its embedded body otherwise. */
  function SubIssueContent(sub: Github.GithubIssue, ext: Extension, localBody: nat -> Option<string>): seq<string> {
    if sub.state == CLOSED then [DOUBLE_TAB + FileMarker.Encode(FileMarker.Omitted, ext)]
    else Indented(BodyLines(EmbeddedBody(sub, localBody), ext), DOUBLE_TAB)
  }

  /** The lines after `start` once the sub-issues are written, one block each in order. */
  function WithSubIssues(start: seq<string>, subs: seq<Github.GithubIssue>, owner: string, repo: string, ext: Extension,
                         localBody: nat -> Option<string>): (r: seq<string>)
    ensures start <= r
  {
    if subs == [] then start
    else
      var prev := WithSubIssues(start, subs[..|subs| - 1], owner, repo, ext, localBody);
      prev + SubIssueBlock(prev, subs[|subs| - 1], owner, repo, ext, localBody)
  }

  /** The body lines under the title. */
  function IssueBody(issue: Github.GithubIssue, subs: seq<Github.GithubIssue>, currentUser: string, ext: Extension): seq<string> {
    Indented(FilterBody(BodyLines(issue.body, ext), SubIssueItem(subs)).kept, Indent(issue.login == currentUser))
  }

  /** The whole file: title, then the omitted marker alone, or body, comments and sub-issues in that order. */
  function Format(issue: Github.GithubIssue, comments: seq<Github.GithubComment>, subs: seq<Github.GithubIssue>,
                  owner: string, repo: string, currentUser: string, renderClosed: bool, ext: Extension,
                  localBody: nat -> Option<string>): (r: seq<string>)
    ensures |r| >= 1 && r[0] == TitleLine(issue, owner, repo, currentUser, ext)
  {
    var title := [TitleLine(issue, owner, repo, currentUser, ext)];
    if issue.state == CLOSED && !renderClosed then title + [TAB + FileMarker.Encode(FileMarker.Omitted, ext)]
    else
      var withBody := title + IssueBody(issue, subs, currentUser, ext);
      WithSubIssues(WithComments(withBody, comments, issue.number, owner, repo, currentUser, ext), subs, owner, repo, ext, localBody)
  }

  // ---------------------------------------------------------------------
  // The formatter, pushing line by line

  /** Push each line behind `prefix`. */
  method PushLines(content: seq<string>, lines: seq<string>, prefix: string) returns (r: seq<string>)
    ensures r == content + Indented(lines, prefix)
  {
    r := content;
    for i := 0 to |lines|
      invariant r == content + Indented(lines[..i], prefix)
    {
      r := r + [prefix + lines[i]];
      assert Indented(lines[..i + 1], prefix) == Indented(lines[..i], prefix) + [prefix + lines[i]];
    }
    assert lines[..|lines|] == lines;
  }

  /** The body loop with its `skip_until_non_indented` flag. */
  method PushBody(content: seq<string>, lines: seq<string>, isSub: string -> bool, prefix: string) returns (r: seq<string>)
    ensures r == content + Indented(FilterBody(lines, isSub).kept, prefix)
  {
    r := content;
    var skipping := false;
    for i := 0 to |lines|
      invariant FilterBody(lines[..i], isSub).skipping == skipping
      invariant r == content + Indented(FilterBody(lines[..i], isSub).kept, prefix)
    {
      var line := lines[i];
      var matches := isSub(line);
      ghost var before := FilterBody(lines[..i], isSub);
      assert lines[..i + 1][..i] == lines[..i];
      assert FilterBody(lines[..i + 1], isSub) == Step(before, line, matches);
      if matches {
        skipping := true;
        continue;
      }
      if skipping {
        if IsContinuation(line) {
          continue;
        }
        skipping := false;
      }
      assert Indented(before.kept + [line], prefix) == Indented(before.kept, prefix) + [prefix + line];
      r := r + [prefix + line];
    }
    assert lines[..|lines|] == lines;
  }

  method PushComment(content: seq<string>, c: Github.GithubComment, number: nat, owner: string, repo: string,
                     currentUser: string, ext: Extension) returns (r: seq<string>)
    ensures r == content + CommentBlock(content, c, number, owner, repo, currentUser, ext)
  {
    var owned := c.login == currentUser;
    r := PushSpacer(content, ext);
    var marker := FileMarker.Comment(CommentUrl(owner, repo, number, c.id), c.id, !owned);
    r := r + [TAB + FileMarker.Encode(marker, ext)];
    r := PushLines(r, BodyLines(c.body, ext), Indent(owned));
    Assoc(content, Spacer(content, ext), [TAB + FileMarker.Encode(marker, ext)], Indented(BodyLines(c.body, ext), Indent(owned)));
  }

  method PushSubIssue(content: seq<string>, sub: Github.GithubIssue, owner: string, repo: string, ext: Extension,
                      localBody: nat -> Option<string>) returns (r: seq<string>)
    ensures r == content + SubIssueBlock(content, sub, owner, repo, ext, localBody)
  {
    r := PushSpacer(content, ext);
    r := r + [SubIssueLine(sub, owner, repo, ext)];
    ghost var head := r;
    if sub.state == CLOSED {
      r := r + [DOUBLE_TAB + FileMarker.Encode(FileMarker.Omitted, ext)];
    } else {
      var body := if localBody(sub.number).Some? then localBody(sub.number) else sub.body;
      assert body == EmbeddedBody(sub, localBody);
      r := PushLines(r, BodyLines(body, ext), DOUBLE_TAB);
    }
    assert r == head + SubIssueContent(sub, ext, localBody);
    Assoc(content, Spacer(content, ext), [SubIssueLine(sub, owner, repo, ext)], SubIssueContent(sub, ext, localBody));
  }

  lemma Assoc(a: seq<string>, b: seq<string>, c: seq<string>, d: seq<string>)
    ensures a + b + c + d == a + (b + c + d)
  {
  }

  /** The spacer line of a markdown file when the last line so far has text. */
  method PushSpacer(content: seq<string>, ext: Extension) returns (r: seq<string>)
    ensures r == content + Spacer(content, ext)
  {
    r := content;
    if ext == Md && |r| > 0 && !AllWhitespace(r[|r| - 1]) {
      r := r + [TAB];
    }
  }

  /** `format_issue`, with the local sub-issue bodies as `localBody`. */
  method FormatIssue(issue: Github.GithubIssue, comments: seq<Github.GithubComment>, subs: seq<Github.GithubIssue>,
                     owner: string, repo: string, currentUser: string, renderClosed: bool, ext: Extension,
                     localBody: nat -> Option<string>) returns (content: seq<string>)
    ensures content == Format(issue, comments, subs, owner, repo, currentUser, renderClosed, ext, localBody)
  {
    var owned := issue.login == currentUser;
    content := [TitleLine(issue, owner, repo, currentUser, ext)];
    if issue.state == CLOSED && !renderClosed {
      content := content + [TAB + FileMarker.Encode(FileMarker.Omitted, ext)];
      return;
    }
    content := PushBody(content, BodyLines(issue.body, ext), SubIssueItem(subs), Indent(owned));
    content := PushComments(content, comments, issue.number, owner, repo, currentUser, ext);
    content := PushSubIssues(content, subs, owner, repo, ext, localBody);
  }

  /** The comment loop. */
  method PushComments(content: seq<string>, comments: seq<Github.GithubComment>, number: nat, owner: string, repo: string,
                      currentUser: string, ext: Extension) returns (r: seq<string>)
    ensures r == WithComments(content, comments, number, owner, repo, currentUser, ext)
  {
    r := content;
    for i := 0 to |comments|
      invariant r == WithComments(content, comments[..i], number, owner, repo, currentUser, ext)
    {
      WithCommentsSnoc(content, comments, i, number, owner, repo, currentUser, ext);
      r := PushComment(r, comments[i], number, owner, repo, currentUser, ext);
    }
    assert comments[..|comments|] == comments;
  }

  /** One more comment: its block after what the earlier ones gave. */
  lemma WithCommentsSnoc(start: seq<string>, cs: seq<Github.GithubComment>, i: nat, number: nat, owner: string, repo: string,
                         currentUser: string, ext: Extension)
    requires i < |cs|
    ensures var prev := WithComments(start, cs[..i], number, owner, repo, currentUser, ext);
      WithComments(start, cs[..i + 1], number, owner, repo, currentUser, ext)
        == prev + CommentBlock(prev, cs[i], number, owner, repo, currentUser, ext)
  {
    assert cs[..i + 1][..i] == cs[..i];
  }

  /** The sub-issue loop. */
  method PushSubIssues(content: seq<string>, subs: seq<Github.GithubIssue>, owner: string, repo: string, ext: Extension,
                       localBody: nat -> Option<string>) returns (r: seq<string>)
    ensures r == WithSubIssues(content, subs, owner, repo, ext, localBody)
  {
    r := content;
    for i := 0 to |subs|
      invariant r == WithSubIssues(content, subs[..i], owner, repo, ext, localBody)
    {
      assert subs[..i + 1][..i] == subs[..i];
      r := PushSubIssue(r, subs[i], owner, repo, ext, localBody);
    }
    assert subs[..|subs|] == subs;
  }

  // ---------------------------------------------------------------------
  // What the file promises

  /** A closed issue rendered without `render_closed` is its title line and the omitted marker, whatever it holds. */
  lemma ClosedIsCollapsed(issue: Github.GithubIssue, comments: seq<Github.GithubComment>, subs: seq<Github.GithubIssue>,
                          owner: string, repo: string, currentUser: string, ext: Extension, localBody: nat -> Option<string>)
    requires issue.state == CLOSED
    ensures Format(issue, comments, subs, owner, repo, currentUser, false, ext, localBody) ==
            Format(issue.(body := None), [], [], owner, repo, currentUser, false, ext, localBody)
    ensures |Format(issue, comments, subs, owner, repo, currentUser, false, ext, localBody)| == 2
  {
  }

  /** Title and body come first, the comments next and the sub-issues last. */
  lemma SectionsInOrder(issue: Github.GithubIssue, comments: seq<Github.GithubComment>, subs: seq<Github.GithubIssue>,
                        owner: string, repo: string, currentUser: string, renderClosed: bool, ext: Extension,
                        localBody: nat -> Option<string>)
    requires !(issue.state == CLOSED && !renderClosed)
    ensures var head := [TitleLine(issue, owner, repo, currentUser, ext)] + IssueBody(issue, subs, currentUser, ext);
            var withComments := WithComments(head, comments, issue.number, owner, repo, currentUser, ext);
            head <= withComments <= Format(issue, comments, subs, owner, repo, currentUser, renderClosed, ext, localBody)
  {
  }

  /** Each comment adds its marker line and its body lines after any spacer: one block per comment. */
  lemma {:induction false} CommentLinesCount(start: seq<string>, cs: seq<Github.GithubComment>, number: nat, owner: string,
                                             repo: string, currentUser: string)
    ensures |WithComments(start, cs, number, owner, repo, currentUser, Typ)| ==
            |start| + CommentLineTotal(cs)
  {
    if cs != [] {
      CommentLinesCount(start, cs[..|cs| - 1], number, owner, repo, currentUser);
      assert CommentLineTotal(cs) == CommentLineTotal(cs[..|cs| - 1]) + 1 + |BodyLines(cs[|cs| - 1].body, Typ)|;
    }
  }

  /** In a typst file: one marker line and the body lines per comment. */
  function CommentLineTotal(cs: seq<Github.GithubComment>): nat {
    if cs == [] then 0 else CommentLineTotal(cs[..|cs| - 1]) + 1 + |BodyLines(cs[|cs| - 1].body, Typ)|
  }

  /** When no line is a sub-issue's checkbox line nothing is skipped: every body line is kept. */
  lemma {:induction false} NoSubIssuesKeepsBody(lines: seq<string>, isSub: string -> bool)
    requires forall k :: 0 <= k < |lines| ==> !isSub(lines[k])
    ensures FilterBody(lines, isSub).kept == lines
    ensures !FilterBody(lines, isSub).skipping
  {
    if lines != [] {
      var init, x := lines[..|lines| - 1], lines[|lines| - 1];
      assert forall k :: 0 <= k < |init| ==> init[k] == lines[k];
      NoSubIssuesKeepsBody(init, isSub);
      assert !isSub(x);
      SnocSplit(lines);
    }
  }

  /** Without sub-issues no line is one of theirs. */
  lemma NoSubIssuesNoItem(line: string)
    ensures !SubIssueItem([])(line)
  {
  }

  /** A line that is neither a sub-issue's checkbox nor a continuation is always kept, and ends any skip. */
  lemma PlainLineKept(lines: seq<string>, line: string, isSub: string -> bool)
    requires !isSub(line) && !IsContinuation(line)
    ensures FilterBody(lines + [line], isSub) == BodyState(FilterBody(lines, isSub).kept + [line], false)
  {
    FrontOfSnoc(lines, line);
  }

  /** A sub-issue's checkbox line and the indented or empty lines under it are all dropped. */
  lemma {:induction false} SubIssueItemDropped(before: seq<string>, box: string, cont: seq<string>, isSub: string -> bool)
    requires isSub(box)
    requires forall k :: 0 <= k < |cont| ==> IsContinuation(cont[k]) || isSub(cont[k])
    ensures FilterBody(before + [box] + cont, isSub) == BodyState(FilterBody(before, isSub).kept, true)
  {
    if cont == [] {
      FrontOfSnoc(before, box);
      assert before + [box] + cont == before + [box];
    } else {
      var init := cont[..|cont| - 1];
      SubIssueItemDropped(before, box, init, isSub);
      var all := before + [box] + cont;
      assert all[..|all| - 1] == before + [box] + init;
    }
  }

  /** In markdown, the line before every comment marker is blank: a spacer is added after a line with text. */
  lemma CommentMarkerAfterBlank(prev: seq<string>, c: Github.GithubComment, number: nat, owner: string, repo: string,
                                currentUser: string)
    requires |prev| >= 1
    ensures var out := prev + CommentBlock(prev, c, number, owner, repo, currentUser, Md);
            var m := |prev| + |Spacer(prev, Md)|;
            m < |out| && AllWhitespace(out[m - 1]) &&
            out[m] == TAB + FileMarker.Encode(FileMarker.Comment(CommentUrl(owner, repo, number, c.id), c.id, c.login != currentUser), Md)
  {
    SpacerLeavesBlank(prev);
  }

  /** In markdown, the line before every sub-issue line is blank. */
  lemma SubIssueAfterBlank(prev: seq<string>, sub: Github.GithubIssue, owner: string, repo: string, localBody: nat -> Option<string>)
    requires |prev| >= 1
    ensures var out := prev + SubIssueBlock(prev, sub, owner, repo, Md, localBody);
            var m := |prev| + |Spacer(prev, Md)|;
            m < |out| && AllWhitespace(out[m - 1]) && out[m] == SubIssueLine(sub, owner, repo, Md)
  {
    SpacerLeavesBlank(prev);
  }

  /** After the spacer rule the last line is blank. */
  lemma SpacerLeavesBlank(prev: seq<string>)
    requires |prev| >= 1
    ensures var p := prev + Spacer(prev, Md); AllWhitespace(p[|p| - 1])
  {
    assert IsWhitespace(TAB[0]);
  }

  /** Typst files get no spacer lines. */
  lemma NoSpacerInTypst(prev: seq<string>)
    ensures Spacer(prev, Typ) == []
  {
  }

  /** A closed sub-issue shows only the omitted marker; an open one never does and takes the local body over GitHub's. */
  lemma SubIssueBodies(sub: Github.GithubIssue, ext: Extension, localBody: nat -> Option<string>)
    ensures sub.state == CLOSED ==> SubIssueContent(sub, ext, localBody) == [DOUBLE_TAB + FileMarker.Encode(FileMarker.Omitted, ext)]
    ensures sub.state != CLOSED && localBody(sub.number).Some? ==>
            SubIssueContent(sub, ext, localBody) == Indented(BodyLines(localBody(sub.number), ext), DOUBLE_TAB)
    ensures sub.state != CLOSED && localBody(sub.number).None? ==>
            SubIssueContent(sub, ext, localBody) == Indented(BodyLines(sub.body, ext), DOUBLE_TAB)
  {
  }

  /** The box of the title line is checked exactly when the issue is closed. */
  lemma TitleCheckedIffClosed(issue: Github.GithubIssue, owner: string, repo: string, currentUser: string, ext: Extension)
    ensures StartsWith(TitleLine(issue, owner, repo, currentUser, ext), OpenUtil.CHECKED) <==> issue.state == CLOSED
  {
    var box := BOX_OPEN + Box(issue.state == CLOSED) + BOX_CLOSE;
    var marker := FileMarker.IssueUrl(Github.IssueUrl(owner, repo, issue.number), issue.login != currentUser);
    var l, t, e := LabelsPart(issue.labels), issue.title, FileMarker.Encode(marker, ext);
    AppendAssoc3(box, l, t, " " + e);
    AppendAssoc3(box + l, t, " ", e);
    AppendAssoc(box, l, t + (" " + e));
    BoxPrefix(box, l + (t + (" " + e)), issue.state == CLOSED);
  }

  /** The box and the bracket after it are the checked or the unchecked checkbox prefix. */
  lemma BoxIs(closed: bool)
    ensures BOX_OPEN + Box(closed) + BOX_CLOSE == if closed then OpenUtil.CHECKED else OpenUtil.UNCHECKED
  {
  }

  lemma BoxPrefix(box: string, rest: string, closed: bool)
    requires box == BOX_OPEN + Box(closed) + BOX_CLOSE
    ensures StartsWith(box + rest, OpenUtil.CHECKED) <==> closed
  {
    BoxIs(closed);
    if closed {
      PrefixGrows(box, box, rest);
    } else {
      assert (box + rest)[3] == ' ';
      DiffersAt(box + rest, OpenUtil.CHECKED, 3);
    }
  }

  /** No label and no separator holds the character, so neither does the label list. */
  lemma {:induction false} JoinFree(parts: seq<string>, sep: string, c: char)
    requires c !in sep
    requires forall k :: 0 <= k < |parts| ==> c !in parts[k]
    ensures c !in Join(parts, sep)
  {
    if |parts| > 1 {
      JoinFree(parts[1..], sep, c);
    }
  }

  /**
   * The markdown title line is read back as a checkbox whose title is the
   * labels part and the title: the `<!--` of the marker ends it.
   */
  lemma TitleReadBack(issue: Github.GithubIssue, owner: string, repo: string, currentUser: string)
    requires issue.title != [] && IsTrimmed(issue.title) && '<' !in issue.title
    requires forall k :: 0 <= k < |issue.labels| ==> '<' !in issue.labels[k]
    ensures OpenUtil.ExtractCheckboxTitle(TitleLine(issue, owner, repo, currentUser, Md)) ==
            Some(LabelsPart(issue.labels) + issue.title)
  {
    var inner := TitleAsCheckbox(issue, owner, repo, currentUser);
    LabelledClean(issue.labels, issue.title);
    ReadBackLine([], issue.state == CLOSED, LabelsPart(issue.labels) + issue.title, inner, TitleLine(issue, owner, repo, currentUser, Md));
  }

  /** The markdown title line is a checkbox line with the labelled title and a marker comment. */
  lemma TitleAsCheckbox(issue: Github.GithubIssue, owner: string, repo: string, currentUser: string) returns (inner: string)
    ensures TitleLine(issue, owner, repo, currentUser, Md) ==
            [] + OpenUtil.CheckboxLine(issue.state == CLOSED, LabelsPart(issue.labels) + issue.title, " " + MarkerText.Wrap(inner))
  {
    var closed := issue.state == CLOSED;
    var url := Github.IssueUrl(owner, repo, issue.number);
    var imm := issue.login != currentUser;
    inner := if imm then "immutable " + url + " " else " " + url + " ";
    assert FileMarker.Encode(FileMarker.IssueUrl(url, imm), Md) == MarkerText.Wrap(inner);
    BoxIs(closed);
    CheckboxRegroup(BOX_OPEN + Box(closed) + BOX_CLOSE, LabelsPart(issue.labels), issue.title, MarkerText.Wrap(inner));
  }

  /** The pieces of a title line regrouped as a checkbox line. */
  lemma CheckboxRegroup(box: string, l: string, t: string, e: string)
    ensures box + l + t + " " + e == [] + (box + (l + t) + (" " + e))
  {
    AppendAssoc(box, l, t);
    AppendAssoc(box + l + t, " ", e);
    assert [] + (box + (l + t) + (" " + e)) == box + (l + t) + (" " + e);
  }

  /** Labels and title free of `<`, and a trimmed title, give a trimmed labelled title free of `<`. */
  lemma LabelledClean(labels: seq<string>, title: string)
    requires title != [] && IsTrimmed(title) && '<' !in title
    requires forall k :: 0 <= k < |labels| ==> '<' !in labels[k]
    ensures var l := LabelsPart(labels) + title; l != [] && IsTrimmed(l) && '<' !in l
  {
    var l := LabelsPart(labels) + title;
    JoinFree(labels, LABEL_SEP, '<');
    assert l[|l| - 1] == title[|title| - 1];
  }

  /** A checkbox line with a title free of `<` followed by a marker comment reads back that title. */
  lemma ReadBackLine(indent: string, closed: bool, title: string, inner: string, line: string)
    requires AllWhitespace(indent) && title != [] && IsTrimmed(title) && '<' !in title
    requires line == indent + OpenUtil.CheckboxLine(closed, title, " " + MarkerText.Wrap(inner))
    ensures OpenUtil.ExtractCheckboxTitle(line) == Some(title)
  {
    OpenUtil.ExtractCheckboxLine(indent, closed, title, inner, []);
  }

  /**
   * A markdown sub-issue line is read back as a checkbox with the
   * sub-issue's title, so in a parent's body the same line is one the
   * body filter drops.
   */
  lemma SubIssueLineReadBack(sub: Github.GithubIssue, owner: string, repo: string, subs: seq<Github.GithubIssue>)
    requires sub.title != [] && IsTrimmed(sub.title) && '<' !in sub.title
    ensures OpenUtil.ExtractCheckboxTitle(SubIssueLine(sub, owner, repo, Md)) == Some(sub.title)
    ensures sub in subs ==> SubIssueItem(subs)(SubIssueLine(sub, owner, repo, Md))
  {
    var inner := SubIssueAsCheckbox(sub, owner, repo);
    ReadBackLine(TAB, sub.state == CLOSED, sub.title, inner, SubIssueLine(sub, owner, repo, Md));
    if sub in subs {
      var i :| 0 <= i < |subs| && subs[i] == sub;
      assert Titles(subs)[i] == sub.title;
    }
  }

  /** The markdown sub-issue line is a tab-indented checkbox line with the title and a `sub` marker. */
  lemma SubIssueAsCheckbox(sub: Github.GithubIssue, owner: string, repo: string) returns (inner: string)
    ensures AllWhitespace(TAB)
    ensures SubIssueLine(sub, owner, repo, Md) == TAB + OpenUtil.CheckboxLine(sub.state == CLOSED, sub.title, " " + MarkerText.Wrap(inner))
  {
    var closed := sub.state == CLOSED;
    var url := Github.IssueUrl(owner, repo, sub.number);
    inner := "sub " + url + " ";
    SubMarkerWrapped(url);
    SubLineRegroup(closed, sub.title, MarkerText.Wrap(inner));
    TabBlank();
  }

  /** The markdown `sub` marker is an HTML comment around `sub`, the URL and a space. */
  lemma SubMarkerWrapped(url: string)
    ensures FileMarker.Encode(FileMarker.SubIssue(url), Md) == MarkerText.Wrap("sub " + url + " ")
  {
  }

  /** The pieces of a sub-issue line regrouped as a tab and a checkbox line. */
  lemma SubLineRegroup(closed: bool, t: string, e: string)
    ensures TAB + BOX_OPEN + Box(closed) + BOX_CLOSE + t + " " + e == TAB + OpenUtil.CheckboxLine(closed, t, " " + e)
  {
    var box := BOX_OPEN + Box(closed) + BOX_CLOSE;
    BoxIs(closed);
    AppendAssoc3(TAB, BOX_OPEN, Box(closed), BOX_CLOSE);
    AppendAssoc3(TAB, box, t, " ");
    AppendAssoc(TAB + box + t, " ", e);
    AppendAssoc3(TAB, box, t, " " + e);
  }

  lemma TabBlank()
    ensures AllWhitespace(TAB)
  {
    assert IsWhitespace(TAB[0]);
  }
}
