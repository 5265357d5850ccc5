/**
 * `Issue::serialize` and `Issue::serialize_at_depth` of src/open/issue.rs:
 * the issue file text. The output is kept as the list of lines pushed, each
 * of which the source ends with a line break; `Text` joins them, and
 * `TextLines` shows that reading that text back line by line gives the list,
 * so "the last line of the output so far" is the last line pushed.
 */
module OpenIssueSerialize {
  import opened Wrappers
  import opened Strings
  import opened OpenIssue
  import IssueTypes
  import IssueBlocker

  /** `"\t".repeat(n)`. */
  function Indent(n: nat): (r: string)
    ensures |r| == n && forall k :: 0 <= k < n ==> r[k] == '\t'
  {
    Repeat('\t', n)
  }

  const TAB: string := "\t"
  const OMITTED_LINE: string := "<!-- omitted -->"
  const NEW_COMMENT_LINE: string := "<!-- new comment -->"
  const OWNED_COMMENT_OPEN: string := "<!-- "
  const IMMUTABLE_COMMENT_OPEN: string := "<!--immutable "
  const ISSUECOMMENT: string := "#issuecomment-"
  const MARKER_TAIL: string := " -->"
  const BLOCKERS_LINE: string := "# Blockers"

  /** Each line with `prefix` in front. */
  function Indented(prefix: string, ls: seq<string>): (r: seq<string>)
    ensures |r| == |ls|
    ensures forall k :: 0 <= k < |ls| ==> r[k] == prefix + ls[k]
  {
    if ls == [] then [] else Indented(prefix, ls[..|ls| - 1]) + [prefix + ls[|ls| - 1]]
  }

  /** The lines of a comment body, each indented; nothing for an empty body. */
  function BodyLines(prefix: string, body: string): seq<string> {
    if body == [] then [] else Indented(prefix, Lines(body))
  }

  /** A comment the user does not own is indented one tab further. */
  function CommentIndent(contentIndent: string, owned: bool): string {
    if owned then contentIndent else contentIndent + TAB
  }

  /** `out.lines().last().is_some_and(|l| !l.trim().is_empty())`. */
  predicate LastHasContent(out: seq<string>) {
    out != [] && Trim(out[|out| - 1]) != []
  }

  /** The indented empty line written before a block when the line before it has content. */
  function Gap(out: seq<string>, contentIndent: string): seq<string> {
    if LastHasContent(out) then out + [contentIndent] else out
  }

  /** The marker line of a comment after the body. */
  function MarkerLine(c: Comment, url: string): string {
    match c.id
      case Some(id) =>
        (if c.owned then OWNED_COMMENT_OPEN else IMMUTABLE_COMMENT_OPEN) + url + ISSUECOMMENT + NatToString(id) + MARKER_TAIL
      case None => NEW_COMMENT_LINE
  }

  /** The issue's URL text, empty for a new issue. */
  function UrlText(issue: Issue): string {
    if issue.meta.url.Some? then issue.meta.url.value else []
  }

  /** The title line and the body. */
  function Head(issue: Issue, depth: nat): seq<string> {
    [Indent(depth) + TitleLine(issue.meta, issue.labels)]
      + (if issue.comments == [] then []
         else BodyLines(CommentIndent(Indent(depth + 1), issue.comments[0].owned), issue.comments[0].body))
  }

  /** One later comment: a gap, its marker line and its body. */
  function CommentBlock(out: seq<string>, c: Comment, url: string, ci: string): seq<string> {
    Gap(out, ci) + [ci + MarkerLine(c, url)] + BodyLines(CommentIndent(ci, c.owned), c.body)
  }

  function WithComments(out: seq<string>, cs: seq<Comment>, url: string, ci: string): seq<string> {
    if cs == [] then out else CommentBlock(WithComments(out, cs[..|cs| - 1], url, ci), cs[|cs| - 1], url, ci)
  }

  /** The blockers section, when there is one. */
  function WithBlockers(out: seq<string>, b: IssueBlocker.BlockerSequence, ci: string): seq<string> {
    if IssueBlocker.IsEmpty(b) then out
    else Gap(out, ci) + [ci + BLOCKERS_LINE] + Indented(ci, IssueBlocker.RawLines(IssueBlocker.TreeLines(b)))
  }

  /** One sub-issue: a gap, its line, then `<!-- omitted -->` if it is closed, else its body. */
  function ChildBlock(out: seq<string>, child: Issue, depth: nat): seq<string> {
    var ci := Indent(depth + 1);
    var cci := Indent(depth + 2);
    Gap(out, ci) + [ci + ChildTitleLine(child.meta)]
      + (if IssueTypes.IsClosed(child.meta.closeState) then [cci + OMITTED_LINE]
         else if child.comments == [] then []
         else BodyLines(cci, child.comments[0].body))
  }

  function WithChildren(out: seq<string>, cs: seq<Issue>, depth: nat): seq<string> {
    if cs == [] then out else ChildBlock(WithChildren(out, cs[..|cs| - 1], depth), cs[|cs| - 1], depth)
  }

  /** The lines `serialize_at_depth` writes. */
  function SerializeLines(issue: Issue, depth: nat): seq<string> {
    var ci := Indent(depth + 1);
    WithChildren(WithBlockers(WithComments(Head(issue, depth), Later(issue), UrlText(issue), ci), issue.blockers, ci),
                 issue.children, depth)
  }

  /** The text of a list of lines, each ended by a line break. */
  function Text(ls: seq<string>): string {
    if ls == [] then [] else Join(ls, NEWLINE) + NEWLINE
  }

  // ---------------------------------------------------------------------
  // The serialiser

  /** Pushes each line of `ls` behind `prefix`. */
  method PushLines(out: seq<string>, prefix: string, ls: seq<string>) returns (r: seq<string>)
    ensures r == out + Indented(prefix, ls)
  {
    r := out;
    for j := 0 to |ls|
      invariant r == out + Indented(prefix, ls[..j])
    {
      assert ls[..j + 1][..j] == ls[..j];
      r := r + [prefix + ls[j]];
    }
    assert ls[..|ls|] == ls;
  }

  /** The comments loop: every comment after the body, in order. */
  method PushComments(out: seq<string>, cs: seq<Comment>, url: string, ci: string) returns (r: seq<string>)
    ensures r == WithComments(out, cs, url, ci)
  {
    r := out;
    for i := 0 to |cs|
      invariant r == WithComments(out, cs[..i], url, ci)
    {
      var c := cs[i];
      assert cs[..i + 1][..i] == cs[..i];
      if LastHasContent(r) {
        r := r + [ci];
      }
      r := r + [ci + MarkerLine(c, url)];
      if c.body != [] {
        r := PushLines(r, CommentIndent(ci, c.owned), Lines(c.body));
      }
    }
    assert cs[..|cs|] == cs;
  }

  /** The sub-issues loop. */
  method PushChildren(out: seq<string>, cs: seq<Issue>, depth: nat) returns (r: seq<string>)
    ensures r == WithChildren(out, cs, depth)
  {
    var ci := Indent(depth + 1);
    var cci := Indent(depth + 2);
    r := out;
    for k := 0 to |cs|
      invariant r == WithChildren(out, cs[..k], depth)
    {
      var child := cs[k];
      assert cs[..k + 1][..k] == cs[..k];
      if LastHasContent(r) {
        r := r + [ci];
      }
      r := r + [ci + ChildTitleLine(child.meta)];
      if IssueTypes.IsClosed(child.meta.closeState) {
        r := r + [cci + OMITTED_LINE];
      } else if child.comments != [] && child.comments[0].body != [] {
        r := PushLines(r, cci, Lines(child.comments[0].body));
      }
    }
    assert cs[..|cs|] == cs;
  }

  /** `Issue::serialize_at_depth`, line by line. */
  method SerializeAtDepth(issue: Issue, depth: nat) returns (out: seq<string>)
    ensures out == SerializeLines(issue, depth)
  {
    var ci := Indent(depth + 1);
    out := [Indent(depth) + TitleLine(issue.meta, issue.labels)];
    if issue.comments != [] {
      var bc := issue.comments[0];
      if bc.body != [] {
        out := PushLines(out, CommentIndent(ci, bc.owned), Lines(bc.body));
      }
    }
    assert out == Head(issue, depth);
    out := PushComments(out, Later(issue), UrlText(issue), ci);
    if !IssueBlocker.IsEmpty(issue.blockers) {
      if LastHasContent(out) {
        out := out + [ci];
      }
      out := out + [ci + BLOCKERS_LINE];
      out := PushLines(out, ci, IssueBlocker.RawLines(IssueBlocker.TreeLines(issue.blockers)));
    }
    out := PushChildren(out, issue.children, depth);
  }

  /** `Issue::serialize`: the text at depth 0. */
  method Serialize(issue: Issue) returns (s: string)
    ensures s == Text(SerializeLines(issue, 0))
    ensures StartsWith(s, TitleLine(issue.meta, issue.labels))
  {
    var out := SerializeAtDepth(issue, 0);
    s := Join(out, NEWLINE) + NEWLINE;
    TitleFirst(issue, 0);
    JoinStartsWithFirst(out);
    assert Indent(0) + TitleLine(issue.meta, issue.labels) == TitleLine(issue.meta, issue.labels);
  }

  lemma JoinStartsWithFirst(ls: seq<string>)
    requires ls != []
    ensures StartsWith(Join(ls, NEWLINE) + NEWLINE, ls[0])
  {
    if |ls| > 1 {
      assert Join(ls, NEWLINE) + NEWLINE == ls[0] + (NEWLINE + Join(ls[1..], NEWLINE) + NEWLINE);
    }
  }

  // ---------------------------------------------------------------------
  // What the text promises

  /** Every fold only appends. */
  lemma {:induction false} CommentsExtend(out: seq<string>, cs: seq<Comment>, url: string, ci: string)
    ensures out <= WithComments(out, cs, url, ci)
  {
    if cs != [] {
      CommentsExtend(out, cs[..|cs| - 1], url, ci);
    }
  }

  lemma {:induction false} ChildrenExtend(out: seq<string>, cs: seq<Issue>, depth: nat)
    ensures out <= WithChildren(out, cs, depth)
  {
    if cs != [] {
      ChildrenExtend(out, cs[..|cs| - 1], depth);
    }
  }

  /** Appending a blocker list keeps what was already written. */
  lemma BlockersExtend(out: seq<string>, b: IssueBlocker.BlockerSequence, ci: string)
    ensures out <= WithBlockers(out, b, ci)
  {
  }

  /** The first line is the issue's title line at its own indentation. */
  lemma TitleFirst(issue: Issue, depth: nat)
    ensures SerializeLines(issue, depth) != []
    ensures SerializeLines(issue, depth)[0] == Indent(depth) + TitleLine(issue.meta, issue.labels)
  {
    var ci := Indent(depth + 1);
    var h := Head(issue, depth);
    assert h[0] == Indent(depth) + TitleLine(issue.meta, issue.labels);
    var a := WithComments(h, Later(issue), UrlText(issue), ci);
    assert h <= a by { CommentsExtend(h, Later(issue), UrlText(issue), ci); }
    var b := WithBlockers(a, issue.blockers, ci);
    assert a <= b by { BlockersExtend(a, issue.blockers, ci); }
    var r := WithChildren(b, issue.children, depth);
    assert b <= r by { ChildrenExtend(b, issue.children, depth); }
    assert r == SerializeLines(issue, depth);
    assert r[0] == h[0];
  }

  /** Every line after the first is indented by `prefix`. */
  predicate Below(ls: seq<string>, prefix: string) {
    forall k :: 1 <= k < |ls| ==> StartsWith(ls[k], prefix)
  }

  lemma IndentedBelow(out: seq<string>, p: string, q: string, ls: seq<string>)
    requires out != [] && Below(out, p) && StartsWith(q, p)
    ensures Below(out + Indented(q, ls), p)
  {
    var r := out + Indented(q, ls);
    forall k | 1 <= k < |r| ensures StartsWith(r[k], p) {
      if k >= |out| {
        assert r[k] == q + ls[k - |out|];
        assert (q + ls[k - |out|])[..|p|] == q[..|p|];
      }
    }
  }

  lemma PushBelow(out: seq<string>, p: string, q: string, x: string)
    requires out != [] && Below(out, p) && StartsWith(q, p)
    ensures Below(out + [q + x], p)
  {
    assert (q + x)[..|p|] == q[..|p|];
  }

  lemma GapBelow(out: seq<string>, ci: string)
    requires out != [] && Below(out, ci)
    ensures Gap(out, ci) != [] && Below(Gap(out, ci), ci)
  {
    PushBelow(out, ci, ci, []);
    assert ci + [] == ci;
  }

  lemma BodyBelow(out: seq<string>, p: string, q: string, body: string)
    requires out != [] && Below(out, p) && StartsWith(q, p)
    ensures Below(out + BodyLines(q, body), p)
  {
    if body != [] {
      IndentedBelow(out, p, q, Lines(body));
    }
  }

  lemma TabIndent(ci: string)
    ensures StartsWith(ci, ci) && StartsWith(ci + TAB, ci)
  {
    assert (ci + TAB)[..|ci|] == ci;
  }

  lemma {:induction false} CommentsBelow(out: seq<string>, cs: seq<Comment>, url: string, ci: string)
    requires out != [] && Below(out, ci)
    ensures WithComments(out, cs, url, ci) != [] && Below(WithComments(out, cs, url, ci), ci)
  {
    if cs != [] {
      CommentsBelow(out, cs[..|cs| - 1], url, ci);
      var o := WithComments(out, cs[..|cs| - 1], url, ci);
      var c := cs[|cs| - 1];
      GapBelow(o, ci);
      TabIndent(ci);
      PushBelow(Gap(o, ci), ci, ci, MarkerLine(c, url));
      BodyBelow(Gap(o, ci) + [ci + MarkerLine(c, url)], ci, CommentIndent(ci, c.owned), c.body);
    }
  }

  lemma DeeperIndent(depth: nat)
    ensures StartsWith(Indent(depth + 2), Indent(depth + 1))
  {
    assert Indent(depth + 2)[..depth + 1] == Indent(depth + 1);
  }

  lemma {:induction false} ChildrenBelow(out: seq<string>, cs: seq<Issue>, depth: nat)
    requires out != [] && Below(out, Indent(depth + 1))
    ensures WithChildren(out, cs, depth) != [] && Below(WithChildren(out, cs, depth), Indent(depth + 1))
  {
    if cs != [] {
      var ci := Indent(depth + 1);
      var cci := Indent(depth + 2);
      ChildrenBelow(out, cs[..|cs| - 1], depth);
      var o := WithChildren(out, cs[..|cs| - 1], depth);
      var child := cs[|cs| - 1];
      GapBelow(o, ci);
      TabIndent(ci);
      var t := Gap(o, ci) + [ci + ChildTitleLine(child.meta)];
      PushBelow(Gap(o, ci), ci, ci, ChildTitleLine(child.meta));
      DeeperIndent(depth);
      if IssueTypes.IsClosed(child.meta.closeState) {
        PushBelow(t, ci, cci, OMITTED_LINE);
      } else if child.comments != [] {
        BodyBelow(t, ci, cci, child.comments[0].body);
      }
    }
  }

  /**
   * Everything after the title line is indented one level deeper than the
   * title: the whole text belongs to the issue when it is read back.
   */
  lemma ContentIndented(issue: Issue, depth: nat)
    ensures Below(SerializeLines(issue, depth), Indent(depth + 1))
  {
    var ci := Indent(depth + 1);
    var h := Head(issue, depth);
    TabIndent(ci);
    assert Below([h[0]], ci);
    if issue.comments != [] {
      BodyBelow([h[0]], ci, CommentIndent(ci, issue.comments[0].owned), issue.comments[0].body);
    }
    assert Below(h, ci);
    CommentsBelow(h, Later(issue), UrlText(issue), ci);
    var a := WithComments(h, Later(issue), UrlText(issue), ci);
    if !IssueBlocker.IsEmpty(issue.blockers) {
      GapBelow(a, ci);
      PushBelow(Gap(a, ci), ci, ci, BLOCKERS_LINE);
      IndentedBelow(Gap(a, ci) + [ci + BLOCKERS_LINE], ci, ci, IssueBlocker.RawLines(IssueBlocker.TreeLines(issue.blockers)));
    }
    ChildrenBelow(WithBlockers(a, issue.blockers, ci), issue.children, depth);
  }

  /** A closed sub-issue is written as its line and the omitted marker, never with its body. */
  lemma ClosedChildOmitted(out: seq<string>, child: Issue, depth: nat)
    requires IssueTypes.IsClosed(child.meta.closeState)
    ensures var r := ChildBlock(out, child, depth);
      |r| >= 2 && r[|r| - 2] == Indent(depth + 1) + ChildTitleLine(child.meta) && r[|r| - 1] == Indent(depth + 2) + OMITTED_LINE
  {
  }

  /**
   * Read back line by line, the text gives the lines pushed, when none of
   * them holds a line break.
   */
  lemma TextLines(ls: seq<string>)
    requires forall k :: 0 <= k < |ls| ==> '\n' !in ls[k]
    ensures Lines(Text(ls)) == ls
  {
    if ls != [] {
      var t := Text(ls);
      assert t == Join(ls + [[]], NEWLINE) by { JoinAppend(ls, [], NEWLINE); }
      var p := ls + [[]];
      assert Split(t, '\n') == p by { SplitJoin(p, '\n'); }
      assert t != [] by { assert |t| >= |NEWLINE|; }
      LinesBeforeBreak(t, p);
      assert p[..|p| - 1] == ls;
    }
  }
}
