/**
 * `Issue::parse` and `Issue::parse_at_depth` of src/open/issue.rs: reading
 * an issue file back. The parser walks the lines once with a handful of
 * flags and buffers (`PState`); `Step` is what it does with one line (and,
 * for a sub-issue line, with the body lines under it), `Run` the whole walk,
 * and `ParseSpec` the result. The methods follow the source's loops and are
 * proved to compute `ParseSpec`.
 */
module OpenIssueParse {
  import opened Wrappers
  import opened Strings
  import opened IssueError
  import opened OpenIssue
  import IssueTypes
  import IssueBlocker
  import OpenUtil
  import Indentation
  import OpenIssueSerialize

  const TAB: string := "\t"
  const NEW_COMMENT: string := "new comment"
  const OMITTED: string := "omitted"
  const ISSUECOMMENT: string := "#issuecomment-"

  function Indent(n: nat): string {
    OpenIssueSerialize.Indent(n)
  }

  /** The metadata of the comment being collected: its id (if any) and who owns it. */
  datatype CommentHead = CommentHead(id: Option<nat>, owned: bool)

  /** The parser's flags and buffers. */
  datatype PState = PState(
    comments: seq<Comment>,
    children: seq<Issue>,
    blockerLines: seq<IssueBlocker.Line>,
    current: seq<string>,
    head: Option<CommentHead>,
    inBody: bool,
    inBlockers: bool,
    body: seq<string>)

  function Init(): PState {
    PState([], [], [], [], None, true, false, [])
  }

  /** The text of collected lines: joined and trimmed. */
  function Collected(ls: seq<string>): string {
    Trim(Join(ls, NEWLINE))
  }

  /** `strip_prefix(p).unwrap_or(line)`. */
  function Unindent(line: string, p: string): string {
    if StartsWith(line, p) then line[|p|..] else line
  }

  /** A line less indented than the issue belongs to its parent. */
  predicate Stops(line: string, depth: nat) {
    line != [] && !StartsWith(line, Indent(depth))
  }

  /** Ends the body or the comment being collected, keeping it as a comment. */
  function Flush(st: PState, owned: bool): (r: PState)
    ensures r.children == st.children
  {
    if st.inBody then
      st.(inBody := false, comments := st.comments + [Comment(None, Collected(st.body), owned)])
    else if st.head.Some? then
      st.(comments := st.comments + [Comment(st.head.value.id, Collected(st.current), st.head.value.owned)],
          head := None, current := [])
    else st
  }

  /** The flush before the blockers marker drops an empty body. */
  function FlushAtBlockers(st: PState, owned: bool): (r: PState)
    ensures r.children == st.children
  {
    if st.inBody && st.body == [] then st.(inBody := false) else Flush(st, owned)
  }

  function EmptyLine(st: PState): (r: PState)
    ensures r.children == st.children
  {
    if st.inBlockers then st
    else if st.head.Some? then st.(current := st.current + [[]])
    else if st.inBody then st.(body := st.body + [[]])
    else st
  }

  /** A plain text line goes to the body or to the comment being collected, one tab less. */
  function Regular(st: PState, content: string): (r: PState)
    ensures r.children == st.children
  {
    var line := Unindent(content, TAB);
    if st.inBody then st.(body := st.body + [line])
    else if st.head.Some? then st.(current := st.current + [line])
    else st
  }

  function Classify(st: PState, content: string): (r: PState)
    ensures r.children == st.children
  {
    match IssueBlocker.ClassifyLine(content)
      case Some(l) => st.(blockerLines := st.blockerLines + [l])
      case None => st
  }

  predicate IsCommentMarker(content: string) {
    StartsWith(content, IssueTypes.MARKER_OPEN) && Contains(content, IssueTypes.MARKER_CLOSE)
  }

  /**
   * What the parser reads a line's text as before acting on it: whether it
   * is the blockers marker, and the sub-issue a checkbox line's title names.
   */
  datatype Reading = Reading(marker: bool, child: Option<Meta>)

  function ReadingOf(content: string): Reading {
    Reading(OpenUtil.IsBlockersMarker(content),
            if StartsWith(content, IssueTypes.BOX_OPEN) then ParseChildTitleLine(content) else None)
  }

  /** `s.split(p).next()`: everything before the first `p`. */
  function FirstPiece(s: string, p: string): (r: string)
    ensures StartsWith(s, r)
  {
    match IndexOf(s, p)
      case Some(k) => s[..k]
      case None => s
  }

  /** `s.split(p).nth(1)`: the text between the first `p` and the next one. */
  function SecondPiece(s: string, p: string): (r: Option<string>)
    ensures r.Some? <==> Contains(s, p)
  {
    match IndexOf(s, p)
      case Some(k) => Some(FirstPiece(s[k + |p|..], p))
      case None => None
  }

  /** A comment marker line: the text between `<!--` and the first `-->` decides the next comment. */
  function CommentMarker(st: PState, content: string): (r: PState)
    requires IsCommentMarker(content)
    ensures r.children == st.children
  {
    var inner := Trim(FirstPiece(content[|IssueTypes.MARKER_OPEN|..], IssueTypes.MARKER_CLOSE));
    if inner == NEW_COMMENT then st.(head := Some(CommentHead(None, true)))
    else if inner == OMITTED then st
    else if Contains(inner, ISSUECOMMENT) then
      var immutable := StripPrefix(inner, IMMUTABLE).Some?;
      var url := if immutable then Trim(StripPrefix(inner, IMMUTABLE).value) else inner;
      var piece := SecondPiece(url, ISSUECOMMENT);
      var id := if piece.Some? then ParseU64(piece.value) else None;
      st.(head := Some(CommentHead(id, !immutable)))
    else st
  }

  /** Where the lines under a sub-issue (empty, or indented by `p`) end. */
  function ChildEnd(lines: seq<string>, j: nat, p: string): (r: nat)
    requires j <= |lines|
    decreases |lines| - j
    ensures j <= r <= |lines|
  {
    if j < |lines| && (lines[j] == [] || StartsWith(lines[j], p)) then ChildEnd(lines, j + 1, p) else j
  }

  function ChildBodyLine(line: string, p: string): string {
    if StartsWith(line, p) then line[|p|..] else []
  }

  function ChildLines(ls: seq<string>, p: string): (r: seq<string>)
    ensures |r| == |ls|
  {
    if ls == [] then [] else ChildLines(ls[..|ls| - 1], p) + [ChildBodyLine(ls[|ls| - 1], p)]
  }

  function DropTrailingEmpty(ls: seq<string>): (r: seq<string>)
    ensures r <= ls && (r == [] || r[|r| - 1] != [])
  {
    if ls != [] && ls[|ls| - 1] == [] then DropTrailingEmpty(ls[..|ls| - 1]) else ls
  }

  predicate Leaf(c: Issue) {
    && c.labels == [] && c.children == [] && c.blockers == IssueBlocker.Root()
    && |c.comments| <= 1
    && (c.comments != [] ==> c.comments[0].id.None? && c.comments[0].owned == c.meta.owned && c.comments[0].body != [])
  }

  predicate Leaves(cs: seq<Issue>) {
    forall k :: 0 <= k < |cs| ==> Leaf(cs[k])
  }

  /** A sub-issue read from its line: no labels, no sub-issues, no blockers, its body as the one comment. */
  function ChildIssue(meta: Meta, bodyLines: seq<string>): (r: Issue)
    ensures Leaf(r)
  {
    var b := Collected(DropTrailingEmpty(bodyLines));
    Issue(meta, [], if b == [] then [] else [Comment(None, b, meta.owned)], [], IssueBlocker.Root())
  }

  /** A sub-issue line at `i`: the body or comment so far is kept, then the sub-issue with the lines under it. */
  function ChildStep(lines: seq<string>, i: nat, depth: nat, owned: bool, st: PState, meta: Meta): (r: (PState, nat))
    requires i < |lines|
    ensures i < r.1 <= |lines|
    ensures Leaves(st.children) ==> Leaves(r.0.children)
  {
    var p := Indent(depth + 2);
    var e := ChildEnd(lines, i + 1, p);
    var f := Flush(st, owned);
    var c := ChildIssue(meta, ChildLines(lines[i + 1..e], p));
    LeavesSnoc(f.children, c);
    (f.(children := f.children + [c]), e)
  }

  lemma LeavesSnoc(cs: seq<Issue>, c: Issue)
    ensures Leaves(cs) && Leaf(c) ==> Leaves(cs + [c])
  {
    if Leaves(cs) && Leaf(c) {
      forall k | 0 <= k < |cs| + 1 ensures Leaf((cs + [c])[k]) {
        if k < |cs| {
          assert (cs + [c])[k] == cs[k];
        }
      }
    }
  }

  /** Every other kind of line is one line; `marker` says whether it is the blockers marker. */
  function LineStep(st: PState, content: string, owned: bool, marker: bool): (r: PState)
    ensures r.children == st.children
  {
    if marker then FlushAtBlockers(st, owned).(inBlockers := true)
    else if st.inBlockers then Classify(st, content)
    else if IsCommentMarker(content) then CommentMarker(Flush(st, owned), content)
    else Regular(st, content)
  }

  /** What the parser does with line `i` (and, for a sub-issue line, the lines under it); the next line to read. */
  function Step(lines: seq<string>, i: nat, depth: nat, owned: bool, st: PState): (r: (PState, nat))
    requires i < |lines|
    ensures i < r.1 <= |lines|
    ensures Leaves(st.children) ==> Leaves(r.0.children)
  {
    var line := lines[i];
    if line == [] then (EmptyLine(st), i + 1)
    else
      var content := Unindent(line, Indent(depth + 1));
      ContentStep(lines, i, depth, owned, st, content, ReadingOf(content))
  }

  /** A non-empty line at `i` whose text after the indentation is `content`, read as `rd`. */
  function ContentStep(lines: seq<string>, i: nat, depth: nat, owned: bool, st: PState, content: string, rd: Reading): (r: (PState, nat))
    requires i < |lines|
    ensures i < r.1 <= |lines|
    ensures Leaves(st.children) ==> Leaves(r.0.children)
  {
    if rd.marker || (st.inBlockers && rd.child.None?) then (LineStep(st, content, owned, rd.marker), i + 1)
    else
      var st1 := st.(inBlockers := false);
      if !IsCommentMarker(content) && rd.child.Some? then ChildStep(lines, i, depth, owned, st1, rd.child.value)
      else (LineStep(st1, content, owned, rd.marker), i + 1)
  }

  /** The parser's walk from line `i`: the state at the end and the first line it leaves to the caller. */
  function Run(lines: seq<string>, i: nat, depth: nat, owned: bool, st: PState): (r: (PState, nat))
    requires i <= |lines|
    decreases |lines| - i
    ensures i <= r.1 <= |lines|
    ensures r.1 == |lines| || Stops(lines[r.1], depth)
    ensures Leaves(st.children) ==> Leaves(r.0.children)
  {
    if i == |lines| || Stops(lines[i], depth) then (st, i)
    else
      var s := Step(lines, i, depth, owned, st);
      Run(lines, s.1, depth, owned, s.0)
  }

  /** A parsed issue before its blocker lines are built into a tree; `next` is the first line not read. */
  datatype Parsed = Parsed(
    meta: Meta,
    labels: seq<string>,
    comments: seq<Comment>,
    children: seq<Issue>,
    blockerLines: seq<IssueBlocker.Line>,
    next: nat)

  /** What `parse_at_depth` returns. */
  function ParseSpec(lines: seq<string>, depth: nat, lineNum: nat, ctx: ParseContext): (r: Result<Parsed, ParseError>)
    ensures lines == [] ==> r == Err(EmptyFile)
    ensures lines != [] && !StartsWith(lines[0], Indent(depth)) ==> r == Err(BadIndentation(LineSpan(ctx, lineNum), depth))
    ensures r.Ok? ==> 1 <= r.value.next <= |lines|
    ensures r.Ok? ==> r.value.next == |lines| || Stops(lines[r.value.next], depth)
    ensures r.Ok? ==> Leaves(r.value.children)
  {
    if lines == [] then Err(EmptyFile)
    else if !StartsWith(lines[0], Indent(depth)) then Err(BadIndentation(LineSpan(ctx, lineNum), depth))
    else
      match ParseTitleLine(lines[0][|Indent(depth)|..], lineNum, ctx)
        case Err(e) => Err(e)
        case Ok((meta, labels)) =>
          var run := Run(lines, 1, depth, meta.owned, Init());
          var st := Flush(run.0, meta.owned);
          Ok(Parsed(meta, labels, st.comments, st.children, st.blockerLines, run.1))
  }

  /** An issue built by the parser agrees with `ParseSpec`; its blockers come from the blocker lines. */
  predicate Agrees(r: Result<Issue, ParseError>, next: nat, p: Result<Parsed, ParseError>) {
    match p
      case Err(e) => r == Err(e)
      case Ok(v) =>
        && r.Ok? && r.value.meta == v.meta && r.value.labels == v.labels
        && r.value.comments == v.comments && r.value.children == v.children && next == v.next
        && IssueBlocker.Skeleton(IssueBlocker.TreeLines(r.value.blockers)) == IssueBlocker.Skeleton(v.blockerLines)
        && (IssueBlocker.WellFormedLines(v.blockerLines) ==> IssueBlocker.TreeLines(r.value.blockers) == v.blockerLines)
  }

  // ---------------------------------------------------------------------
  // The parser

  /** The lines under a sub-issue line: empty ones, or ones indented for its body, stripped. */
  method ReadChildBody(lines: seq<string>, j: nat, p: string) returns (body: seq<string>, end: nat)
    requires j <= |lines|
    ensures end == ChildEnd(lines, j, p) && body == ChildLines(lines[j..end], p)
  {
    end := j;
    body := [];
    while end < |lines| && (lines[end] == [] || StartsWith(lines[end], p))
      invariant j <= end <= |lines|
      invariant ChildEnd(lines, end, p) == ChildEnd(lines, j, p)
      invariant body == ChildLines(lines[j..end], p)
      decreases |lines| - end
    {
      assert lines[j..end + 1][..end - j] == lines[j..end];
      var line := if lines[end] == [] then [] else lines[end][|p|..];
      body := body + [line];
      end := end + 1;
    }
  }

  /** Pops empty lines off the end. */
  method PopTrailingEmpty(ls: seq<string>) returns (r: seq<string>)
    ensures r == DropTrailingEmpty(ls)
  {
    r := ls;
    while r != [] && r[|r| - 1] == []
      invariant DropTrailingEmpty(r) == DropTrailingEmpty(ls)
      decreases |r|
    {
      r := r[..|r| - 1];
    }
  }

  /** One turn of the parser's loop. */
  method StepLine(lines: seq<string>, i: nat, depth: nat, owned: bool, st: PState) returns (st': PState, j: nat)
    requires i < |lines|
    ensures (st', j) == Step(lines, i, depth, owned, st)
  {
    var line := lines[i];
    if line == [] {
      st', j := EmptyLine(st), i + 1;
      return;
    }
    var content := Unindent(line, Indent(depth + 1));
    st', j := ContentLine(lines, i, depth, owned, st, content, ReadingOf(content));
  }

  /** The rest of the turn, on the line's text after the indentation. */
  method ContentLine(lines: seq<string>, i: nat, depth: nat, owned: bool, st: PState, content: string, rd: Reading) returns (st': PState, j: nat)
    requires i < |lines|
    ensures (st', j) == ContentStep(lines, i, depth, owned, st, content, rd)
  {
    j := i + 1;
    if rd.marker {
      st' := FlushAtBlockers(st, owned).(inBlockers := true);
      return;
    }
    st' := st;
    if st'.inBlockers {
      if rd.child.Some? {
        st' := st'.(inBlockers := false);
      } else {
        st' := Classify(st', content);
        return;
      }
    }
    assert st' == st.(inBlockers := false);
    if IsCommentMarker(content) {
      st' := CommentMarker(Flush(st', owned), content);
      return;
    }
    if rd.child.Some? {
      st', j := ReadChild(lines, i, depth, owned, st', rd.child.value);
      return;
    }
    st' := Regular(st', content);
  }

  /** A sub-issue line: the comment so far is flushed, then the sub-issue with the lines under it is added. */
  method ReadChild(lines: seq<string>, i: nat, depth: nat, owned: bool, st: PState, childMeta: Meta) returns (st': PState, j: nat)
    requires i < |lines|
    ensures (st', j) == ChildStep(lines, i, depth, owned, st, childMeta)
  {
    st' := Flush(st, owned);
    var p := Indent(depth + 2);
    var body;
    body, j := ReadChildBody(lines, i + 1, p);
    body := PopTrailingEmpty(body);
    var b := Collected(body);
    var childComments := if b == [] then [] else [Comment(None, b, childMeta.owned)];
    st' := st'.(children := st'.children + [Issue(childMeta, [], childComments, [], IssueBlocker.Root())]);
  }

  /** `Issue::parse_at_depth` over the lines not yet read; `next` is the first line it leaves. */
  method ParseAtDepth(lines: seq<string>, depth: nat, lineNum: nat, ctx: ParseContext) returns (r: Result<Issue, ParseError>, next: nat)
    ensures Agrees(r, next, ParseSpec(lines, depth, lineNum, ctx))
  {
    next := 0;
    if lines == [] {
      return Err(EmptyFile), next;
    }
    next := 1;
    var indent := Indent(depth);
    if !StartsWith(lines[0], indent) {
      return Err(BadIndentation(LineSpan(ctx, lineNum), depth)), next;
    }
    var title := ParseTitleLine(lines[0][|indent|..], lineNum, ctx);
    if title.Err? {
      return Err(title.error), next;
    }
    var meta := title.value.0;
    var labels := title.value.1;
    var st := Init();
    while next < |lines| && !Stops(lines[next], depth)
      invariant 1 <= next <= |lines|
      invariant Run(lines, next, depth, meta.owned, st) == Run(lines, 1, depth, meta.owned, Init())
      decreases |lines| - next
    {
      st, next := StepLine(lines, next, depth, meta.owned, st);
    }
    st := Flush(st, meta.owned);
    var blockers := IssueBlocker.BuildFromLines(st.blockerLines);
    r := Ok(Issue(meta, labels, st.comments, st.children, blockers));
  }

  /** `Issue::parse`: indentation normalised, then the lines read from depth 0, line 1. */
  method Parse(content: string, ctx: ParseContext) returns (r: Result<Issue, ParseError>)
    ensures var lines := Lines(Indentation.Normalized(content));
      exists next :: Agrees(r, next, ParseSpec(lines, 0, 1, ctx))
  {
    var normalized := Indentation.NormalizeIssueIndentation(content);
    var next;
    r, next := ParseAtDepth(Lines(normalized), 0, 1, ctx);
  }

  // ---------------------------------------------------------------------
  // What the parser promises

  lemma IndentZero()
    ensures Indent(0) == []
  {
  }

  /** At depth 0 every line belongs to the issue: the whole file is read. */
  lemma DepthZeroReadsAll(lines: seq<string>, lineNum: nat, ctx: ParseContext)
    ensures var r := ParseSpec(lines, 0, lineNum, ctx);
      r.Ok? ==> r.value.next == |lines|
  {
    IndentZero();
    var r := ParseSpec(lines, 0, lineNum, ctx);
    if r.Ok? && r.value.next < |lines| {
      assert StartsWith(lines[r.value.next], Indent(0));
      assert false;
    }
  }

  /**
   * The title line of a serialised issue reads back: whatever follows it,
   * the parsed issue has the metadata and labels that were written.
   */
  lemma TitleReadBack(issue: Issue, ctx: ParseContext)
    requires Printable(issue.meta, issue.labels)
    ensures var r := ParseSpec(OpenIssueSerialize.SerializeLines(issue, 0), 0, 1, ctx);
      r.Ok? && r.value.meta == issue.meta && r.value.labels == issue.labels
  {
    var lines := OpenIssueSerialize.SerializeLines(issue, 0);
    OpenIssueSerialize.TitleFirst(issue, 0);
    IndentZero();
    assert lines[0] == TitleLine(issue.meta, issue.labels);
    assert lines[0][|Indent(0)|..] == lines[0];
    TitleLineRoundTrip(issue.meta, issue.labels, 1, ctx);
  }

  /**
   * A body line the parser reads back as text: once its indentation is
   * stripped it is not the blockers marker, not a comment marker and not a
   * sub-issue line, and the extra tab of a comment the user does not own is
   * the only tab taken off.
   */
  predicate PlainLine(x: string, owned: bool) {
    var c := PlainContent(x, owned);
    && !OpenUtil.IsBlockersMarker(c) && !StartsWith(c, IssueTypes.MARKER_OPEN)
    && !StartsWith(c, IssueTypes.BOX_OPEN) && Unindent(c, TAB) == x
  }

  /** Every line of the body is plain. */
  predicate PlainBody(body: string, owned: bool) {
    AllPlain(Lines(body), owned)
  }

  lemma IndentOne()
    ensures Indent(1) == TAB
  {
  }

  function PlainContent(x: string, owned: bool): string {
    if owned then x else TAB + x
  }

  lemma PlainUnindent(line: string, owned: bool, x: string)
    requires line == OpenIssueSerialize.CommentIndent(Indent(1), owned) + x
    ensures line != [] && StartsWith(line, Indent(0))
    ensures Unindent(line, Indent(1)) == PlainContent(x, owned)
  {
    IndentOne();
    IndentZero();
    var c := PlainContent(x, owned);
    assert line == TAB + c;
    assert (TAB + c)[..|TAB|] == TAB && (TAB + c)[|TAB|..] == c;
  }

  lemma LineStepPlain(st: PState, owned: bool, x: string)
    requires PlainLine(x, owned) && st.inBody && !st.inBlockers
    ensures LineStep(st, PlainContent(x, owned), owned, false) == st.(body := st.body + [x])
  {
    var c := PlainContent(x, owned);
    assert !IsCommentMarker(c);
  }

  /** A plain body line is added to the body. */
  lemma StepPlain(lines: seq<string>, i: nat, owned: bool, st: PState, x: string)
    requires i < |lines| && lines[i] == OpenIssueSerialize.CommentIndent(Indent(1), owned) + x
    requires PlainLine(x, owned) && st.inBody && !st.inBlockers
    ensures !Stops(lines[i], 0)
    ensures Step(lines, i, 0, owned, st) == (st.(body := st.body + [x]), i + 1)
  {
    var c := PlainContent(x, owned);
    assert lines[i] != [] && StartsWith(lines[i], Indent(0)) && Unindent(lines[i], Indent(1)) == c by {
      PlainUnindent(lines[i], owned, x);
    }
    assert ReadingOf(c) == Reading(false, None);
    assert st.(inBlockers := false) == st;
    assert LineStep(st, c, owned, false) == st.(body := st.body + [x]) by {
      LineStepPlain(st, owned, x);
    }
  }

  lemma RunStep(lines: seq<string>, i: nat, depth: nat, owned: bool, st: PState)
    requires i < |lines| && !Stops(lines[i], depth)
    ensures var s := Step(lines, i, depth, owned, st);
      Run(lines, i, depth, owned, st) == Run(lines, s.1, depth, owned, s.0)
  {
  }

  predicate AllPlain(bl: seq<string>, owned: bool) {
    bl == [] || (PlainLine(bl[0], owned) && AllPlain(bl[1..], owned))
  }

  /** The lines from `i` on are `bl`, each behind `prefix`. */
  predicate Laid(lines: seq<string>, i: nat, prefix: string, bl: seq<string>)
    decreases bl
  {
    if bl == [] then i == |lines|
    else i < |lines| && lines[i] == prefix + bl[0] && Laid(lines, i + 1, prefix, bl[1..])
  }

  lemma {:induction false} LaidIndented(lines: seq<string>, i: nat, prefix: string, bl: seq<string>)
    requires i <= |lines| && lines[i..] == OpenIssueSerialize.Indented(prefix, bl)
    decreases bl
    ensures Laid(lines, i, prefix, bl)
  {
    if bl != [] {
      assert lines[i + 1..] == lines[i..][1..];
      assert OpenIssueSerialize.Indented(prefix, bl)[1..] == OpenIssueSerialize.Indented(prefix, bl[1..]);
      LaidIndented(lines, i + 1, prefix, bl[1..]);
    }
  }

  lemma RunEnd(lines: seq<string>, depth: nat, owned: bool, st: PState)
    ensures Run(lines, |lines|, depth, owned, st) == (st, |lines|)
  {
  }

  /** The first line of a plain run is read into the body. */
  lemma RunPlainFirst(lines: seq<string>, i: nat, owned: bool, st: PState, bl: seq<string>)
    requires Laid(lines, i, OpenIssueSerialize.CommentIndent(Indent(1), owned), bl) && AllPlain(bl, owned) && bl != []
    requires st.inBody && !st.inBlockers
    ensures Laid(lines, i + 1, OpenIssueSerialize.CommentIndent(Indent(1), owned), bl[1..]) && AllPlain(bl[1..], owned)
    ensures Run(lines, i, 0, owned, st) == Run(lines, i + 1, 0, owned, st.(body := st.body + [bl[0]]))
  {
    assert PlainLine(bl[0], owned);
    StepPlain(lines, i, owned, st, bl[0]);
    RunStep(lines, i, 0, owned, st);
  }

  lemma BodyAppend(st: PState, bl: seq<string>)
    requires bl != []
    ensures st.(body := st.body + [bl[0]]).(body := st.body + [bl[0]] + bl[1..]) == st.(body := st.body + bl)
  {
    assert st.body + [bl[0]] + bl[1..] == st.body + bl;
  }

  /** A run of plain body lines is read into the body, to the end of the file. */
  lemma {:induction false} RunPlain(lines: seq<string>, i: nat, owned: bool, st: PState, bl: seq<string>)
    requires Laid(lines, i, OpenIssueSerialize.CommentIndent(Indent(1), owned), bl) && AllPlain(bl, owned)
    requires st.inBody && !st.inBlockers
    decreases |bl|
    ensures Run(lines, i, 0, owned, st) == (st.(body := st.body + bl), |lines|)
  {
    if bl == [] {
      RunEnd(lines, 0, owned, st);
      assert st.body + bl == st.body;
    } else {
      var st' := st.(body := st.body + [bl[0]]);
      assert Run(lines, i, 0, owned, st) == Run(lines, i + 1, 0, owned, st') by {
        RunPlainFirst(lines, i, owned, st, bl);
      }
      assert Run(lines, i + 1, 0, owned, st') == (st'.(body := st'.body + bl[1..]), |lines|) by {
        RunPlainFirst(lines, i, owned, st, bl);
        RunPlain(lines, i + 1, owned, st', bl[1..]);
      }
      BodyAppend(st, bl);
    }
  }

  /** A trimmed body is what its lines collect back to. */
  lemma CollectedLines(body: string)
    requires IsTrimmed(body)
    ensures Collected(if body == [] then [] else Lines(body)) == body
  {
    if body != [] {
      assert !EndsWith(body, NEWLINE) by {
        assert IsWhitespace('\n');
      }
      assert Join(Lines(body), NEWLINE) == body;
      TrimmedIsFixed(body);
    }
  }

  /** Once the title line is read, the result is what the walk over the remaining lines collects. */
  lemma ParseFromTitle(lines: seq<string>, ctx: ParseContext, meta: Meta, labels: seq<string>)
    requires lines != [] && ParseTitleLine(lines[0], 1, ctx) == Ok((meta, labels))
    ensures var run := Run(lines, 1, 0, meta.owned, Init());
      var st := Flush(run.0, meta.owned);
      ParseSpec(lines, 0, 1, ctx) == Ok(Parsed(meta, labels, st.comments, st.children, st.blockerLines, run.1))
  {
    IndentZero();
    assert lines[0][|Indent(0)|..] == lines[0];
  }

  /** The lines of an issue with only a title and a body. */
  lemma SerializedBody(meta: Meta, labels: seq<string>, body: string, blockers: IssueBlocker.BlockerSequence)
    requires IssueBlocker.IsEmpty(blockers)
    ensures OpenIssueSerialize.SerializeLines(Issue(meta, labels, [Comment(None, body, meta.owned)], [], blockers), 0)
      == [TitleLine(meta, labels)]
         + OpenIssueSerialize.Indented(OpenIssueSerialize.CommentIndent(Indent(1), meta.owned), if body == [] then [] else Lines(body))
  {
    var issue := Issue(meta, labels, [Comment(None, body, meta.owned)], [], blockers);
    IndentZero();
    assert Later(issue) == [];
    assert Indent(0) + TitleLine(meta, labels) == TitleLine(meta, labels);
  }

  lemma FlushBody(bl: seq<string>, owned: bool)
    ensures var f := Flush(Init().(body := Init().body + bl), owned);
      f.comments == [Comment(None, Collected(bl), owned)] && f.children == [] && f.blockerLines == []
  {
    assert Init().body + bl == bl;
  }

  /** The body lines read into the body comment. */
  lemma ReadBody(lines: seq<string>, owned: bool, body: string)
    requires IsTrimmed(body) && PlainBody(body, owned)
    requires lines != [] && lines[1..] == OpenIssueSerialize.Indented(OpenIssueSerialize.CommentIndent(Indent(1), owned), if body == [] then [] else Lines(body))
    ensures var run := Run(lines, 1, 0, owned, Init());
      var f := Flush(run.0, owned);
      run.1 == |lines| && f.comments == [Comment(None, body, owned)] && f.children == [] && f.blockerLines == []
  {
    var bl := if body == [] then [] else Lines(body);
    var ci := OpenIssueSerialize.CommentIndent(Indent(1), owned);
    assert Run(lines, 1, 0, owned, Init()) == (Init().(body := Init().body + bl), |lines|) by {
      LaidIndented(lines, 1, ci, bl);
      assert AllPlain(bl, owned);
      RunPlain(lines, 1, owned, Init(), bl);
    }
    assert Collected(bl) == body by {
      CollectedLines(body);
    }
    FlushBody(bl, owned);
  }

  /**
   * An issue with a title, a plain body and nothing else reads back from its
   * serialised lines as that title and body, with nothing left over.
   */
  lemma BodyRoundTrip(meta: Meta, labels: seq<string>, body: string, blockers: IssueBlocker.BlockerSequence, ctx: ParseContext)
    requires Printable(meta, labels) && IsTrimmed(body) && PlainBody(body, meta.owned)
    requires IssueBlocker.IsEmpty(blockers)
    ensures var lines := OpenIssueSerialize.SerializeLines(Issue(meta, labels, [Comment(None, body, meta.owned)], [], blockers), 0);
      ParseSpec(lines, 0, 1, ctx) == Ok(Parsed(meta, labels, [Comment(None, body, meta.owned)], [], [], |lines|))
  {
    var lines := OpenIssueSerialize.SerializeLines(Issue(meta, labels, [Comment(None, body, meta.owned)], [], blockers), 0);
    SerializedBody(meta, labels, body, blockers);
    TitleAndBodyRead(lines, meta, labels, body, ctx);
  }

  /** The title line followed by the body's lines reads back as that title and body. */
  lemma TitleAndBodyRead(lines: seq<string>, meta: Meta, labels: seq<string>, body: string, ctx: ParseContext)
    requires Printable(meta, labels) && IsTrimmed(body) && PlainBody(body, meta.owned)
    requires lines == [TitleLine(meta, labels)]
      + OpenIssueSerialize.Indented(OpenIssueSerialize.CommentIndent(Indent(1), meta.owned), if body == [] then [] else Lines(body))
    ensures ParseSpec(lines, 0, 1, ctx) == Ok(Parsed(meta, labels, [Comment(None, body, meta.owned)], [], [], |lines|))
  {
    assert lines[0] == TitleLine(meta, labels);
    TitleLineRoundTrip(meta, labels, 1, ctx);
    ParseFromTitle(lines, ctx, meta, labels);
    ReadBody(lines, meta.owned, body);
  }
}
