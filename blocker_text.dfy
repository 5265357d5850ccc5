/**
 * src/blocker/operations.rs: the older blocker stack, which keeps the
 * blocker text itself and works line by line. `add` and `pop` replace the
 * text with its formatted form; `current`, `list` and `is_empty` read it.
 *
 * That file takes its classifier, formatter, `strip_blocker_prefix` and
 * `parse_parent_headers` from src/blocker/standard.rs, which is not part of
 * this model. The classifier of src/issue/blocker.rs (`IssueBlocker`) and
 * the formatter of src/blocker_interactions/standard.rs (`BlockerStandard`,
 * in its corrected form `FormatFixed`) stand in for them; the parent
 * headers are a parameter.
 */
module BlockerText {
  import opened Wrappers
  import opened Strings
  import opened IssueBlocker
  import opened BlockerStandard
  import BlockerOps

  // ---------------------------------------------------------------------
  // Searching from the end

  /** The position of the last line satisfying `p`. */
  function LastWhere(ls: seq<string>, p: string -> bool): (r: Option<nat>)
    ensures r.None? <==> forall k :: 0 <= k < |ls| ==> !p(ls[k])
    ensures r.Some? ==> r.value < |ls| && p(ls[r.value])
    ensures r.Some? ==> forall j :: r.value < j < |ls| ==> !p(ls[j])
  {
    if ls == [] then None
    else if p(ls[|ls| - 1]) then Some(|ls| - 1)
    else
      var r := LastWhere(ls[..|ls| - 1], p);
      assert forall k :: 0 <= k < |ls| - 1 ==> ls[..|ls| - 1][k] == ls[k];
      r
  }

  /** Two tests that agree on every line find the same last line. */
  lemma {:induction false} LastWhereAgree(ls: seq<string>, p: string -> bool, q: string -> bool)
    requires forall k :: 0 <= k < |ls| ==> p(ls[k]) == q(ls[k])
    ensures LastWhere(ls, p) == LastWhere(ls, q)
    decreases |ls|
  {
    if ls != [] && !p(ls[|ls| - 1]) {
      var init := ls[..|ls| - 1];
      assert forall k :: 0 <= k < |init| ==> init[k] == ls[k];
      LastWhereAgree(init, p, q);
    }
  }

  // ---------------------------------------------------------------------
  // Line kinds

  /** The lines `current` considers: non-empty and not indented by a tab. */
  predicate IsCandidate(line: string) {
    line != [] && line[0] != '\t'
  }

  /** The lines `pop` considers: classified as a header or an item. */
  predicate IsContentLine(line: string) {
    line != [] && !IsCommentLine(line)
  }

  lemma ContentLineIsContent(line: string)
    ensures IsContentLine(line) <==> ClassifyLine(line).Some? && !ClassifyLine(line).value.Comment?
  {
    CommentLineIsComment(line);
  }

  /** No line is indented by two spaces, the one comment form `current` does not skip. */
  predicate NoSpaceIndent(ls: seq<string>) {
    forall k :: 0 <= k < |ls| ==> !StartsWith(ls[k], TWO_SPACES)
  }

  /** Without space-indented comments, `current` and `pop` look at the same line. */
  lemma CandidateIsContent(ls: seq<string>)
    requires NoSpaceIndent(ls)
    ensures LastWhere(ls, IsCandidate) == LastWhere(ls, IsContentLine)
  {
    LastWhereAgree(ls, IsCandidate, IsContentLine);
  }

  // ---------------------------------------------------------------------
  // Reading

  /** `current` on the lines of the text. */
  function CurrentOf(ls: seq<string>): (r: Option<string>)
    ensures r.None? <==> forall k :: 0 <= k < |ls| ==> !IsCandidate(ls[k])
    ensures r.Some? ==> IsCandidate(r.value)
  {
    match LastWhere(ls, IsCandidate)
      case None => None
      case Some(k) => Some(ls[k])
  }

  /** An `list` entry for one line: headers and items, comments and empty lines left out. */
  function ListEntry(line: string): seq<BlockerOps.Entry> {
    if line == [] || line[0] == '\t' then []
    else match ClassifyLine(line)
      case Some(Header(_, text)) => [BlockerOps.Entry(text, true)]
      case Some(Item(text)) => [BlockerOps.Entry(text, false)]
      case _ => []
  }

  /** `list` on the lines of the text. */
  function ListOf(ls: seq<string>): seq<BlockerOps.Entry> {
    if ls == [] then [] else ListOf(ls[..|ls| - 1]) + ListEntry(ls[|ls| - 1])
  }

  /** The entry of one line is the entry of its classification. */
  lemma ListEntryClassified(line: string)
    ensures ClassifyLine(line).None? ==> ListEntry(line) == []
    ensures ClassifyLine(line).Some? ==> var l := ClassifyLine(line).value;
      ListEntry(line) == if l.Comment? then [] else [BlockerOps.Entry(l.text, l.Header?)]
  {
  }

  /**
   * `list` reads the same entries off the text as the tree stack's `list`
   * reads off the classified lines: one per header and item, in order.
   */
  lemma {:induction false} ListIsClassified(ls: seq<string>)
    ensures ListOf(ls) == BlockerOps.ListLines(ClassifyAll(ls))
    decreases |ls|
  {
    if ls != [] {
      var init := ls[..|ls| - 1];
      var line := ls[|ls| - 1];
      ListIsClassified(init);
      SnocSplit(ls);
      ListEntryClassified(line);
      match ClassifyLine(line)
        case None =>
          assert ClassifyAll(ls) == ClassifyAll(init);
        case Some(l) =>
          ClassifyAllSnoc(init, line, l);
          ListLinesSnoc(ClassifyAll(init), l);
    }
  }

  lemma ListLinesSnoc(cls: seq<Line>, l: Line)
    ensures BlockerOps.ListLines(cls + [l]) ==
      BlockerOps.ListLines(cls) + (if l.Comment? then [] else [BlockerOps.Entry(l.text, l.Header?)])
  {
    FrontOfSnoc(cls, l);
  }

  /** The prefix `- ` taken off an item line (src/blocker/standard.rs's `strip_blocker_prefix`). */
  function StripItemPrefix(s: string): (r: string)
    ensures StartsWith(s, ITEM_PREFIX) ==> ITEM_PREFIX + r == s
    ensures !StartsWith(s, ITEM_PREFIX) ==> r == s
  {
    if StartsWith(s, ITEM_PREFIX) then s[|ITEM_PREFIX|..] else s
  }

  /** `current_with_context`, given the headers above the current line. */
  function ContextOf(ls: seq<string>, hierarchy: seq<string>, parentHeaders: seq<string>): Option<string> {
    match CurrentOf(ls)
      case None => None
      case Some(current) =>
        var parts := hierarchy + parentHeaders;
        if parts == [] then Some(StripItemPrefix(current))
        else Some(Join(parts, ": ") + ": " + StripItemPrefix(current))
  }

  /** The context is the hierarchy, the headers and the stripped line joined by ": ". */
  lemma ContextIsJoin(ls: seq<string>, hierarchy: seq<string>, parentHeaders: seq<string>)
    ensures ContextOf(ls, hierarchy, parentHeaders).None? <==> CurrentOf(ls).None?
    ensures CurrentOf(ls).Some? ==>
      ContextOf(ls, hierarchy, parentHeaders) ==
        Some(Join(hierarchy + parentHeaders + [StripItemPrefix(CurrentOf(ls).value)], ": "))
  {
    if CurrentOf(ls).Some? {
      var parts := hierarchy + parentHeaders;
      if parts != [] {
        JoinAppend(parts, StripItemPrefix(CurrentOf(ls).value), ": ");
      }
    }
  }

  // ---------------------------------------------------------------------
  // Emptiness

  /**
   * Without space-indented comments, a text has no current line exactly
   * when it is semantically empty: every line it classifies is a comment.
   */
  lemma EmptyIsSemanticallyEmpty(content: string)
    requires NoSpaceIndent(Lines(content))
    ensures CurrentOf(Lines(content)).None? <==> IsSemanticallyEmpty(content)
  {
    var ls := Lines(content);
    CandidateIsContent(ls);
    NoContentSkeleton(ls);
    OnlyCommentsSkeleton(ClassifyAll(ls));
  }

  /** A text has no header or item line exactly when its classified lines keep nothing but comments. */
  lemma {:induction false} NoContentSkeleton(ls: seq<string>)
    ensures LastWhere(ls, IsContentLine).None? <==> Skeleton(ClassifyAll(ls)) == []
    decreases |ls|
  {
    if ls != [] {
      var init := ls[..|ls| - 1];
      var line := ls[|ls| - 1];
      NoContentSkeleton(init);
      assert LastWhere(ls, IsContentLine).None? <==>
          !IsContentLine(line) && LastWhere(init, IsContentLine).None? by {
        LastWhereSnoc(ls, |ls| - 1, IsContentLine);
        assert ls[..|ls|] == ls;
      }
      assert Skeleton(ClassifyAll(ls)) == [] <==>
          !IsContentLine(line) && Skeleton(ClassifyAll(init)) == [] by {
        SnocSplit(ls);
        ContentLineIsContent(line);
        match ClassifyLine(line)
          case None =>
            assert ClassifyAll(ls) == ClassifyAll(init);
          case Some(l) =>
            ClassifyAllSnoc(init, line, l);
            SkeletonSnoc(ClassifyAll(init), l);
      }
    }
  }

  lemma SkeletonSnoc(cls: seq<Line>, l: Line)
    ensures Skeleton(cls + [l]) == Skeleton(cls) + (if l.Comment? then [] else [l])
  {
    FrontOfSnoc(cls, l);
  }

  // ---------------------------------------------------------------------
  // The formatted text after `add`

  /** The text `add` formats: the old lines and the new one joined by line breaks. */
  function Appended(content: string, newLine: string): string {
    Join(Lines(content) + [newLine], "\n")
  }

  lemma {:induction false} ClassifyAllNoNewline(ls: seq<string>)
    requires NoNewline(ls)
    ensures forall j :: 0 <= j < |ClassifyAll(ls)| ==> '\n' !in ClassifyAll(ls)[j].text
    decreases |ls|
  {
    if ls != [] {
      var init := ls[..|ls| - 1];
      var line := ls[|ls| - 1];
      ClassifyAllNoNewline(init);
      match ClassifyLine(line)
        case None =>
          assert ClassifyAll(ls) == ClassifyAll(init);
        case Some(l) =>
          SnocSplit(ls);
          ClassifyAllSnoc(init, line, l);
          ClassifyNoNewline(line);
          var cls := ClassifyAll(ls);
          assert forall j :: 0 <= j < |ClassifyAll(init)| ==> cls[j] == ClassifyAll(init)[j];
    }
  }

  lemma {:induction false} LayoutNoNewline(cls: seq<Line>)
    requires forall j :: 0 <= j < |cls| ==> '\n' !in cls[j].text
    ensures NoNewline(Layout(cls))
    decreases |cls|
  {
    if cls != [] {
      var last := cls[|cls| - 1];
      RawNoNewline(last);
      if |cls| > 1 {
        var init := cls[..|cls| - 1];
        assert forall j :: 0 <= j < |init| ==> init[j] == cls[j];
        LayoutNoNewline(init);
        var gap := Gap(cls[|cls| - 2], last);
        var out := Layout(init) + gap + [ToRaw(last)];
        assert Layout(cls) == out;
        forall k | 0 <= k < |out| ensures '\n' !in out[k] {
          if k < |Layout(init)| {
            assert out[k] == Layout(init)[k];
          } else if k < |Layout(init)| + |gap| {
            assert out[k] == "";
          }
        }
      } else {
        assert Layout(cls) == [ToRaw(last)];
      }
    }
  }

  /**
   * When the new line is a non-blank item, the formatted text ends with
   * that item in canonical form, `- ` and the item's text.
   */
  lemma {:induction false} FormattedEndsWithItem(ls: seq<string>, text: string)
    requires ls != [] && NoFence(ls) && NoNewline(ls)
    requires ClassifyLine(ls[|ls| - 1]) == Some(Item(text))
    requires FormatResult(ls).Ok?
    ensures var out := Lines(FormatResult(ls).value);
      out != [] && out[|out| - 1] == ITEM_PREFIX + text
  {
    var cls := ClassifyAll(ls);
    LastClassified(ls, text);
    var out := Layout(cls);
    FormatIsLayout(ls);
    LayoutLast(cls);
    ClassifyAllNoNewline(ls);
    LayoutNoNewline(cls);
    LinesJoin(out);
  }

  /** The last line classified is the last of the classified lines. */
  lemma LastClassified(ls: seq<string>, text: string)
    requires ls != [] && ClassifyLine(ls[|ls| - 1]) == Some(Item(text))
    ensures var cls := ClassifyAll(ls); cls != [] && cls[|cls| - 1] == Item(text)
  {
    SnocSplit(ls);
    ClassifyAllSnoc(ls[..|ls| - 1], ls[|ls| - 1], Item(text));
  }

  /** Without code blocks the formatted text is the layout of all the classified lines. */
  lemma FormatIsLayout(ls: seq<string>)
    requires NoFence(ls) && FormatResult(ls).Ok?
    ensures FormatResult(ls).value == Join(Layout(ClassifyAll(ls)), "\n")
  {
    assert ls[..|ls|] == ls;
    FormattedIsLayout(ls, |ls|);
  }

  /** Reading blank items as empty lines adds no fence and no line break. */
  lemma BlankEmptyKeeps(xs: seq<string>)
    requires NoFence(xs) && NoNewline(xs)
    ensures var ls := MapSeq(xs, BlankEmptyItem); NoFence(ls) && NoNewline(ls)
  {
    var ls := MapSeq(xs, BlankEmptyItem);
    assert !IsFence([]);
    forall k | 0 <= k < |ls| ensures !IsFence(ls[k]) && '\n' !in ls[k] {
      assert ls[k] == [] || ls[k] == xs[k];
    }
  }

  /** The lines of the text `add` formats: the old lines and the new one. */
  lemma AppendedLines(content: string, newLine: string)
    requires '\n' !in newLine && newLine != []
    ensures Lines(Appended(content, newLine)) == Lines(content) + [newLine]
  {
    LinesJoin(Lines(content) + [newLine]);
  }

  lemma BlankEmptyLast(xs: seq<string>)
    requires xs != [] && ClassifyLine(xs[|xs| - 1]) != Some(Item([]))
    ensures var ls := MapSeq(xs, BlankEmptyItem); ls[|ls| - 1] == xs[|xs| - 1]
  {
    BlankItemIff(xs[|xs| - 1]);
  }

  /** The corrected formatter applied to a sequence of lines. */
  function FormatFixedLines(xs: seq<string>): Result<string, FormatError> {
    FormatResult(MapSeq(xs, BlankEmptyItem))
  }

  /** What `add` formats is the old lines followed by the new one. */
  lemma AppendedFormat(content: string, newLine: string)
    requires '\n' !in newLine && newLine != []
    ensures FormatFixed(Appended(content, newLine)) == FormatFixedLines(Lines(content) + [newLine])
  {
    AppendedLines(content, newLine);
  }

  /**
   * After a successful `add` of a line that is a non-blank item, that item
   * is the current line, in canonical form.
   */
  lemma AddMakesCurrent(content: string, newLine: string, text: string)
    requires '\n' !in newLine && text != []
    requires ClassifyLine(newLine) == Some(Item(text))
    requires NoFence(Lines(content) + [newLine])
    requires FormatFixed(Appended(content, newLine)).Ok?
    ensures CurrentOf(Lines(FormatFixed(Appended(content, newLine)).value)) == Some(ITEM_PREFIX + text)
  {
    var xs := Lines(content) + [newLine];
    var r := FormatFixed(Appended(content, newLine));
    assert r == FormatFixedLines(xs) by {
      AppendedFormat(content, newLine);
    }
    ItemEndsFormatted(xs, text, r);
    CurrentIsLastItem(Lines(r.value), text);
  }

  lemma CurrentIsLastItem(out: seq<string>, text: string)
    requires out != [] && out[|out| - 1] == ITEM_PREFIX + text
    ensures CurrentOf(out) == Some(ITEM_PREFIX + text)
  {
    assert (ITEM_PREFIX + text)[0] == '-';
  }

  /** Formatting lines ending with a non-blank item, blank items read as empty lines, ends with that item. */
  lemma ItemEndsFormatted(xs: seq<string>, text: string, r: Result<string, FormatError>)
    requires xs != [] && NoFence(xs) && NoNewline(xs) && text != []
    requires ClassifyLine(xs[|xs| - 1]) == Some(Item(text))
    requires r == FormatFixedLines(xs) && r.Ok?
    ensures var out := Lines(r.value); out != [] && out[|out| - 1] == ITEM_PREFIX + text
  {
    var ls := MapSeq(xs, BlankEmptyItem);
    assert ls != [] && ls[|ls| - 1] == xs[|xs| - 1] by {
      BlankEmptyLast(xs);
    }
    assert NoFence(ls) && NoNewline(ls) by {
      BlankEmptyKeeps(xs);
    }
    FormattedEndsWithItem(ls, text);
  }

  // ---------------------------------------------------------------------
  // The text after `pop`

  /** The line `pop` removes: the last header or item line. */
  function PopRemoved(ls: seq<string>): Option<string> {
    match LastWhere(ls, IsContentLine)
      case None => None
      case Some(k) => Some(ls[k])
  }

  /** The text `pop` formats: the lines before the removed one, or the whole text. */
  function PopRest(content: string): string {
    var ls := Lines(content);
    match LastWhere(ls, IsContentLine)
      case None => content
      case Some(k) => Join(ls[..k], "\n")
  }

  /**
   * What `pop` takes: the removed line is a header or item, and every line
   * after it is empty or a comment; what remains is the text before it.
   */
  lemma PopRemovesLastContent(content: string)
    ensures var ls := Lines(content);
      && (PopRemoved(ls).None? <==> forall k :: 0 <= k < |ls| ==> !IsContentLine(ls[k]))
      && (PopRemoved(ls).None? ==> PopRest(content) == content)
      && (PopRemoved(ls).Some? ==>
            exists k :: (0 <= k < |ls| && ls[k] == PopRemoved(ls).value
              && PopRest(content) == Join(ls[..k], "\n")
              && ClassifyLine(ls[k]).Some? && !ClassifyLine(ls[k]).value.Comment?
              && forall j :: k < j < |ls| ==> ClassifyLine(ls[j]).None? || ClassifyLine(ls[j]).value.Comment?))
  {
    var ls := Lines(content);
    match LastWhere(ls, IsContentLine)
      case None =>
      case Some(k) =>
        ContentLineIsContent(ls[k]);
        forall j | k < j < |ls| ensures ClassifyLine(ls[j]).None? || ClassifyLine(ls[j]).value.Comment? {
          ContentLineIsContent(ls[j]);
        }
  }

  lemma LastWhereSnoc(ls: seq<string>, i: nat, p: string -> bool)
    requires i < |ls|
    ensures LastWhere(ls[..i + 1], p) == if p(ls[i]) then Some(i) else LastWhere(ls[..i], p)
  {
    assert ls[..i + 1][..i] == ls[..i];
  }

  /** `classify_line(line)` is a header or an item (`LineType::is_content`). */
  method IsContent(line: string) returns (b: bool)
    ensures b == IsContentLine(line)
  {
    ContentLineIsContent(line);
    match ClassifyLine(line) {
      case Some(l) => b := !l.Comment?;
      case None => b := false;
    }
  }

  /** The loop of `pop` collecting the positions of header and item lines; the last one is returned. */
  method LastContentIndex(lines: seq<string>) returns (last: Option<nat>)
    ensures last == LastWhere(lines, IsContentLine)
  {
    var indices: seq<nat> := [];
    var idx := 0;
    while idx < |lines|
      invariant idx <= |lines|
      invariant indices == [] <==> LastWhere(lines[..idx], IsContentLine).None?
      invariant indices != [] ==> indices[|indices| - 1] == LastWhere(lines[..idx], IsContentLine).value
    {
      LastWhereSnoc(lines, idx, IsContentLine);
      var isContent := IsContent(lines[idx]);
      if isContent {
        indices := indices + [idx];
      }
      idx := idx + 1;
    }
    assert lines[..idx] == lines;
    last := if indices == [] then None else Some(indices[|indices| - 1]);
  }

  // ---------------------------------------------------------------------
  // The stack

  /** The text-backed blocker stack of src/blocker/operations.rs. */
  class BlockerText {
    var content: string

    /** `new`. */
    constructor(content: string)
      ensures this.content == content
    {
      this.content := content;
    }

    /** `current`: the last non-empty line not indented by a tab. */
    function Current(): Option<string>
      reads this
    {
      CurrentOf(Lines(content))
    }

    /** `current_with_context`. */
    function CurrentWithContext(hierarchy: seq<string>, parentHeaders: seq<string>): Option<string>
      reads this
    {
      ContextOf(Lines(content), hierarchy, parentHeaders)
    }

    /** `list`. */
    function List(): seq<BlockerOps.Entry>
      reads this
    {
      ListOf(Lines(content))
    }

    /** `is_empty`: there is no current line. */
    predicate IsEmpty()
      reads this
    {
      Current().None?
    }

    /** `add`: append the line and reformat; on a format error nothing changes. */
    method Add(newLine: string) returns (err: Option<FormatError>)
      modifies this
      ensures FormatFixed(Appended(old(content), newLine)).Ok? ==>
        err == None && content == FormatFixed(Appended(old(content), newLine)).value
      ensures FormatFixed(Appended(old(content), newLine)).Err? ==>
        err == Some(FormatFixed(Appended(old(content), newLine)).error) && content == old(content)
    {
      var lines := Lines(content);
      lines := lines + [newLine];
      var formatted := FormatFixed(Join(lines, "\n"));
      match formatted {
        case Ok(v) =>
          content := v;
          err := None;
        case Err(e) =>
          err := Some(e);
      }
    }

    /**
     * `pop`: remove the last header or item line together with every line
     * after it and reformat what is left; return the removed line. Without
     * such a line the text is only reformatted. On a format error nothing
     * changes.
     */
    method Pop() returns (r: Result<Option<string>, FormatError>)
      modifies this
      ensures FormatFixed(PopRest(old(content))).Ok? ==>
        r == Ok(PopRemoved(Lines(old(content)))) && content == FormatFixed(PopRest(old(content))).value
      ensures FormatFixed(PopRest(old(content))).Err? ==>
        r == Err(FormatFixed(PopRest(old(content))).error) && content == old(content)
    {
      var lines := Lines(content);
      var last := LastContentIndex(lines);
      var rest: string;
      var removed: Option<string>;
      match last {
        case Some(k) =>
          removed := Some(lines[k]);
          rest := Join(lines[..k], "\n");
        case None =>
          removed := None;
          rest := content;
      }
      var formatted := FormatFixed(rest);
      match formatted {
        case Ok(v) =>
          content := v;
          r := Ok(removed);
        case Err(e) =>
          r := Err(e);
      }
    }
  }

  /**
   * Without space-indented comments, `pop` removes exactly the line
   * `current` returned, and reports no line exactly when the stack is empty.
   */
  lemma PopTakesCurrent(content: string)
    requires NoSpaceIndent(Lines(content))
    ensures var ls := Lines(content);
      && (LastWhere(ls, IsContentLine).None? <==> CurrentOf(ls).None?)
      && (CurrentOf(ls).Some? ==> CurrentOf(ls).value == ls[LastWhere(ls, IsContentLine).value])
  {
    CandidateIsContent(Lines(content));
  }
}
