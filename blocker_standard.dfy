/**
 * src/blocker_interactions/standard.rs: the emptiness test of a blockers
 * text and `format_blocker_content`, the normaliser that validates comment
 * placement, rewrites every line in its canonical form, drops empty lines
 * outside code blocks and puts one empty line before a header unless the
 * line above is a header of strictly higher rank.
 */
module BlockerStandard {
  import opened Wrappers
  import opened Strings
  import opened IssueBlocker

  // ---------------------------------------------------------------------
  // Semantic emptiness

  /** `is_semantically_empty`: every classified line is a comment. */
  predicate IsSemanticallyEmpty(content: string) {
    var cls := ClassifyAll(Lines(content));
    forall k :: 0 <= k < |cls| ==> cls[k].Comment?
  }

  /** Only comments: nothing is left once the comments are removed. */
  lemma {:induction false} OnlyCommentsSkeleton(ls: seq<Line>)
    ensures (forall k :: 0 <= k < |ls| ==> ls[k].Comment?) <==> Skeleton(ls) == []
    decreases |ls|
  {
    if ls != [] {
      var init := ls[..|ls| - 1];
      OnlyCommentsSkeleton(init);
      assert forall k :: 0 <= k < |init| ==> init[k] == ls[k];
      if !ls[|ls| - 1].Comment? {
        assert |Skeleton(ls)| > 0;
      }
    }
  }

  /**
   * A text is semantically empty exactly when it has no header and no item
   * line; a tree whose lines keep the same headers and items (as `parse`
   * builds) then holds no item.
   */
  lemma SemanticallyEmptyParse(content: string, t: BlockerSequence)
    requires Skeleton(TreeLines(t)) == Skeleton(ClassifyAll(Lines(content)))
    ensures IsSemanticallyEmpty(content) <==> Skeleton(ClassifyAll(Lines(content))) == []
    ensures IsSemanticallyEmpty(content) ==> IsEmpty(t)
  {
    OnlyCommentsSkeleton(ClassifyAll(Lines(content)));
    if IsSemanticallyEmpty(content) {
      var ls := TreeLines(t);
      OnlyCommentsSkeleton(ls);
      IsEmptyNoItem(t);
    }
  }

  // ---------------------------------------------------------------------
  // Code blocks and comment placement

  const FENCE: string := "```"

  /** The line without its leading whitespace. */
  function Unindent(s: string): string {
    if s != [] && IsWhitespace(s[0]) then Unindent(s[1..]) else s
  }

  /** Dropping the leading tabs and then the leading whitespace drops the leading whitespace. */
  lemma {:induction false} UnindentIsTrimmed(s: string)
    ensures Unindent(s) == TrimStart(TrimStartMatches(s, '\t'))
    decreases |s|
  {
    if s != [] && IsWhitespace(s[0]) {
      UnindentIsTrimmed(s[1..]);
      if s[0] != '\t' {
        assert TrimStartMatches(s, '\t') == s;
        assert TrimStartMatches(s[1..], '\t') == s[1..] || s[1] == '\t';
        UnindentTrimStart(s);
      }
    }
  }

  lemma {:induction false} UnindentTrimStart(s: string)
    ensures Unindent(s) == TrimStart(s)
    decreases |s|
  {
    if s != [] && IsWhitespace(s[0]) {
      UnindentTrimStart(s[1..]);
    }
  }

  /**
   * A line that opens or closes a code block: after its leading tabs and
   * whitespace (`UnindentIsTrimmed`) come three backticks.
   */
  predicate IsFence(line: string) {
    StartsWith(Unindent(line), FENCE)
  }

  /** Whether a code block is open after the first `n` lines. */
  function InCode(ls: seq<string>, n: nat): bool
    requires n <= |ls|
  {
    if n == 0 then false else InCode(ls, n - 1) != IsFence(ls[n - 1])
  }

  /**
   * Line `i` is a comment outside any code block that is the first line or
   * follows an empty line.
   */
  predicate Misplaced(ls: seq<string>, i: nat)
    requires i < |ls|
  {
    !InCode(ls, i + 1) && IsCommentLine(ls[i]) && (i == 0 || ls[i - 1] == [])
  }

  /**
   * The lines `classify_line` reads as comments (`CommentLineIsComment`):
   * a leading tab, or two leading spaces before text not starting with `-`.
   */
  predicate IsCommentLine(x: string) {
    x != [] && (x[0] == '\t' || (StartsWith(x, TWO_SPACES) && !StartsWith(Unindent(x), DASH)))
  }

  lemma CommentLineIsComment(x: string)
    ensures IsCommentLine(x) <==> ClassifyLine(x).Some? && ClassifyLine(x).value.Comment?
  {
    UnindentTrimStart(x);
  }

  /** The two validation errors, with the 1-based line position. */
  datatype FormatError = CommentFirst(position: nat) | CommentAfterEmpty(position: nat)

  /** The error the first pass reports, scanning from line `from`: the first misplaced comment. */
  function FirstError(ls: seq<string>, from: nat): (r: Option<FormatError>)
    requires from <= |ls|
    ensures r.None? <==> forall i :: from <= i < |ls| ==> !Misplaced(ls, i)
    ensures r.Some? ==>
      var i := r.value.position - 1;
      && r.value.position >= 1 && from <= i < |ls| && Misplaced(ls, i)
      && (forall j :: from <= j < i ==> !Misplaced(ls, j))
      && (r.value.CommentFirst? <==> i == 0)
    decreases |ls| - from
  {
    if from == |ls| then None
    else if Misplaced(ls, from) then
      Some(if from == 0 then CommentFirst(1) else CommentAfterEmpty(from + 1))
    else FirstError(ls, from + 1)
  }

  /** The first loop of `format_blocker_content`. */
  method Validate(ls: seq<string>) returns (err: Option<FormatError>)
    ensures err == FirstError(ls, 0)
  {
    var inCode := false;
    var idx := 0;
    while idx < |ls|
      invariant idx <= |ls|
      invariant inCode == InCode(ls, idx)
      invariant FirstError(ls, 0) == FirstError(ls, idx)
    {
      var line := ls[idx];
      if IsFence(line) {
        inCode := !inCode;
      }
      if !inCode {
        CommentLineIsComment(line);
        match ClassifyLine(line)
          case Some(Comment(_)) =>
            if idx > 0 && ls[idx - 1] == [] {
              return Some(CommentAfterEmpty(idx + 1));
            }
            if idx == 0 {
              return Some(CommentFirst(idx + 1));
            }
          case _ =>
      }
      idx := idx + 1;
    }
    return None;
  }

  // ---------------------------------------------------------------------
  // The formatting pass

  /** `prev` reads as a header of strictly higher rank (fewer '#') than `level`. */
  predicate Outranks(prev: string, level: HeaderLevel) {
    var p := ClassifyLine(prev);
    p.Some? && p.value.Header? && ToNat(p.value.level) < ToNat(level)
  }

  /** One classified line appended in canonical form, after an empty line when a header needs one. */
  function Push(out: seq<string>, l: Line): seq<string> {
    if l.Header? && out != [] && !Outranks(out[|out| - 1], l.level) then out + ["", ToRaw(l)]
    else out + [ToRaw(l)]
  }

  /** One input line of the second loop, `inCode` being the state after this line's fence test. */
  function FormatStep(out: seq<string>, line: string, inCode: bool): seq<string> {
    match ClassifyLine(line)
      case None => if inCode then out + [""] else out
      case Some(l) => Push(out, l)
  }

  /** The formatted lines after the first `n` input lines. */
  function Formatted(ls: seq<string>, n: nat): seq<string>
    requires n <= |ls|
  {
    if n == 0 then [] else FormatStep(Formatted(ls, n - 1), ls[n - 1], InCode(ls, n))
  }

  /** The second loop of `format_blocker_content`. */
  method FormatLines(ls: seq<string>) returns (out: seq<string>)
    ensures out == Formatted(ls, |ls|)
  {
    out := [];
    var inCode := false;
    for i := 0 to |ls|
      invariant out == Formatted(ls, i)
      invariant inCode == InCode(ls, i)
    {
      var line := ls[i];
      if IsFence(line) {
        inCode := !inCode;
      }
      match ClassifyLine(line)
        case None =>
          if inCode {
            out := out + [""];
          }
        case Some(l) =>
          out := PushLine(out, l);
    }
  }

  /** The body of the second loop for a classified line. */
  method PushLine(out: seq<string>, l: Line) returns (out': seq<string>)
    ensures out' == Push(out, l)
  {
    match l
      case Comment(content) =>
        out' := out + ["\t" + content];
      case Header(level, text) =>
        out' := out;
        if out != [] {
          var needsSpace := match ClassifyLine(out[|out| - 1])
            case Some(Header(prevLevel, _)) => ToNat(prevLevel) >= ToNat(level)
            case _ => true;
          if needsSpace {
            out' := out' + [""];
          }
        }
        out' := out' + [Repeat('#', ToNat(level)) + " " + text];
      case Item(text) =>
        out' := out + [ITEM_PREFIX + text];
  }

  /** `format_blocker_content` on the lines of a text. */
  function FormatResult(ls: seq<string>): Result<string, FormatError> {
    match FirstError(ls, 0)
      case Some(e) => Err(e)
      case None => Ok(Join(Formatted(ls, |ls|), "\n"))
  }

  /** `format_blocker_content`. */
  method FormatBlockerContent(content: string) returns (r: Result<string, FormatError>)
    ensures r == FormatResult(Lines(content))
  {
    var ls := Lines(content);
    var err := Validate(ls);
    if err.Some? {
      return Err(err.value);
    }
    var out := FormatLines(ls);
    return Ok(Join(out, "\n"));
  }

  // ---------------------------------------------------------------------
  // What the formatter keeps

  /** The lines that are not empty. */
  function NonBlank(xs: seq<string>): seq<string> {
    if xs == [] then []
    else NonBlank(xs[..|xs| - 1]) + (if xs[|xs| - 1] == [] then [] else [xs[|xs| - 1]])
  }

  lemma {:induction false} NonBlankAppend(xs: seq<string>, ys: seq<string>)
    ensures NonBlank(xs + ys) == NonBlank(xs) + NonBlank(ys)
    decreases |ys|
  {
    if ys == [] {
      assert xs + ys == xs;
    } else {
      var init := ys[..|ys| - 1];
      assert (xs + ys)[..|xs + ys| - 1] == xs + init;
      NonBlankAppend(xs, init);
    }
  }

  lemma PushNonBlank(out: seq<string>, l: Line)
    ensures NonBlank(Push(out, l)) == NonBlank(out) + [ToRaw(l)]
  {
    if l.Header? && out != [] && !Outranks(out[|out| - 1], l.level) {
      NonBlankAppend(out, ["", ToRaw(l)]);
      assert ["", ToRaw(l)][..1] == [""];
    } else {
      NonBlankAppend(out, [ToRaw(l)]);
    }
  }

  lemma ClassifyAllPrefix(ls: seq<string>, n: nat)
    requires 0 < n <= |ls|
    ensures ClassifyAll(ls[..n]) == ClassifyAll(ls[..n - 1]) + (match ClassifyLine(ls[n - 1]) case Some(l) => [l] case None => [])
  {
    assert ls[..n][..n - 1] == ls[..n - 1];
  }

  /**
   * Whatever the code blocks, the non-empty output lines are exactly the
   * canonical forms of the classified input lines, in order: every item is
   * written `- text`, every comment `\ttext`, and no header, item or
   * comment is dropped.
   */
  lemma {:induction false} FormattedKeepsContent(ls: seq<string>, n: nat)
    requires n <= |ls|
    ensures NonBlank(Formatted(ls, n)) == RawLines(ClassifyAll(ls[..n]))
  {
    if n > 0 {
      FormattedKeepsContent(ls, n - 1);
      ClassifyAllPrefix(ls, n);
      var extra := match ClassifyLine(ls[n - 1]) case Some(l) => [l] case None => [];
      FormatStepNonBlank(Formatted(ls, n - 1), ls[n - 1], InCode(ls, n));
      RawLinesAppend(ClassifyAll(ls[..n - 1]), extra);
    }
  }

  /** One step of the second loop adds the canonical form of its line, if it has one, to the non-empty lines. */
  lemma FormatStepNonBlank(out: seq<string>, line: string, inCode: bool)
    ensures NonBlank(FormatStep(out, line, inCode))
         == NonBlank(out) + RawLines(match ClassifyLine(line) case Some(l) => [l] case None => [])
  {
    match ClassifyLine(line)
      case None =>
        NonBlankAppend(out, [""]);
        assert RawLines([]) == [];
      case Some(l) =>
        PushNonBlank(out, l);
        assert RawLines([l]) == [ToRaw(l)];
  }

  // ---------------------------------------------------------------------
  // The layout without code blocks

  /** An empty line goes before a header unless the line above is a header of strictly higher rank. */
  function Gap(prev: Line, l: Line): seq<string> {
    if l.Header? && !(prev.Header? && ToNat(prev.level) < ToNat(l.level)) then [""] else []
  }

  /** The intended layout of classified lines: each in canonical form, with the header gaps. */
  function Layout(cls: seq<Line>): seq<string> {
    if cls == [] then []
    else if |cls| == 1 then [ToRaw(cls[0])]
    else Layout(cls[..|cls| - 1]) + Gap(cls[|cls| - 2], cls[|cls| - 1]) + [ToRaw(cls[|cls| - 1])]
  }

  lemma LayoutLast(cls: seq<Line>)
    requires cls != []
    ensures Layout(cls) != [] && Layout(cls)[|Layout(cls)| - 1] == ToRaw(cls[|cls| - 1])
  {
  }

  /** A line that classifies back to itself from its canonical form. */
  predicate ReadsBack(l: Line) {
    ClassifyLine(ToRaw(l)) == Some(l)
  }

  /** A trimmed line starting with neither a tab nor two spaces is classified by its trimmed text. */
  lemma ClassifyTrimmedLine(t: string)
    requires t != [] && IsTrimmed(t)
    ensures ClassifyLine(t) == Some(ClassifyTrimmed(t))
  {
    TrimmedIsFixed(t);
    assert !StartsWith(t, TWO_SPACES) by {
      if |t| >= 2 {
        assert t[..|TWO_SPACES|][0] == t[0];
      }
    }
  }

  /** A non-empty trimmed text written as an item reads back as that item. */
  lemma ItemRawReadsBack(t: string)
    requires t != [] && IsTrimmed(t)
    ensures ClassifyLine(ITEM_PREFIX + t) == Some(Item(t))
  {
    var raw := ITEM_PREFIX + t;
    assert raw[0] == '-' && raw[|raw| - 1] == t[|t| - 1];
    ClassifyTrimmedLine(raw);
    assert StartsWith(raw, ITEM_PREFIX);
    assert raw[|ITEM_PREFIX|..] == t;
  }

  /** A header of the trimmed text is written back as that text. */
  lemma HeaderRawIsText(t: string)
    requires IsTrimmed(t) && ClassifyTrimmed(t).Header?
    ensures ToRaw(ClassifyTrimmed(t)) == t
  {
    var count := CountLeading(t, '#');
    FromNatToNat(FromNat(count).value);
    assert t == t[..count] + " " + t[count + 1..];
  }

  /** A non-empty trimmed text classifies into a line that reads back. */
  lemma TrimmedReadsBack(t: string)
    requires t != [] && IsTrimmed(t)
    ensures ReadsBack(ClassifyTrimmed(t))
  {
    var count := CountLeading(t, '#');
    if count > 0 && |t| > count && t[count] == ' ' {
      if count > 5 {
        ItemRawReadsBack(t);
      } else {
        HeaderRawIsText(t);
        ClassifyTrimmedLine(t);
      }
    } else if StartsWith(t, ITEM_PREFIX) {
      assert ToRaw(ClassifyTrimmed(t)) == t;
      ClassifyTrimmedLine(t);
    } else {
      ItemRawReadsBack(t);
    }
  }

  /** The three branches of `classify_line` on a non-empty line. */
  lemma ClassifyBranches(x: string)
    requires x != []
    ensures x[0] == '\t' ==> ClassifyLine(x) == Some(Comment(x[1..]))
    ensures x[0] != '\t' && IsCommentLine(x) ==> ClassifyLine(x) == Some(Comment(Unindent(x)))
    ensures !IsCommentLine(x) ==> ClassifyLine(x) == Some(ClassifyTrimmed(Trim(x))) && !ClassifyTrimmed(Trim(x)).Comment?
  {
    UnindentTrimStart(x);
    if x[0] == '\t' {
      ClassifyTab(x);
    } else if IsCommentLine(x) {
      ClassifyIndented(x);
    } else {
      ClassifyOther(x);
    }
  }

  lemma ClassifyTab(x: string)
    requires x != [] && x[0] == '\t'
    ensures ClassifyLine(x) == Some(Comment(x[1..])) && IsCommentLine(x)
  {
  }

  lemma ClassifyIndented(x: string)
    requires x != [] && x[0] != '\t' && IsCommentLine(x) && Unindent(x) == TrimStart(x)
    ensures ClassifyLine(x) == Some(Comment(Unindent(x)))
  {
  }

  lemma ClassifyOther(x: string)
    requires x != [] && !IsCommentLine(x) && Unindent(x) == TrimStart(x)
    ensures ClassifyLine(x) == Some(ClassifyTrimmed(Trim(x))) && !ClassifyTrimmed(Trim(x)).Comment?
  {
    assert x[0] != '\t' && !(StartsWith(x, TWO_SPACES) && !StartsWith(TrimStart(x), DASH));
    TrimmedNotComment(Trim(x));
  }

  lemma TrimmedNotComment(t: string)
    ensures !ClassifyTrimmed(t).Comment?
  {
  }

  /** Every classified line other than the blank item reads back from its canonical form. */
  lemma ClassifiedReadsBack(x: string)
    requires ClassifyLine(x).Some? && ClassifyLine(x).value != Item([])
    ensures ReadsBack(ClassifyLine(x).value)
  {
    ClassifyBranches(x);
    if x[0] == '\t' {
      assert ['\t'] + x[1..] == x;
    } else if IsCommentLine(x) {
      var u := Unindent(x);
      ClassifyBranches(['\t'] + u);
      assert (['\t'] + u)[1..] == u;
    } else {
      var t := Trim(x);
      TrimIsTrimmed(x);
      assert ClassifyTrimmed([]) == Item([]);
      assert t != [];
      TrimmedReadsBack(t);
    }
  }

  /** The canonical form of the blank item, `- `, is not a header. */
  lemma BlankItemRawIsItem()
    ensures ClassifyLine(ToRaw(Item([]))).Some? && ClassifyLine(ToRaw(Item([]))).value.Item?
  {
    assert ToRaw(Item([])) == ITEM_PREFIX;
    ItemPrefixIsDash();
  }

  /** A line as `classify_line` can produce it: it reads back, or it is the blank item. */
  predicate FromLine(l: Line) {
    ReadsBack(l) || l == Item([])
  }

  /** The header test on the canonical form of such a line sees the line's own header. */
  lemma OutranksRaw(l: Line, lv: HeaderLevel)
    requires FromLine(l)
    ensures Outranks(ToRaw(l), lv) <==> l.Header? && ToNat(l.level) < ToNat(lv)
  {
    if l == Item([]) {
      BlankItemRawIsItem();
    }
  }

  lemma ClassifiedFromLine(x: string)
    requires ClassifyLine(x).Some?
    ensures FromLine(ClassifyLine(x).value)
  {
    if ClassifyLine(x).value != Item([]) {
      ClassifiedReadsBack(x);
    }
  }

  lemma {:induction false} ClassifyAllFromLine(ls: seq<string>)
    ensures forall k :: 0 <= k < |ClassifyAll(ls)| ==> FromLine(ClassifyAll(ls)[k])
    decreases |ls|
  {
    if ls != [] {
      var init := ls[..|ls| - 1];
      var x := ls[|ls| - 1];
      ClassifyAllFromLine(init);
      SnocSplit(ls);
      match ClassifyLine(x)
        case None =>
          assert ClassifyAll(ls) == ClassifyAll(init);
        case Some(l) =>
          ClassifyAllSnoc(init, x, l);
          ClassifiedFromLine(x);
    }
  }

  predicate NoFence(ls: seq<string>) {
    forall k :: 0 <= k < |ls| ==> !IsFence(ls[k])
  }

  lemma {:induction false} NoFenceInCode(ls: seq<string>, n: nat)
    requires NoFence(ls) && n <= |ls|
    ensures !InCode(ls, n)
  {
    if n > 0 {
      NoFenceInCode(ls, n - 1);
    }
  }

  /** Pushing a line onto the layout of the lines before it gives the layout of them all. */
  lemma {:induction false} LayoutPush(before: seq<Line>, l: Line)
    requires before != [] ==> FromLine(before[|before| - 1])
    ensures Push(Layout(before), l) == Layout(before + [l])
  {
    if before == [] {
      assert before + [l] == [l];
    } else {
      var cls := before + [l];
      LayoutSnoc(cls);
      FrontOfSnoc(before, l);
      assert cls[|cls| - 2] == before[|before| - 1];
      LayoutLast(before);
      PushGap(Layout(before), before[|before| - 1], l);
    }
  }

  /** Pushing after the canonical form of `prev` adds the gap the layout puts there. */
  lemma PushGap(out: seq<string>, prev: Line, l: Line)
    requires out != [] && out[|out| - 1] == ToRaw(prev) && FromLine(prev)
    ensures Push(out, l) == out + Gap(prev, l) + [ToRaw(l)]
  {
    if l.Header? {
      OutranksRaw(prev, l.level);
    }
  }

  /**
   * Without code blocks the formatter produces exactly the intended layout
   * of the classified lines.
   */
  lemma {:induction false} FormattedIsLayout(ls: seq<string>, n: nat)
    requires NoFence(ls) && n <= |ls|
    ensures Formatted(ls, n) == Layout(ClassifyAll(ls[..n]))
  {
    if n > 0 {
      FormattedIsLayout(ls, n - 1);
      NoFenceInCode(ls, n);
      ClassifyAllPrefix(ls, n);
      ClassifyAllFromLine(ls[..n - 1]);
      FormatStepLayout(ClassifyAll(ls[..n - 1]), ls[n - 1]);
    }
  }

  /** One line outside a code block adds its classified form to the layout. */
  lemma FormatStepLayout(before: seq<Line>, line: string)
    requires forall k :: 0 <= k < |before| ==> FromLine(before[k])
    ensures FormatStep(Layout(before), line, false) == Layout(before + (match ClassifyLine(line) case Some(l) => [l] case None => []))
  {
    match ClassifyLine(line)
      case None =>
        assert before + [] == before;
      case Some(l) =>
        LayoutPush(before, l);
  }

  // ---------------------------------------------------------------------
  // Idempotence

  /** No line is a blank item: a non-empty line of whitespace that is not a comment. */
  predicate NoBlankItem(ls: seq<string>) {
    forall k :: 0 <= k < |ls| ==> ClassifyLine(ls[k]) != Some(Item([]))
  }

  predicate NoNewline(ls: seq<string>) {
    forall k :: 0 <= k < |ls| ==> '\n' !in ls[k]
  }

  lemma UnindentTwice(s: string)
    ensures Unindent(Unindent(s)) == Unindent(s)
  {
  }

  /** The canonical form of a non-comment line starts with `-` or `#`, so it is no fence. */
  lemma RawNotFence(l: Line)
    requires !l.Comment?
    ensures !IsFence(ToRaw(l))
  {
    var raw := ToRaw(l);
    assert raw[0] == '-' || raw[0] == '#';
    assert Unindent(raw) == raw;
    assert !StartsWith(raw, FENCE) by {
      if |raw| >= 3 {
        assert raw[..3][0] == raw[0];
      }
    }
  }

  /** The canonical form of a classified line is a code-block fence only if the line was one. */
  lemma FenceOfRaw(x: string)
    requires ClassifyLine(x).Some?
    ensures IsFence(ToRaw(ClassifyLine(x).value)) ==> IsFence(x)
  {
    ClassifyBranches(x);
    if x[0] == '\t' {
      assert ['\t'] + x[1..] == x;
    } else if IsCommentLine(x) {
      var u := Unindent(x);
      assert Unindent(['\t'] + u) == Unindent(u) by {
        assert (['\t'] + u)[1..] == u;
      }
      UnindentTwice(x);
    } else {
      RawNotFence(ClassifyLine(x).value);
    }
  }

  /** A line whose canonical form reads back, holds no line break and is no fence. */
  predicate Canonical(l: Line) {
    l != Item([]) && ReadsBack(l) && '\n' !in l.text && !IsFence(ToRaw(l))
  }

  /** Every line is canonical. */
  predicate AllCanonical(cls: seq<Line>) {
    cls == [] || (AllCanonical(cls[..|cls| - 1]) && Canonical(cls[|cls| - 1]))
  }

  lemma LineCanonical(x: string)
    requires ClassifyLine(x).Some? && ClassifyLine(x) != Some(Item([]))
    requires !IsFence(x) && '\n' !in x
    ensures Canonical(ClassifyLine(x).value)
  {
    ClassifiedReadsBack(x);
    FenceOfRaw(x);
    ClassifyNoNewline(x);
  }

  lemma {:induction false} ClassifyAllCanonical(ls: seq<string>)
    requires NoFence(ls) && NoBlankItem(ls) && NoNewline(ls)
    ensures AllCanonical(ClassifyAll(ls))
    decreases |ls|
  {
    if ls != [] {
      var init := ls[..|ls| - 1];
      var x := ls[|ls| - 1];
      ClassifyAllCanonical(init);
      SnocSplit(ls);
      match ClassifyLine(x)
        case None =>
          assert ClassifyAll(ls) == ClassifyAll(init);
        case Some(l) =>
          ClassifyAllSnoc(init, x, l);
          LineCanonical(x);
          var cls := ClassifyAll(ls);
          assert cls[..|cls| - 1] == ClassifyAll(init);
    }
  }

  /** Classification keeps a line free of line breaks. */
  lemma ClassifyNoNewline(x: string)
    requires ClassifyLine(x).Some? && '\n' !in x
    ensures '\n' !in ClassifyLine(x).value.text
  {
    if x[0] != '\t' && !(StartsWith(x, TWO_SPACES) && !StartsWith(TrimStart(x), DASH)) {
      TrimNoChar(x, '\n');
      var t := Trim(x);
      var count := CountLeading(t, '#');
      if count > 0 && |t| > count && t[count] == ' ' && count <= 5 {
        assert ClassifyLine(x).value.text == t[count + 1..];
      }
    }
  }

  /** The canonical form of a canonical line is no fence, has no line break and is no blank item. */
  lemma RawCanonical(l: Line)
    requires Canonical(l)
    ensures var raw := ToRaw(l);
      !IsFence(raw) && '\n' !in raw && raw != [] && ClassifyLine(raw) != Some(Item([]))
  {
    RawNoNewline(l);
  }

  /** The layout of canonical lines has no fence, no line break and no blank item, and ends with a line. */
  lemma {:induction false} LayoutCanonical(cls: seq<Line>)
    requires AllCanonical(cls)
    ensures var out := Layout(cls);
      && NoFence(out) && NoNewline(out) && NoBlankItem(out)
      && (out != [] ==> out[|out| - 1] != [])
    decreases |cls|
  {
    if cls != [] {
      var init := cls[..|cls| - 1];
      var last := cls[|cls| - 1];
      RawCanonical(last);
      LayoutLast(cls);
      if |cls| > 1 {
        LayoutCanonical(init);
        var gap := Gap(cls[|cls| - 2], last);
        assert !IsFence("") && ClassifyLine("") == None;
        LayoutSplit(Layout(init), gap, ToRaw(last));
      }
    }
  }

  /** The three facts hold of a concatenation when they hold of its parts. */
  lemma LayoutSplit(a: seq<string>, gap: seq<string>, raw: string)
    requires NoFence(a) && NoNewline(a) && NoBlankItem(a)
    requires gap == [] || gap == [""]
    requires !IsFence(raw) && '\n' !in raw && ClassifyLine(raw) != Some(Item([]))
    ensures var out := a + gap + [raw];
      NoFence(out) && NoNewline(out) && NoBlankItem(out)
  {
    var out := a + gap + [raw];
    assert !IsFence("") && ClassifyLine("") == None;
    forall k | 0 <= k < |out|
      ensures !IsFence(out[k]) && '\n' !in out[k] && ClassifyLine(out[k]) != Some(Item([]))
    {
      if k < |a| {
        assert out[k] == a[k];
      } else if k < |a| + |gap| {
        assert out[k] == "";
      } else {
        assert out[k] == raw;
      }
    }
  }

  /** Adding an empty line or none changes no classification. */
  lemma ClassifyAllGap(xs: seq<string>, gap: seq<string>)
    requires gap == [] || gap == [""]
    ensures ClassifyAll(xs + gap) == ClassifyAll(xs)
  {
    if gap == [] {
      assert xs + gap == xs;
    } else {
      assert (xs + gap)[..|xs|] == xs;
    }
  }

  /** When every line is canonical, classifying the layout gives the lines back. */
  lemma {:induction false} LayoutReadsBack(cls: seq<Line>)
    requires AllCanonical(cls)
    ensures ClassifyAll(Layout(cls)) == cls
    decreases |cls|
  {
    if |cls| == 1 {
      LayoutReadsBackOne(cls);
    } else if |cls| > 1 {
      LayoutReadsBack(cls[..|cls| - 1]);
      LayoutReadsBackStep(cls);
    }
  }

  lemma {:induction false} LayoutReadsBackStep(cls: seq<Line>)
    requires |cls| > 1
    requires ClassifyAll(Layout(cls[..|cls| - 1])) == cls[..|cls| - 1]
    requires ReadsBack(cls[|cls| - 1])
    ensures ClassifyAll(Layout(cls)) == cls
  {
    var init := cls[..|cls| - 1];
    var last := cls[|cls| - 1];
    LayoutSnoc(cls);
    LayoutStepReads(Layout(init), Gap(cls[|cls| - 2], last), last, init);
    SnocSplit(cls);
  }

  lemma LayoutSnoc(cls: seq<Line>)
    requires |cls| > 1
    ensures Layout(cls) == Layout(cls[..|cls| - 1]) + Gap(cls[|cls| - 2], cls[|cls| - 1]) + [ToRaw(cls[|cls| - 1])]
    ensures Gap(cls[|cls| - 2], cls[|cls| - 1]) == [] || Gap(cls[|cls| - 2], cls[|cls| - 1]) == [""]
  {
  }

  lemma LayoutReadsBackOne(cls: seq<Line>)
    requires |cls| == 1 && ReadsBack(cls[0])
    ensures ClassifyAll(Layout(cls)) == cls
  {
    ClassifyAllSnoc([], ToRaw(cls[0]), cls[0]);
    assert [] + [ToRaw(cls[0])] == Layout(cls);
    assert [] + [cls[0]] == cls;
  }

  lemma LayoutStepReads(a: seq<string>, gap: seq<string>, last: Line, init: seq<Line>)
    requires gap == [] || gap == [""]
    requires ReadsBack(last) && ClassifyAll(a) == init
    ensures ClassifyAll(a + gap + [ToRaw(last)]) == init + [last]
  {
    ClassifyAllGap(a, gap);
    ClassifyAllSnoc(a + gap, ToRaw(last), last);
  }

  /** In the layout a comment line never comes first and never follows an empty line. */
  lemma {:induction false} LayoutCommentsFollow(cls: seq<Line>)
    requires AllCanonical(cls)
    requires cls != [] ==> !cls[0].Comment?
    ensures forall k :: 0 <= k < |Layout(cls)| && IsCommentLine(Layout(cls)[k]) ==>
      k > 0 && Layout(cls)[k - 1] != []
    decreases |cls|
  {
    if cls != [] {
      var init := cls[..|cls| - 1];
      var last := cls[|cls| - 1];
      CommentLineIsComment(ToRaw(last));
      if |cls| == 1 {
        assert last == cls[0];
      } else {
        assert init[0] == cls[0];
        LayoutCommentsFollow(init);
        LayoutLast(init);
        var gap := Gap(cls[|cls| - 2], last);
        CommentsFollowStep(Layout(init), gap, ToRaw(last), last.Comment?);
      }
    }
  }

  lemma CommentsFollowStep(a: seq<string>, gap: seq<string>, raw: string, isComment: bool)
    requires a != [] && a[|a| - 1] != []
    requires gap == [] || gap == [""]
    requires forall k :: 0 <= k < |a| && IsCommentLine(a[k]) ==> k > 0 && a[k - 1] != []
    requires IsCommentLine(raw) ==> isComment
    requires isComment ==> gap == []
    ensures var out := a + gap + [raw];
      forall k :: 0 <= k < |out| && IsCommentLine(out[k]) ==> k > 0 && out[k - 1] != []
  {
    var out := a + gap + [raw];
    forall k | 0 <= k < |out| ensures IsCommentLine(out[k]) ==> k > 0 && out[k - 1] != [] {
      if k < |a| {
        assert out[k] == a[k];
        if IsCommentLine(a[k]) {
          assert out[k - 1] == a[k - 1];
        }
      } else if k < |a| + |gap| {
        assert out[k] == "";
      } else {
        assert out[k] == raw;
        if IsCommentLine(raw) {
          assert out[k - 1] == a[|a| - 1];
        }
      }
    }
  }

  /** The layout of canonical lines opening with a non-comment passes the comment-placement check. */
  lemma LayoutValid(cls: seq<Line>)
    requires AllCanonical(cls)
    requires cls != [] ==> !cls[0].Comment?
    ensures FirstError(Layout(cls), 0).None?
  {
    var out := Layout(cls);
    LayoutCanonical(cls);
    LayoutCommentsFollow(cls);
    forall i | 0 <= i < |out| ensures !Misplaced(out, i) {
    }
  }

  /** The first classified line of a valid text without code blocks is not a comment. */
  lemma {:induction false} ValidFirstNotComment(ls: seq<string>, n: nat)
    requires NoFence(ls) && n <= |ls|
    requires forall i :: 0 <= i < |ls| ==> !Misplaced(ls, i)
    ensures ClassifyAll(ls[..n]) == [] ==> forall i :: 0 <= i < n ==> ls[i] == []
    ensures ClassifyAll(ls[..n]) != [] ==> !ClassifyAll(ls[..n])[0].Comment?
  {
    if n > 0 {
      ValidFirstNotComment(ls, n - 1);
      ClassifyAllPrefix(ls, n);
      var before := ClassifyAll(ls[..n - 1]);
      if before == [] {
        match ClassifyLine(ls[n - 1])
          case None =>
          case Some(l) =>
            NoFenceInCode(ls, n);
            assert !Misplaced(ls, n - 1);
            CommentLineIsComment(ls[n - 1]);
            assert ClassifyAll(ls[..n]) == [l];
      } else {
        assert ClassifyAll(ls[..n])[0] == before[0];
      }
    }
  }

  /**
   * What formatting a text without code blocks or blank items writes: the
   * layout of its classified lines, whose lines are again canonical.
   */
  lemma FormatOutput(ls: seq<string>)
    requires NoFence(ls) && NoBlankItem(ls) && NoNewline(ls)
    requires FormatResult(ls).Ok?
    ensures var out := Layout(ClassifyAll(ls));
      && Lines(FormatResult(ls).value) == out
      && NoFence(out) && NoNewline(out) && NoBlankItem(out)
  {
    var cls := ClassifyAll(ls);
    assert ls[..|ls|] == ls;
    FormattedIsLayout(ls, |ls|);
    ClassifyAllCanonical(ls);
    LayoutCanonical(cls);
    LinesJoin(Layout(cls));
  }

  /**
   * Formatting is idempotent on texts without code blocks or blank items:
   * the output formats to itself.
   */
  lemma FormatIdempotent(ls: seq<string>)
    requires NoFence(ls) && NoBlankItem(ls) && NoNewline(ls)
    requires FormatResult(ls).Ok?
    ensures FormatResult(Lines(FormatResult(ls).value)) == FormatResult(ls)
  {
    var cls := ClassifyAll(ls);
    var v := FormatResult(ls).value;
    assert Lines(v) == Layout(cls) by {
      FormatOutput(ls);
    }
    assert FormatResult(Layout(cls)) == Ok(Join(Layout(cls), "\n")) by {
      ClassifyAllCanonical(ls);
      ValidFirstNotComment(ls, |ls|);
      assert ls[..|ls|] == ls;
      FormatOfLayout(cls);
    }
    assert v == Join(Layout(cls), "\n") by {
      assert ls[..|ls|] == ls;
      FormattedIsLayout(ls, |ls|);
    }
  }

  /** The layout of canonical lines opening with a non-comment formats to itself. */
  lemma FormatOfLayout(cls: seq<Line>)
    requires AllCanonical(cls)
    requires cls != [] ==> !cls[0].Comment?
    ensures FormatResult(Layout(cls)) == Ok(Join(Layout(cls), "\n"))
  {
    var out := Layout(cls);
    LayoutValid(cls);
    LayoutCanonical(cls);
    LayoutReadsBack(cls);
    assert out[..|out|] == out;
    FormattedIsLayout(out, |out|);
  }

  /** The same law stated on texts. */
  lemma FormatContentIdempotent(content: string)
    requires NoFence(Lines(content)) && NoBlankItem(Lines(content))
    requires FormatResult(Lines(content)).Ok?
    ensures FormatResult(Lines(FormatResult(Lines(content)).value)) == FormatResult(Lines(content))
  {
    FormatIdempotent(Lines(content));
  }

  // ---------------------------------------------------------------------
  // Blank items

  const SPACE_LINE: string := " "

  /** A single line that is neither a comment nor a fence formats to its canonical form. */
  lemma OneLineFormat(x: string, l: Line)
    requires ClassifyLine(x) == Some(l) && !IsCommentLine(x) && !IsFence(x)
    ensures FormatResult([x]) == Ok(ToRaw(l))
  {
    var ls := [x];
    assert !Misplaced(ls, 0);
    assert FirstError(ls, 1) == None;
    assert FirstError(ls, 0) == None;
    FormattedIsLayout(ls, 1);
    assert ls[..1] == ls;
    ClassifyAllSnoc([], x, l);
    assert [] + [x] == ls;
    assert Layout([l]) == [ToRaw(l)];
  }

  lemma SpaceLineIsBlankItem()
    ensures ClassifyLine(SPACE_LINE) == Some(Item([]))
    ensures !IsCommentLine(SPACE_LINE) && !IsFence(SPACE_LINE)
    ensures Lines(SPACE_LINE) == [SPACE_LINE]
  {
    LinesJoin([SPACE_LINE]);
    assert !StartsWith(SPACE_LINE, TWO_SPACES);
    assert TrimStart(SPACE_LINE) == [];
    assert Unindent(SPACE_LINE) == [];
  }

  lemma ItemPrefixIsDash()
    ensures ClassifyLine(ITEM_PREFIX) == Some(Item(DASH))
    ensures !IsCommentLine(ITEM_PREFIX) && !IsFence(ITEM_PREFIX)
    ensures Lines(ITEM_PREFIX) == [ITEM_PREFIX]
  {
    LinesJoin([ITEM_PREFIX]);
    ItemPrefixNotIndented();
    ItemPrefixTrims();
    DashIsItem();
  }

  /** `- ` opens with neither a tab, two spaces nor a fence. */
  lemma ItemPrefixNotIndented()
    ensures ITEM_PREFIX[0] == '-' && !StartsWith(ITEM_PREFIX, TWO_SPACES)
    ensures !IsCommentLine(ITEM_PREFIX) && !IsFence(ITEM_PREFIX)
  {
    assert ITEM_PREFIX[..2][0] == '-';
    assert Unindent(ITEM_PREFIX) == ITEM_PREFIX;
  }

  /** `- ` trims to `-`. */
  lemma ItemPrefixTrims()
    ensures Trim(ITEM_PREFIX) == DASH
  {
    assert TrimStart(ITEM_PREFIX) == ITEM_PREFIX;
    assert ITEM_PREFIX[..1] == DASH;
    assert TrimEnd(DASH) == DASH;
  }

  /** `-` alone is an item whose text is `-`. */
  lemma DashIsItem()
    ensures ClassifyTrimmed(DASH) == Item(DASH)
  {
    assert CountLeading(DASH, '#') == 0;
    assert !StartsWith(DASH, ITEM_PREFIX);
  }

  /**
   * As written, a line of one space is classified as an item with empty
   * text and written `- `, which the next formatting reads as the item `-`
   * and writes `- -`: formatting is not idempotent on it.
   */
  lemma BlankItemNotIdempotent()
    ensures FormatResult(Lines(SPACE_LINE)) == Ok(ITEM_PREFIX)
    ensures FormatResult(Lines(ITEM_PREFIX)) == Ok(ITEM_PREFIX + DASH)
  {
    SpaceLineFormats();
    ItemPrefixFormats();
  }

  lemma SpaceLineFormats()
    ensures FormatResult(Lines(SPACE_LINE)) == Ok(ITEM_PREFIX)
  {
    SpaceLineIsBlankItem();
    OneLineFormat(SPACE_LINE, Item([]));
    assert ITEM_PREFIX + [] == ITEM_PREFIX;
  }

  lemma ItemPrefixFormats()
    ensures FormatResult(Lines(ITEM_PREFIX)) == Ok(ITEM_PREFIX + DASH)
  {
    ItemPrefixIsDash();
    OneLineFormat(ITEM_PREFIX, Item(DASH));
  }

  /**
   * The evident intent: a line that would become a blank item counts as an
   * empty line, both for the comment-placement check and for the layout.
   */
  function BlankEmptyItem(line: string): string {
    if IsBlankItem(line) then [] else line
  }

  /**
   * The lines `classify_line` reads as the blank item (`BlankItemIff`): a
   * non-empty run of whitespace that starts with neither a tab nor two
   * spaces.
   */
  predicate IsBlankItem(line: string) {
    line != [] && line[0] != '\t' && !StartsWith(line, TWO_SPACES) && Unindent(line) == []
  }

  lemma BlankItemIff(line: string)
    ensures IsBlankItem(line) <==> ClassifyLine(line) == Some(Item([]))
  {
    UnindentTrimStart(line);
    if line != [] && line[0] != '\t' {
      if TrimStart(line) == [] {
        BlankLineIsBlankItem(line);
      } else {
        FilledLineNotBlank(line);
      }
    }
  }

  /** A line of whitespace not opened by a tab reads as the blank item, or as a blank comment after two spaces. */
  lemma BlankLineIsBlankItem(line: string)
    requires line != [] && line[0] != '\t' && TrimStart(line) == []
    ensures !StartsWith(line, TWO_SPACES) ==> ClassifyLine(line) == Some(Item([]))
    ensures StartsWith(line, TWO_SPACES) ==> ClassifyLine(line) == Some(Comment([]))
  {
    assert Trim(line) == [];
    assert ClassifyTrimmed([]) == Item([]);
    assert !StartsWith([], DASH);
  }

  /** A line with text is never the blank item. */
  lemma FilledLineNotBlank(line: string)
    requires line != [] && TrimStart(line) != []
    ensures ClassifyLine(line) != Some(Item([]))
  {
    if line[0] != '\t' && !(StartsWith(line, TWO_SPACES) && !StartsWith(TrimStart(line), DASH)) {
      assert ClassifyLine(line) == Some(ClassifyTrimmed(Trim(line)));
      TrimStartKept(line);
      TrimIsTrimmed(line);
      TrimmedNotBlank(Trim(line));
    }
  }

  /** A non-empty trimmed text is never classified as the blank item. */
  lemma TrimmedNotBlank(t: string)
    requires t != [] && IsTrimmed(t)
    ensures ClassifyTrimmed(t) != Item([])
  {
    var count := CountLeading(t, '#');
    if !(count > 0 && |t| > count && t[count] == ' ') && StartsWith(t, ITEM_PREFIX) {
      assert |t| > 2;
    }
  }

  /** `format_blocker_content` with blank items read as empty lines. */
  function FormatFixed(content: string): Result<string, FormatError> {
    FormatResult(MapSeq(Lines(content), BlankEmptyItem))
  }

  /** The corrected formatter is idempotent on every text without code blocks. */
  lemma FormatFixedIdempotent(content: string)
    requires NoFence(Lines(content))
    requires FormatFixed(content).Ok?
    ensures FormatFixed(FormatFixed(content).value) == FormatFixed(content)
  {
    var ls := MapSeq(Lines(content), BlankEmptyItem);
    forall k | 0 <= k < |ls| ensures !IsFence(ls[k]) && '\n' !in ls[k] && ClassifyLine(ls[k]) != Some(Item([])) {
      assert ls[k] == [] || ls[k] == Lines(content)[k];
      BlankItemIff(Lines(content)[k]);
    }
    FormatIdempotent(ls);
    FormatOutput(ls);
    var out := Lines(FormatResult(ls).value);
    forall k | 0 <= k < |out| ensures BlankEmptyItem(out[k]) == out[k] {
      BlankItemIff(out[k]);
    }
    assert MapSeq(out, BlankEmptyItem) == out;
  }
}
