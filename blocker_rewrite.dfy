/**
 * The trailing-list extractor of src/blocker_rewrite.rs: the blockers of
 * an issue file are the list items of the last list block of its body,
 * where the body is the tab-indented text between the title line and the
 * first sub-issue or comment marker.
 *
 * The file's `sanitize_title_for_filename` is `Sanitize.SanitizeTitle` and
 * its `normalize_issue_indentation` is `Indentation.Normalized`.
 */
module BlockerRewrite {
  import opened Wrappers
  import opened Strings
  import Indentation

  /** A blocker entry: its text and whether its checkbox is ticked. */
  datatype BlockerEntry = BlockerEntry(text: string, completed: bool)

  // ---------------------------------------------------------------------
  // List items

  const UNCHECKED: string := "- [ ] "
  const CHECKED_LOWER: string := "- [x] "
  const CHECKED_UPPER: string := "- [X] "
  const DOT: string := ". "

  /** Starts with "- ", "* " or "+ ". */
  predicate IsBullet(t: string) {
    |t| >= 2 && (t[0] == '-' || t[0] == '*' || t[0] == '+') && t[1] == ' '
  }

  /** Starts with "- [ ] ", "- [x] " or "- [X] ". */
  predicate IsCheckbox(t: string) {
    |t| >= 6 && t[0] == '-' && t[1] == ' ' && t[2] == '[' && (t[3] == ' ' || t[3] == 'x' || t[3] == 'X')
    && t[4] == ']' && t[5] == ' '
  }

  lemma CheckboxPrefixes(t: string)
    ensures IsCheckbox(t) <==> StartsWith(t, UNCHECKED) || StartsWith(t, CHECKED_LOWER) || StartsWith(t, CHECKED_UPPER)
    ensures IsCheckbox(t) ==> (t[3] != ' ' <==> StartsWith(t, CHECKED_LOWER) || StartsWith(t, CHECKED_UPPER))
  {
    if |t| >= 6 {
      assert StartsWith(t, UNCHECKED) <==> t[..6] == UNCHECKED;
    }
  }

  /** The first index from `i` on where ". " occurs (`str::find`). */
  function FindDot(t: string, i: nat): (r: Option<nat>)
    requires i <= |t|
    decreases |t| - i
    ensures r.Some? ==> i <= r.value && r.value + 2 <= |t| && t[r.value] == '.' && t[r.value + 1] == ' '
  {
    if i + 2 > |t| then None
    else if t[i] == '.' && t[i + 1] == ' ' then Some(i)
    else FindDot(t, i + 1)
  }

  /**
   * The position of the first ". ", when every character before it is a
   * digit; an empty number passes.
   */
  function OrderedNumber(t: string): (r: Option<nat>)
    ensures r.Some? ==> r.value + 2 <= |t| && AllDigits(t[..r.value])
  {
    match FindDot(t, 0)
      case Some(p) => if AllDigits(t[..p]) then Some(p) else None
      case None => None
  }

  /** `is_list_item` on trimmed text: a bullet, a checkbox, or a number followed by ". ". */
  predicate IsItemText(t: string) {
    IsBullet(t) || IsCheckbox(t) || OrderedNumber(t).Some?
  }

  /** `is_list_item`, which trims its argument first. */
  predicate IsListItem(line: string) {
    IsItemText(Strip(line))
  }

  /** `parse_list_item` on trimmed text. */
  function ParseItemText(t: string): (r: Option<BlockerEntry>)
    ensures r.Some? <==> IsItemText(t)
    ensures r.Some? ==> (r.value.completed <==> IsCheckbox(t) && t[3] != ' ')
  {
    if IsCheckbox(t) then Some(BlockerEntry(Strip(t[6..]), t[3] != ' '))
    else if IsBullet(t) then Some(BlockerEntry(Strip(t[2..]), false))
    else
      match OrderedNumber(t)
        case Some(p) => Some(BlockerEntry(Strip(t[p + 2..]), false))
        case None => None
  }

  /** `parse_list_item`, which trims its argument first. */
  function ParseListItem(line: string): (r: Option<BlockerEntry>)
    ensures r.Some? <==> IsListItem(line)
  {
    ParseItemText(Strip(line))
  }

  /**
   * An item counts as completed exactly when it starts with "- [x] " or
   * "- [X] ".
   */
  lemma CompletedIffTicked(line: string)
    requires IsListItem(line)
    ensures ParseListItem(line).value.completed
      <==> StartsWith(Strip(line), CHECKED_LOWER) || StartsWith(Strip(line), CHECKED_UPPER)
  {
    CheckboxPrefixes(Strip(line));
    if !IsCheckbox(Strip(line)) {
      assert !StartsWith(Strip(line), CHECKED_LOWER) && !StartsWith(Strip(line), CHECKED_UPPER);
    }
  }

  const BOX_OPEN: string := "- ["
  const BOX_CLOSE: string := "] "

  /** A line that starts with a non-blank character and ends with trimmed text is trimmed. */
  lemma TrimmedLine(a: string, text: string)
    requires a != [] && !IsWhitespace(a[0])
    requires text != [] && IsTrimmed(text)
    ensures Strip(a + text) == a + text
  {
    var line := a + text;
    assert line[0] == a[0] && line[|line| - 1] == text[|text| - 1];
    TrimmedIsFixed(line);
    StripIsTrim(line);
  }

  /** A checkbox item's text is the rest of the line; it is ticked unless the box is blank. */
  lemma CheckboxEntry(mark: char, text: string)
    requires mark == ' ' || mark == 'x' || mark == 'X'
    requires text != [] && IsTrimmed(text)
    ensures ParseListItem(BOX_OPEN + [mark] + BOX_CLOSE + text) == Some(BlockerEntry(text, mark != ' '))
  {
    var box := BOX_OPEN + [mark] + BOX_CLOSE;
    var line := box + text;
    assert Strip(line) == line by {
      assert box[0] == '-';
      TrimmedLine(box, text);
    }
    assert IsCheckbox(line) && line[3] == mark;
    assert line[6..] == text;
    TrimmedIsFixed(text);
    StripIsTrim(text);
  }

  /** A bullet item's text is the rest of the line, and it is open. */
  lemma BulletEntry(bullet: char, text: string)
    requires bullet == '-' || bullet == '*' || bullet == '+'
    requires text != [] && IsTrimmed(text)
    requires !IsCheckbox([bullet, ' '] + text)
    ensures ParseListItem([bullet, ' '] + text) == Some(BlockerEntry(text, false))
  {
    var line := [bullet, ' '] + text;
    assert ParseListItem(line) == ParseItemText(line) by {
      TrimmedLine([bullet, ' '], text);
    }
    assert line[2..] == text;
    assert Strip(text) == text by {
      TrimmedIsFixed(text);
      StripIsTrim(text);
    }
    OpenItemText(line, 2);
  }

  /** Open item text: what follows the item's prefix, trimmed. */
  lemma OpenItemText(t: string, n: nat)
    requires n == 2 <= |t| && IsBullet(t) && !IsCheckbox(t)
    ensures ParseItemText(t) == Some(BlockerEntry(Strip(t[n..]), false))
  {
  }

  /** `FindDot` stops at the first ". ". */
  lemma {:induction false} FindDotAt(t: string, i: nat, p: nat)
    requires i <= p && p + 2 <= |t| && t[p] == '.' && t[p + 1] == ' '
    requires forall j :: i <= j < p ==> t[j] != '.'
    ensures FindDot(t, i) == Some(p)
    decreases p - i
  {
    if i < p {
      FindDotAt(t, i + 1, p);
    }
  }

  /** A numbered item "n. text" is an open entry with that text. */
  lemma OrderedEntry(digits: string, text: string)
    requires digits != [] && AllDigits(digits)
    requires text != [] && IsTrimmed(text)
    ensures ParseListItem(digits + DOT + text) == Some(BlockerEntry(text, false))
  {
    var line := digits + DOT + text;
    assert ParseListItem(line) == ParseItemText(line) by {
      assert line == (digits + DOT) + text;
      assert IsDigit((digits + DOT)[0]);
      TrimmedLine(digits + DOT, text);
    }
    assert OrderedNumber(line) == Some(|digits|) by {
      NumberedLine(digits, text);
    }
    assert line[|digits| + 2..] == text;
    assert Strip(text) == text by {
      TrimmedIsFixed(text);
      StripIsTrim(text);
    }
    assert !IsBullet(line) && !IsCheckbox(line) by {
      DigitFirst(line);
    }
    OrderedItemText(line, |digits|);
  }

  lemma NumberedLine(digits: string, text: string)
    requires digits != [] && AllDigits(digits)
    ensures OrderedNumber(digits + DOT + text) == Some(|digits|)
  {
    var line := digits + DOT + text;
    assert FindDot(line, 0) == Some(|digits|) by {
      forall j | 0 <= j < |digits| ensures line[j] != '.' {
        assert line[j] == digits[j];
      }
      FindDotAt(line, 0, |digits|);
    }
    assert line[..|digits|] == digits;
  }

  lemma DigitFirst(t: string)
    requires t != [] && IsDigit(t[0])
    ensures !IsBullet(t) && !IsCheckbox(t)
  {
  }

  /** Numbered item text: what follows the first ". ", trimmed. */
  lemma OrderedItemText(t: string, p: nat)
    requires !IsBullet(t) && !IsCheckbox(t) && OrderedNumber(t) == Some(p)
    ensures ParseItemText(t) == Some(BlockerEntry(Strip(t[p + 2..]), false))
  {
  }

  // ---------------------------------------------------------------------
  // The body of the issue

  const LABELS_MD: string := "**Labels:**"
  const LABELS_TYP: string := "*Labels:*"
  const SUB_OPEN: string := "<!--sub "
  const MARKER_OPEN: string := "<!--"
  const MARKER_CLOSE: string := "-->"
  const TYP_SUB: string := " // sub "
  const ISSUE_COMMENT: string := "#issuecomment"
  const NEW_COMMENT_MD: string := "<!--new comment-->"
  const NEW_COMMENT_TYP: string := "// new comment"
  const TYP_COMMENT: string := "// "
  const TAB: string := "\t"

  /** The line without one leading tab. */
  function StripTab(line: string): (r: string)
    ensures StartsWith(line, TAB) ==> TAB + r == line
    ensures !StartsWith(line, TAB) ==> r == line
  {
    if StartsWith(line, TAB) then line[1..] else line
  }

  predicate IsLabelsLine(s: string) {
    StartsWith(s, LABELS_MD) || StartsWith(s, LABELS_TYP)
  }

  predicate IsSubIssueMarker(s: string) {
    (Contains(s, SUB_OPEN) && Contains(s, MARKER_CLOSE)) || Contains(s, TYP_SUB)
  }

  predicate IsCommentMarker(s: string) {
    || (Contains(s, MARKER_OPEN) && Contains(s, ISSUE_COMMENT))
    || Contains(s, NEW_COMMENT_MD)
    || Contains(s, NEW_COMMENT_TYP)
    || (StartsWith(s, TYP_COMMENT) && Contains(s, ISSUE_COMMENT))
  }

  /**
   * A line after the title that ends the body: a sub-issue or comment
   * marker, once one tab is stripped, that is not a labels line.
   */
  predicate EndsBody(line: string) {
    var s := StripTab(line);
    !IsLabelsLine(s) && (IsSubIssueMarker(s) || IsCommentMarker(s))
  }

  /** The first index from `i` on whose line ends the body, or `|lines|`. */
  function FirstBodyEnd(lines: seq<string>, i: nat): (e: nat)
    requires i <= |lines|
    decreases |lines| - i
    ensures i <= e <= |lines|
    ensures forall k :: i <= k < e ==> !EndsBody(lines[k])
    ensures e < |lines| ==> EndsBody(lines[e])
  {
    if i == |lines| then i
    else if EndsBody(lines[i]) then i
    else
      var e := FirstBodyEnd(lines, i + 1);
      assert forall k :: i < k < e ==> !EndsBody(lines[k]);
      e
  }

  /** Where the body ends: the first marker line after the title. */
  function BodyEnd(lines: seq<string>): (e: nat)
    ensures e <= |lines|
    ensures lines != [] ==> e >= 1
  {
    if lines == [] then 0 else FirstBodyEnd(lines, 1)
  }

  /** The body lines: those that start with a tab, with that tab removed. */
  function BodyLines(ls: seq<string>): (r: seq<string>)
    ensures |r| <= |ls|
  {
    if ls == [] then []
    else
      var init := BodyLines(ls[..|ls| - 1]);
      var last := ls[|ls| - 1];
      if StartsWith(last, TAB) then init + [last[1..]] else init
  }

  /**
   * The slice of lines the source takes as the body, `lines[1..end]`, with
   * `None` where the slice panics because its start lies past its end.
   */
  function BodySliceAsWritten(lines: seq<string>): (r: Option<seq<string>>)
    ensures r.None? <==> lines == []
    ensures r.Some? ==> |r.value| < |lines| && r.value == lines[1..|r.value| + 1]
    ensures r.Some? ==> forall k :: 0 <= k < |r.value| ==> !EndsBody(r.value[k])
    ensures r.Some? && |r.value| + 1 < |lines| ==> EndsBody(lines[|r.value| + 1])
  {
    var e := BodyEnd(lines);
    if 1 > e then None else Some(lines[1..e])
  }

  /** Empty issue content leaves no line, so the body slice panics. */
  lemma EmptyContentSliceAsWritten()
    ensures BodySliceAsWritten(Lines(Indentation.Normalized([]))).None?
  {
    assert Lines([]) == [];
    assert Indentation.NormalizedLines([], Indentation.DetectWidth([])) == [];
  }

  /** The body of the issue, and no body when there is not even a title line. */
  function Body(lines: seq<string>): seq<string> {
    if lines == [] then [] else BodyLines(lines[1..BodyEnd(lines)])
  }

  /**
   * Whatever follows the first marker line does not reach the body: the
   * body of a file is read from the lines before its first sub-issue or
   * comment marker.
   */
  lemma BodyStopsAtMarker(pre: seq<string>, marker: string, post: seq<string>)
    requires pre != [] && EndsBody(marker)
    requires forall k :: 1 <= k < |pre| ==> !EndsBody(pre[k])
    ensures Body(pre + [marker] + post) == BodyLines(pre[1..])
  {
    var lines := pre + [marker] + post;
    assert BodyEnd(lines) == |pre| by {
      FirstBodyEndAt(lines, 1, |pre|);
    }
    assert lines[1..|pre|] == pre[1..];
  }

  lemma FirstBodyEndAt(lines: seq<string>, i: nat, e: nat)
    requires i <= e < |lines| && EndsBody(lines[e])
    requires forall k :: i <= k < e ==> !EndsBody(lines[k])
    ensures FirstBodyEnd(lines, i) == e
  {
  }

  /** A sub-issue marker line ends the body. */
  lemma SubIssueLineEndsBody(url: string)
    ensures EndsBody(TAB + SUB_OPEN + url + MARKER_CLOSE)
  {
    var line := TAB + SUB_OPEN + url + MARKER_CLOSE;
    var s := SUB_OPEN + url + MARKER_CLOSE;
    assert StripTab(line) == s by {
      assert line[..1] == TAB;
      assert line[1..] == s;
    }
    assert !IsLabelsLine(s) by { assert s[0] == '<'; }
    ContainsPrefix(s, SUB_OPEN);
    ContainsMiddle(SUB_OPEN + url, MARKER_CLOSE, []);
    assert SUB_OPEN + url + MARKER_CLOSE + [] == s;
  }

  // ---------------------------------------------------------------------
  // The trailing list

  /** What the list scan sees in a body line. */
  datatype LineKind = ListItem | Blank | Text

  /**
   * The kind of a body line. The source trims the line and `is_list_item`
   * trims it again; trimming twice is trimming once (`TrimTwice`).
   */
  function KindOf(line: string): LineKind {
    if IsListItem(line) then ListItem
    else if Strip(line) == [] then Blank
    else Text
  }

  lemma TrimTwice(line: string)
    ensures Strip(Strip(line)) == Strip(line)
  {
    StripIsTrim(line);
    StripIsTrim(Trim(line));
    TrimIsTrimmed(line);
    TrimmedIsFixed(Trim(line));
  }

  /** The kind of every body line. */
  function Kinds(body: seq<string>): (r: seq<LineKind>)
    ensures |r| == |body|
  {
    if body == [] then [] else Kinds(body[..|body| - 1]) + [KindOf(body[|body| - 1])]
  }

  lemma {:induction false} KindsAt(body: seq<string>, i: nat)
    requires i < |body|
    ensures Kinds(body)[i] == KindOf(body[i])
  {
    if i < |body| - 1 {
      KindsAt(body[..|body| - 1], i);
    }
  }

  /** Where the maximal run of list items and blank lines at the end starts. */
  function BlockStart(kinds: seq<LineKind>): (j: nat)
    ensures j <= |kinds|
    ensures forall k :: j <= k < |kinds| ==> kinds[k] != Text
    ensures j == 0 || kinds[j - 1] == Text
  {
    if kinds == [] then 0
    else if kinds[|kinds| - 1] != Text then BlockStart(kinds[..|kinds| - 1])
    else |kinds|
  }

  lemma BlockStartSnoc(kinds: seq<LineKind>, i: nat)
    requires i < |kinds|
    ensures BlockStart(kinds[..i + 1]) == if kinds[i] != Text then BlockStart(kinds[..i]) else i + 1
  {
    assert kinds[..i + 1][..i] == kinds[..i];
  }

  lemma {:induction false} BlockStartNoText(kinds: seq<LineKind>)
    requires forall k :: 0 <= k < |kinds| ==> kinds[k] != Text
    ensures BlockStart(kinds) == 0
  {
    if kinds != [] {
      BlockStartNoText(kinds[..|kinds| - 1]);
    }
  }

  /** The entry a body line stands for, if it is a list item. */
  function EntryOf(line: string): seq<BlockerEntry> {
    match ParseListItem(line)
      case Some(e) => [e]
      case None => []
  }

  /** The entries of the list items among `ls`, in order. */
  function Entries(ls: seq<string>): (r: seq<BlockerEntry>)
    ensures |r| <= |ls|
  {
    if ls == [] then [] else EntryOf(ls[0]) + Entries(ls[1..])
  }

  lemma {:induction false} EntriesAppend(a: seq<string>, b: seq<string>)
    ensures Entries(a + b) == Entries(a) + Entries(b)
  {
    if a != [] {
      assert (a + b)[0] == a[0];
      assert (a + b)[1..] == a[1..] + b;
      EntriesAppend(a[1..], b);
    } else {
      assert a + b == b;
    }
  }

  /** Blank lines contribute no entry. */
  lemma {:induction false} EntriesOfBlanks(ls: seq<string>)
    requires forall k :: 0 <= k < |ls| ==> KindOf(ls[k]) == Blank
    ensures Entries(ls) == []
  {
    if ls != [] {
      EntriesOfBlanks(ls[1..]);
    }
  }

  /**
   * The blockers of a body: the entries of its final block of list items
   * and blank lines, when that block holds a list item; none otherwise.
   */
  function TrailingBlockers(body: seq<string>): seq<BlockerEntry> {
    var j := BlockStart(Kinds(body));
    if ListItem in Kinds(body)[j..] then Entries(body[j..]) else []
  }

  /** A line of text that is not a list item at the end leaves no blockers. */
  lemma TrailingTextNoBlockers(body: seq<string>)
    requires body != [] && KindOf(body[|body| - 1]) == Text
    ensures TrailingBlockers(body) == []
  {
    KindsAt(body, |body| - 1);
    assert Kinds(body)[BlockStart(Kinds(body))..] == [];
  }

  /** A body made only of list items yields one entry per line, in order. */
  lemma AllItemsAreBlockers(body: seq<string>)
    requires body != []
    requires forall k :: 0 <= k < |body| ==> IsListItem(body[k])
    ensures TrailingBlockers(body) == Entries(body)
    ensures |Entries(body)| == |body|
  {
    var kinds := Kinds(body);
    assert BlockStart(kinds) == 0 by {
      forall k | 0 <= k < |kinds| ensures kinds[k] != Text {
        KindsAt(body, k);
        assert IsListItem(body[k]);
      }
      BlockStartNoText(kinds);
    }
    assert kinds[0] == ListItem by {
      KindsAt(body, 0);
      assert IsListItem(body[0]);
    }
    assert body[0..] == body && kinds[0..] == kinds;
    EntriesOfItems(body);
  }

  lemma {:induction false} EntriesOfItems(ls: seq<string>)
    requires forall k :: 0 <= k < |ls| ==> IsListItem(ls[k])
    ensures |Entries(ls)| == |ls|
  {
    if ls != [] {
      assert IsListItem(ls[0]);
      EntriesOfItems(ls[1..]);
    }
  }

  /** `parse_blockers_from_issue`, with empty content giving no blockers. */
  function Blockers(content: string): (r: seq<BlockerEntry>)
    ensures content == [] ==> r == []
  {
    EmptyNormalizedBody();
    TrailingBlockers(Body(Lines(Indentation.Normalized(content))))
  }

  /** Empty content normalises to a text with no lines, whose body has no blockers. */
  lemma EmptyNormalizedBody()
    ensures TrailingBlockers(Body(Lines(Indentation.Normalized([])))) == []
  {
    assert Lines([]) == [];
    assert Indentation.NormalizedLines([], Indentation.DetectWidth([])) == [];
    assert Body([]) == [];
    assert TrailingBlockers([]) == [];
  }

  // ---------------------------------------------------------------------
  // The scans

  /** The loop that looks for the first marker line after the title. */
  method FindBodyEnd(lines: seq<string>) returns (e: nat)
    ensures e == BodyEnd(lines)
  {
    if lines == [] {
      return 0;
    }
    e := |lines|;
    var idx := 1;
    while idx < |lines|
      invariant 1 <= idx <= |lines|
      invariant FirstBodyEnd(lines, idx) == FirstBodyEnd(lines, 1)
    {
      var stripped := StripTab(lines[idx]);
      if !IsLabelsLine(stripped) && (IsSubIssueMarker(stripped) || IsCommentMarker(stripped)) {
        e := idx;
        return;
      }
      idx := idx + 1;
    }
  }

  /** One step of the list scan: trim the line and classify it. */
  method Classify(line: string) returns (kind: LineKind)
    ensures kind == KindOf(line)
  {
    var trimmed := Strip(line);
    TrimTwice(line);
    if IsListItem(trimmed) {
      kind := ListItem;
    } else if trimmed != [] {
      kind := Text;
    } else {
      kind := Blank;
    }
  }

  /** The kind of line `i` of the body. */
  method ClassifyAt(body: seq<string>, i: nat) returns (kind: LineKind)
    requires i < |body|
    ensures kind == Kinds(body)[i]
  {
    kind := Classify(body[i]);
    KindsAt(body, i);
  }

  /**
   * The loop that tracks whether the body ends inside a list and where
   * that list started.
   */
  method ScanList(body: seq<string>) returns (inList: bool, start: nat)
    ensures var kinds := Kinds(body); var b := BlockStart(kinds);
      && (inList <==> ListItem in kinds[b..])
      && (inList ==> b <= start <= |body| && Entries(body[start..]) == Entries(body[b..]))
  {
    ghost var kinds := Kinds(body);
    inList := false;
    start := 0;
    ghost var b := 0;
    for i := 0 to |body|
      invariant b == BlockStart(kinds[..i]) && b <= i
      invariant inList ==> b <= start < i && kinds[start] == ListItem
      invariant forall k :: b <= k < (if inList then start else i) ==> kinds[k] == Blank
    {
      BlockStartSnoc(kinds, i);
      var kind := ClassifyAt(body, i);
      if kind == ListItem {
        if !inList {
          inList := true;
          start := i;
        }
      } else if kind == Text {
        inList := false;
        b := i + 1;
      }
    }
    assert kinds[..|body|] == kinds;
    ListItemAfter(kinds, b, inList, start);
    if inList {
      BlanksBeforeStart(body, b, start);
    }
  }

  /** Only blank lines after the block start until a list item: there is one exactly when the scan saw it. */
  lemma ListItemAfter(kinds: seq<LineKind>, b: nat, inList: bool, start: nat)
    requires b <= |kinds|
    requires inList ==> b <= start < |kinds| && kinds[start] == ListItem
    requires forall k :: b <= k < (if inList then start else |kinds|) ==> kinds[k] == Blank
    ensures inList <==> ListItem in kinds[b..]
  {
    if inList {
      assert kinds[b..][start - b] == ListItem;
    }
  }

  /** Blank lines before the first list item of the final block add no entry. */
  lemma {:induction false} BlanksBeforeStart(body: seq<string>, b: nat, start: nat)
    requires b <= start < |body|
    requires forall k :: b <= k < start ==> Kinds(body)[k] == Blank
    ensures Entries(body[start..]) == Entries(body[b..])
  {
    assert body[b..] == body[b..start] + body[start..];
    EntriesAppend(body[b..start], body[start..]);
    forall k | 0 <= k < start - b ensures KindOf(body[b..start][k]) == Blank {
      assert Kinds(body)[b + k] == Blank;
      KindsAt(body, b + k);
    }
    EntriesOfBlanks(body[b..start]);
  }

  /** The loop that parses the items of the final list. */
  method CollectEntries(ls: seq<string>) returns (blockers: seq<BlockerEntry>)
    ensures blockers == Entries(ls)
  {
    blockers := [];
    for i := 0 to |ls|
      invariant blockers == Entries(ls[..i])
    {
      TakeSnoc(ls, i);
      EntriesAppend(ls[..i], [ls[i]]);
      assert Entries([ls[i]]) == EntryOf(ls[i]);
      TrimTwice(ls[i]);
      assert ParseListItem(Strip(ls[i])) == ParseListItem(ls[i]);
      match ParseListItem(Strip(ls[i])) {
        case Some(entry) => blockers := blockers + [entry];
        case None =>
      }
    }
    assert ls[..|ls|] == ls;
  }

  /** `parse_blockers_from_issue`. */
  method ParseBlockersFromIssue(content: string) returns (blockers: seq<BlockerEntry>)
    ensures blockers == Blockers(content)
  {
    var normalized := Indentation.NormalizeIssueIndentation(content);
    var lines := Lines(normalized);
    if lines == [] {
      return [];
    }
    var e := FindBodyEnd(lines);
    var body := BodyLines(lines[1..e]);
    var inList, start := ScanList(body);
    if inList {
      blockers := CollectEntries(body[start..]);
    } else {
      blockers := [];
    }
  }
}
