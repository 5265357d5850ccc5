/**
 * The blocker sub-language of src/issue/blocker.rs: a line classifier, and
 * a tree of sections (headers) holding items (each with comment lines) that
 * is built from the classified lines and serialised back.
 */
module IssueBlocker {
  import opened Wrappers
  import opened Strings

  /** Header depth 1 (largest) to 5. */
  datatype HeaderLevel = One | Two | Three | Four | Five

  /** `HeaderLevel::to_usize`. */
  function ToNat(l: HeaderLevel): (n: nat)
    ensures 1 <= n <= 5
  {
    match l
      case One => 1
      case Two => 2
      case Three => 3
      case Four => 4
      case Five => 5
  }

  /** `HeaderLevel::from_usize`: defined exactly on 1..=5, where it inverts `ToNat`. */
  function FromNat(n: nat): (r: Option<HeaderLevel>)
    ensures r.Some? <==> 1 <= n <= 5
    ensures r.Some? ==> ToNat(r.value) == n
  {
    if n == 1 then Some(One)
    else if n == 2 then Some(Two)
    else if n == 3 then Some(Three)
    else if n == 4 then Some(Four)
    else if n == 5 then Some(Five)
    else None
  }

  lemma FromNatToNat(l: HeaderLevel)
    ensures FromNat(ToNat(l)) == Some(l)
  {
  }

  /** A classified line: a header, a list item, or a comment under an item. */
  datatype Line =
    | Header(level: HeaderLevel, text: string)
    | Item(text: string)
    | Comment(text: string)

  const ITEM_PREFIX: string := "- "
  const TWO_SPACES: string := "  "
  const DASH: string := "-"

  /** `Line::to_raw`. */
  function ToRaw(l: Line): string {
    match l
      case Header(level, text) => Repeat('#', ToNat(level)) + " " + text
      case Item(text) => ITEM_PREFIX + text
      case Comment(text) => "\t" + text
  }

  /**
   * `classify_line`: nothing for the empty line; a comment for a tab
   * (one tab removed) or for two leading spaces not introducing a `-`
   * (leading whitespace removed); otherwise the trimmed line is classified
   * by `ClassifyTrimmed`.
   */
  function ClassifyLine(line: string): (r: Option<Line>)
    ensures r.None? <==> line == []
  {
    if line == [] then None
    else if line[0] == '\t' then Some(Comment(line[1..]))
    else if StartsWith(line, TWO_SPACES) && !StartsWith(TrimStart(line), DASH) then Some(Comment(TrimStart(line)))
    else Some(ClassifyTrimmed(Trim(line)))
  }

  /**
   * A run of one to five '#' and a space is a header of that level; a deeper
   * run makes the whole line an item; anything else is an item with a
   * leading `- ` removed.
   */
  function ClassifyTrimmed(t: string): Line {
    var count := CountLeading(t, '#');
    if count > 0 && |t| > count && t[count] == ' ' then
      if count > 5 then Item(t) else Header(FromNat(count).value, t[count + 1..])
    else Item(if StartsWith(t, ITEM_PREFIX) then t[|ITEM_PREFIX|..] else t)
  }

  /** Text that classifies back into the same line. */
  predicate Classifiable(l: Line) {
    l.Comment? || (l.text != [] && IsTrimmed(l.text))
  }

  /** Classifying the raw form of a line gives the line back. */
  lemma ClassifyToRaw(l: Line)
    requires Classifiable(l)
    ensures ClassifyLine(ToRaw(l)) == Some(l)
  {
    match l
      case Comment(text) =>
        var raw := ToRaw(l);
        assert raw[0] == '\t' && raw[1..] == text;
      case Item(text) => ClassifyRawItem(text);
      case Header(level, text) => ClassifyRawHeader(level, text);
  }

  /** A trimmed line starting with neither a tab nor a space is classified as trimmed text. */
  lemma ClassifyUnindented(line: string)
    requires line != [] && line[0] != '\t' && line[0] != ' ' && IsTrimmed(line)
    ensures ClassifyLine(line) == Some(ClassifyTrimmed(line))
  {
    if |line| >= 2 {
      assert line[..2][0] == line[0];
    }
    TrimmedIsFixed(line);
  }

  lemma ClassifyRawItem(text: string)
    requires text != [] && IsTrimmed(text)
    ensures ClassifyLine(ITEM_PREFIX + text) == Some(Item(text))
  {
    var raw := ITEM_PREFIX + text;
    assert raw[0] == '-' && raw[|raw| - 1] == text[|text| - 1];
    ClassifyUnindented(raw);
    assert CountLeading(raw, '#') == 0;
    assert StartsWith(raw, ITEM_PREFIX);
    assert raw[|ITEM_PREFIX|..] == text;
  }

  lemma ClassifyRawHeader(level: HeaderLevel, text: string)
    requires text != [] && IsTrimmed(text)
    ensures ClassifyLine(Repeat('#', ToNat(level)) + " " + text) == Some(Header(level, text))
  {
    var n := ToNat(level);
    var raw := Repeat('#', n) + " " + text;
    assert raw[0] == '#' && raw[|raw| - 1] == text[|text| - 1];
    ClassifyUnindented(raw);
    ClassifyTrimmedHeader(level, text);
  }

  lemma ClassifyTrimmedHeader(level: HeaderLevel, text: string)
    ensures ClassifyTrimmed(Repeat('#', ToNat(level)) + " " + text) == Header(level, text)
  {
    var n := ToNat(level);
    var raw := Repeat('#', n) + " " + text;
    assert raw == Repeat('#', n) + (" " + text);
    CountLeadingRepeat('#', n, " " + text);
    assert raw[n] == ' ';
    assert raw[n + 1..] == text;
    FromNatToNat(level);
  }

  /** Two or more spaces before text that does not start with `-` make a comment of that text. */
  lemma SpaceIndentedComment(n: nat, rest: string)
    requires n >= 2 && rest != [] && !IsWhitespace(rest[0]) && rest[0] != '-'
    ensures ClassifyLine(Repeat(' ', n) + rest) == Some(Comment(rest))
  {
    var line := Repeat(' ', n) + rest;
    assert line[..2] == TWO_SPACES;
    TrimStartPadded(Repeat(' ', n), rest);
    assert !StartsWith(rest, DASH) by {
      assert rest[..|DASH|][0] == rest[0];
    }
  }

  /** More than five '#' before a space make the whole trimmed line an item. */
  lemma DeepHeaderIsItem(n: nat, text: string)
    requires n > 5 && text != [] && IsTrimmed(text)
    ensures ClassifyLine(Repeat('#', n) + " " + text) == Some(Item(Repeat('#', n) + " " + text))
  {
    var line := Repeat('#', n) + " " + text;
    assert line[0] == '#' && line[|line| - 1] == text[|text| - 1];
    assert !StartsWith(line, TWO_SPACES) by {
      assert line[..2][0] == '#';
    }
    assert line == Repeat('#', n) + (" " + text);
    CountLeadingRepeat('#', n, " " + text);
    TrimmedIsFixed(line);
  }

  // ---------------------------------------------------------------------
  // The section tree

  /** An item and the comment lines under it. */
  datatype BlockerItem = BlockerItem(text: string, comments: seq<string>)

  /** A section: title and level (empty and 0 for the root), items, then sub-sections. */
  datatype BlockerSequence = BlockerSequence(title: string, level: nat, items: seq<BlockerItem>, children: seq<BlockerSequence>)

  /** `BlockerSequence::root`. */
  function Root(): BlockerSequence {
    BlockerSequence("", 0, [], [])
  }

  function CommentLines(cs: seq<string>): seq<Line> {
    seq(|cs|, k requires 0 <= k < |cs| => Comment(cs[k]))
  }

  /** An item line followed by its comment lines. */
  function ItemBlock(item: BlockerItem): seq<Line> {
    [Item(item.text)] + CommentLines(item.comments)
  }

  function ItemLines(items: seq<BlockerItem>): seq<Line> {
    if items == [] then [] else ItemLines(items[..|items| - 1]) + ItemBlock(items[|items| - 1])
  }

  /** The header line `collect_lines` emits for a section: only for levels 1 to 5. */
  function HeaderOf(c: BlockerSequence): seq<Line> {
    if c.level > 0 && FromNat(c.level).Some? then [Header(FromNat(c.level).value, c.title)] else []
  }

  /** `BlockerSequence::lines`: a section's items (with comments), then each child's header and lines. */
  function TreeLines(t: BlockerSequence): seq<Line>
    decreases t, 1
  {
    ItemLines(t.items) + ChildrenLines(t.children)
  }

  function ChildrenLines(cs: seq<BlockerSequence>): seq<Line>
    decreases cs, 0
  {
    if cs == [] then []
    else ChildrenLines(cs[..|cs| - 1]) + HeaderOf(cs[|cs| - 1]) + TreeLines(cs[|cs| - 1])
  }

  /** The position of the last child of the given level (`rposition`). */
  function RPosition(cs: seq<BlockerSequence>, level: nat): (r: Option<nat>)
    ensures r.Some? ==> r.value < |cs| && cs[r.value].level == level
    ensures r.Some? ==> forall j :: r.value < j < |cs| ==> cs[j].level != level
    ensures r.None? ==> forall j :: 0 <= j < |cs| ==> cs[j].level != level
  {
    if cs == [] then None
    else if cs[|cs| - 1].level == level then Some(|cs| - 1)
    else RPosition(cs[..|cs| - 1], level)
  }

  /**
   * `get_sequence_for_level`, given the level stack without its root entry:
   * follow, level by level, the last child of that level, stopping where
   * there is none.
   */
  function GetSequenceForLevel(t: BlockerSequence, levels: seq<nat>): BlockerSequence
    decreases |levels|
  {
    if levels == [] then t
    else
      match RPosition(t.children, levels[0])
        case None => t
        case Some(i) => GetSequenceForLevel(t.children[i], levels[1..])
  }

  /** `add_item_to_tree`: push the item onto the section `GetSequenceForLevel` finds. */
  function AddItemToTree(t: BlockerSequence, levels: seq<nat>, item: BlockerItem): (r: BlockerSequence)
    decreases |levels|
    ensures r.title == t.title && r.level == t.level && |r.children| == |t.children|
  {
    if levels == [] then t.(items := t.items + [item])
    else
      match RPosition(t.children, levels[0])
        case None => t.(items := t.items + [item])
        case Some(i) => t.(children := t.children[i := AddItemToTree(t.children[i], levels[1..], item)])
  }

  /** `add_child_to_tree`: push the section onto the section `GetSequenceForLevel` finds. */
  function AddChildToTree(t: BlockerSequence, levels: seq<nat>, c: BlockerSequence): (r: BlockerSequence)
    decreases |levels|
    ensures r.title == t.title && r.level == t.level
  {
    if levels == [] then t.(children := t.children + [c])
    else
      match RPosition(t.children, levels[0])
        case None => t.(children := t.children + [c])
        case Some(i) => t.(children := t.children[i := AddChildToTree(t.children[i], levels[1..], c)])
  }

  /** The item is appended to exactly the section that `get_sequence_for_level` designates. */
  lemma {:induction false} AddItemLands(t: BlockerSequence, levels: seq<nat>, item: BlockerItem)
    ensures var s := GetSequenceForLevel(t, levels);
      GetSequenceForLevel(AddItemToTree(t, levels, item), levels) == s.(items := s.items + [item])
    decreases |levels|
  {
    if levels != [] {
      var r := AddItemToTree(t, levels, item);
      match RPosition(t.children, levels[0])
        case None =>
        case Some(i) =>
          assert r.children == t.children[i := AddItemToTree(t.children[i], levels[1..], item)];
          LevelsKept(t.children, i, AddItemToTree(t.children[i], levels[1..], item));
          assert RPosition(r.children, levels[0]) == Some(i);
          AddItemLands(t.children[i], levels[1..], item);
    }
  }

  /** Replacing a child by one of the same level leaves every `rposition` unchanged. */
  lemma {:induction false} LevelsKept(cs: seq<BlockerSequence>, i: nat, x: BlockerSequence)
    requires i < |cs| && x.level == cs[i].level
    ensures forall l :: RPosition(cs[i := x], l) == RPosition(cs, l)
  {
    forall l ensures RPosition(cs[i := x], l) == RPosition(cs, l) {
      RPositionLevels(cs, cs[i := x], l);
    }
  }

  lemma {:induction false} RPositionLevels(cs: seq<BlockerSequence>, ds: seq<BlockerSequence>, l: nat)
    requires |cs| == |ds| && forall k :: 0 <= k < |cs| ==> cs[k].level == ds[k].level
    ensures RPosition(cs, l) == RPosition(ds, l)
  {
    if cs != [] {
      RPositionLevels(cs[..|cs| - 1], ds[..|ds| - 1], l);
    }
  }

  // ---------------------------------------------------------------------
  // Building the tree

  /** Every comment line follows an item or another comment. */
  predicate WellFormedLines(ls: seq<Line>) {
    forall i :: 0 <= i < |ls| && ls[i].Comment? ==> i > 0 && !ls[i - 1].Header?
  }

  /** The headers and items of a line list, in order: what is left without the comments. */
  function Skeleton(ls: seq<Line>): seq<Line> {
    if ls == [] then []
    else Skeleton(ls[..|ls| - 1]) + (if ls[|ls| - 1].Comment? then [] else [ls[|ls| - 1]])
  }

  /** The lines held back while an item may still collect comments. */
  function Pending(pending: Option<string>, comments: seq<string>): seq<Line> {
    (if pending.Some? then [Item(pending.value)] else []) + CommentLines(comments)
  }

  /**
   * `build_from_lines`: every header and item survives in order, and a list
   * in which every comment follows an item or a comment reads back as
   * itself through `lines()`.
   */
  method BuildFromLines(ls: seq<Line>) returns (root: BlockerSequence)
    ensures Skeleton(TreeLines(root)) == Skeleton(ls)
    ensures WellFormedLines(ls) ==> TreeLines(root) == ls
  {
    root := Root();
    var comments: seq<string> := [];
    var pending: Option<string> := None;
    var stack: seq<nat> := [0];
    assert CommentLines([]) == [];
    for i := 0 to |ls|
      invariant Building(ls, i, root, stack, pending, comments)
    {
      match ls[i]
      case Header(level, text) =>
        root, stack, pending, comments := ReadHeader(ls, i, root, stack, pending, comments, level, text);
      case Item(text) =>
        root, pending, comments := ReadItem(ls, i, root, stack, pending, comments, text);
      case Comment(text) =>
        comments := ReadComment(ls, i, root, stack, pending, comments, text);
    }
    assert ls[..|ls|] == ls;
    ghost var acc := TreeLines(root) + Pending(pending, comments);
    var flushed;
    flushed, comments := FlushPending(root, stack, pending, comments);
    assert TreeLines(flushed) + CommentLines(comments) == acc;
    SkeletonComments(comments);
    SkeletonAppend(TreeLines(flushed), CommentLines(comments));
    assert WellFormedLines(ls) ==> comments == [] && CommentLines(comments) == [];
    root := flushed;
  }

  /**
   * The state of `build_from_lines` after `i` lines: the level stack starts
   * with the root's 0 and names the path to the last section, which has no
   * children yet; the tree's lines followed by the held-back item and
   * comments have the same headers and items as the lines read, and are
   * those lines when the list is well formed.
   */
  predicate Building(ls: seq<Line>, i: nat, root: BlockerSequence, stack: seq<nat>, pending: Option<string>, comments: seq<string>)
    requires i <= |ls|
  {
    && |stack| >= 1 && stack[0] == 0
    && Spine(root, stack[1..]) && EndChildless(root, stack[1..])
    && Skeleton(TreeLines(root) + Pending(pending, comments)) == Skeleton(ls[..i])
    && (WellFormedLines(ls) ==> TreeLines(root) + Pending(pending, comments) == ls[..i])
    && (WellFormedLines(ls) ==> (pending.Some? <==> i > 0 && !ls[i - 1].Header?))
    && (WellFormedLines(ls) && pending.None? ==> comments == [])
  }

  /** The pending item, if any, is pushed where the level stack points. */
  method FlushPending(root: BlockerSequence, stack: seq<nat>, pending: Option<string>, comments: seq<string>)
    returns (root': BlockerSequence, comments': seq<string>)
    requires |stack| >= 1 && Spine(root, stack[1..]) && EndChildless(root, stack[1..])
    ensures Spine(root', stack[1..]) && EndChildless(root', stack[1..])
    ensures TreeLines(root') + Pending(None, comments') == TreeLines(root) + Pending(pending, comments)
    ensures pending.Some? ==> comments' == []
    ensures pending.None? ==> root' == root && comments' == comments
  {
    root', comments' := root, comments;
    if pending.Some? {
      FlushStep(root, stack[1..], pending.value, comments);
      root' := AddItemToTree(root, stack[1..], BlockerItem(pending.value, comments));
      comments' := [];
    } else {
      assert Pending(pending, comments) == Pending(None, comments');
    }
  }

  /** A comment line joins the comments held back for the pending item. */
  method ReadComment(ghost ls: seq<Line>, ghost i: nat, root: BlockerSequence, stack: seq<nat>, pending: Option<string>, comments: seq<string>,
                     text: string)
    returns (comments': seq<string>)
    requires i < |ls| && ls[i] == Comment(text) && Building(ls, i, root, stack, pending, comments)
    ensures Building(ls, i + 1, root, stack, pending, comments')
  {
    ghost var acc := TreeLines(root) + Pending(pending, comments);
    comments' := comments + [text];
    PendingComment(TreeLines(root), pending, comments, text);
    CommentStep(ls, i, acc);
    assert WellFormedLines(ls) ==> pending.Some?;
  }

  /** One more held-back comment adds its line at the end. */
  lemma PendingComment(before: seq<Line>, pending: Option<string>, comments: seq<string>, text: string)
    ensures before + Pending(pending, comments + [text]) == before + Pending(pending, comments) + [Comment(text)]
  {
    assert CommentLines(comments + [text]) == CommentLines(comments) + [Comment(text)];
    var item: seq<Line> := if pending.Some? then [Item(pending.value)] else [];
    AppendAssoc(item, CommentLines(comments), [Comment(text)]);
    AppendAssoc(before, item + CommentLines(comments), [Comment(text)]);
  }

  /** A header line: flush, pop the deeper levels, open the section, push its level. */
  method ReadHeader(ghost ls: seq<Line>, ghost i: nat, root: BlockerSequence, stack: seq<nat>, pending: Option<string>, comments: seq<string>,
                    level: HeaderLevel, text: string)
    returns (root': BlockerSequence, stack': seq<nat>, pending': Option<string>, comments': seq<string>)
    requires i < |ls| && ls[i] == Header(level, text) && Building(ls, i, root, stack, pending, comments)
    ensures Building(ls, i + 1, root', stack', pending', comments')
  {
    var flushed;
    flushed, comments' := FlushPending(root, stack, pending, comments);
    pending' := None;
    ghost var before := TreeLines(flushed);
    assert Pending(None, comments') == CommentLines(comments');
    root', stack' := OpenSection(flushed, stack, level, text);
    assert TreeLines(root') + Pending(pending', comments') == before + [ls[i]] + CommentLines(comments');
    assert before + CommentLines(comments') == TreeLines(root) + Pending(pending, comments);
    assert WellFormedLines(ls) ==> comments' == [];
    NonCommentStep(ls, i, before, comments');
  }

  /** Pop the deeper levels, push a fresh section under the new end of the spine and push its level. */
  method OpenSection(root: BlockerSequence, stack: seq<nat>, level: HeaderLevel, text: string)
    returns (root': BlockerSequence, stack': seq<nat>)
    requires |stack| >= 1 && stack[0] == 0 && Spine(root, stack[1..])
    ensures |stack'| >= 1 && stack'[0] == 0
    ensures Spine(root', stack'[1..]) && EndChildless(root', stack'[1..])
    ensures TreeLines(root') == TreeLines(root) + [Header(level, text)]
  {
    var lvl := ToNat(level);
    var kept := PopLevels(stack, lvl);
    SpinePrefix(root, stack[1..], |kept| - 1);
    assert kept[1..] == stack[1..][..|kept| - 1];
    var section := BlockerSequence(text, lvl, [], []);
    HeaderStep(root, kept[1..], section);
    root' := AddChildToTree(root, kept[1..], section);
    stack' := kept + [lvl];
    TailOfSnoc(kept, lvl);
    FromToNat(level);
  }

  lemma FromToNat(level: HeaderLevel)
    ensures FromNat(ToNat(level)) == Some(level)
  {
  }

  /** An item line: flush, then hold the item back for its comments. */
  method ReadItem(ghost ls: seq<Line>, ghost i: nat, root: BlockerSequence, stack: seq<nat>, pending: Option<string>, comments: seq<string>,
                  text: string)
    returns (root': BlockerSequence, pending': Option<string>, comments': seq<string>)
    requires i < |ls| && ls[i] == Item(text) && Building(ls, i, root, stack, pending, comments)
    ensures Building(ls, i + 1, root', stack, pending', comments')
  {
    root', comments' := FlushPending(root, stack, pending, comments);
    pending' := Some(text);
    assert Pending(None, comments') == CommentLines(comments');
    assert WellFormedLines(ls) ==> comments' == [];
    ItemBuilding(ls, i, root', stack, text, comments');
  }

  /** The state after an item line, from the flushed state before it. */
  lemma ItemBuilding(ls: seq<Line>, i: nat, root: BlockerSequence, stack: seq<nat>, text: string, comments: seq<string>)
    requires i < |ls| && ls[i] == Item(text)
    requires |stack| >= 1 && stack[0] == 0 && Spine(root, stack[1..]) && EndChildless(root, stack[1..])
    requires Skeleton(TreeLines(root) + CommentLines(comments)) == Skeleton(ls[..i])
    requires WellFormedLines(ls) ==> TreeLines(root) + CommentLines(comments) == ls[..i] && comments == []
    ensures Building(ls, i + 1, root, stack, Some(text), comments)
  {
    var before := TreeLines(root);
    assert Pending(Some(text), comments) == [ls[i]] + CommentLines(comments);
    assert before + Pending(Some(text), comments) == before + [ls[i]] + CommentLines(comments);
    NonCommentStep(ls, i, before, comments);
  }

  /**
   * The header's pop loop: drop the levels at or below the new header's
   * depth. The root entry 0 is never dropped.
   */
  method PopLevels(stack: seq<nat>, lvl: nat) returns (kept: seq<nat>)
    requires |stack| >= 1 && stack[0] == 0 && lvl >= 1
    ensures 1 <= |kept| <= |stack| && kept == stack[..|kept|]
    ensures kept[|kept| - 1] < lvl
    ensures forall k :: |kept| <= k < |stack| ==> stack[k] >= lvl
  {
    kept := stack;
    while |kept| > 0 && kept[|kept| - 1] >= lvl
      invariant 1 <= |kept| <= |stack| && kept == stack[..|kept|]
      invariant forall k :: |kept| <= k < |stack| ==> stack[k] >= lvl
      decreases |kept|
    {
      kept := kept[..|kept| - 1];
    }
  }

  /** The levels name the last child at each step down from the root. */
  predicate Spine(t: BlockerSequence, levels: seq<nat>)
    decreases |levels|
  {
    levels == [] ||
    (t.children != [] && t.children[|t.children| - 1].level == levels[0]
     && Spine(t.children[|t.children| - 1], levels[1..]))
  }

  /** The section at the end of the spine has no children. */
  predicate EndChildless(t: BlockerSequence, levels: seq<nat>)
    requires Spine(t, levels)
    decreases |levels|
  {
    if levels == [] then t.children == [] else EndChildless(t.children[|t.children| - 1], levels[1..])
  }

  lemma {:induction false} SpinePrefix(t: BlockerSequence, levels: seq<nat>, k: nat)
    requires Spine(t, levels) && k <= |levels|
    ensures Spine(t, levels[..k])
    decreases |levels|
  {
    if k > 0 {
      assert levels[..k][1..] == levels[1..][..k - 1];
      SpinePrefix(t.children[|t.children| - 1], levels[1..], k - 1);
    }
  }

  /** The lines of a section whose last child is replaced by one with the same header. */
  lemma {:induction false} ReplaceLast(t: BlockerSequence, x: BlockerSequence)
    requires t.children != []
    requires x.level == t.children[|t.children| - 1].level && x.title == t.children[|t.children| - 1].title
    ensures var cs := t.children;
      TreeLines(t.(children := cs[|cs| - 1 := x])) == ItemLines(t.items) + ChildrenLines(cs[..|cs| - 1]) + HeaderOf(x) + TreeLines(x)
  {
    var cs := t.children;
    assert cs[|cs| - 1 := x][..|cs| - 1] == cs[..|cs| - 1];
  }

  lemma {:induction false} SplitLast(t: BlockerSequence)
    requires t.children != []
    ensures var cs := t.children;
      TreeLines(t) == ItemLines(t.items) + ChildrenLines(cs[..|cs| - 1]) + HeaderOf(cs[|cs| - 1]) + TreeLines(cs[|cs| - 1])
  {
    var cs := t.children;
    var last := cs[|cs| - 1];
    assert ChildrenLines(cs) == ChildrenLines(cs[..|cs| - 1]) + HeaderOf(last) + TreeLines(last);
    AppendAssoc3(ItemLines(t.items), ChildrenLines(cs[..|cs| - 1]), HeaderOf(last), TreeLines(last));
  }

  /** Pushing an item at the end of the spine appends its lines. */
  lemma {:induction false} AddItemOnSpine(t: BlockerSequence, levels: seq<nat>, item: BlockerItem)
    requires Spine(t, levels) && EndChildless(t, levels)
    ensures TreeLines(AddItemToTree(t, levels, item)) == TreeLines(t) + ItemBlock(item)
    decreases |levels|
  {
    if levels == [] {
      AppendItem(t, item);
    } else {
      var cs := t.children;
      var last := |cs| - 1;
      assert RPosition(cs, levels[0]) == Some(last);
      var x := AddItemToTree(cs[last], levels[1..], item);
      AddItemOnSpine(cs[last], levels[1..], item);
      assert AddItemToTree(t, levels, item) == t.(children := cs[last := x]);
      ReplaceLastGrows(t, x, ItemBlock(item));
    }
  }

  /** Replacing the last child by one with more lines appends those lines. */
  lemma {:induction false} ReplaceLastGrows(t: BlockerSequence, x: BlockerSequence, extra: seq<Line>)
    requires t.children != []
    requires x.level == t.children[|t.children| - 1].level && x.title == t.children[|t.children| - 1].title
    requires TreeLines(x) == TreeLines(t.children[|t.children| - 1]) + extra
    ensures TreeLines(t.(children := t.children[|t.children| - 1 := x])) == TreeLines(t) + extra
  {
    var cs := t.children;
    var c := cs[|cs| - 1];
    ReplaceLast(t, x);
    SplitLast(t);
    var front := ItemLines(t.items) + ChildrenLines(cs[..|cs| - 1]);
    assert HeaderOf(x) == HeaderOf(c);
    assert front + HeaderOf(c) + (TreeLines(c) + extra) == front + HeaderOf(c) + TreeLines(c) + extra;
  }

  lemma {:induction false} AppendItem(t: BlockerSequence, item: BlockerItem)
    requires t.children == []
    ensures TreeLines(t.(items := t.items + [item])) == TreeLines(t) + ItemBlock(item)
  {
    var items := t.items + [item];
    assert items[..|t.items|] == t.items;
    assert ItemLines(items) == ItemLines(t.items) + ItemBlock(item);
    assert TreeLines(t.(items := items)) == ItemLines(items) + ChildrenLines([]);
  }

  /** Pushing an item keeps the spine and its childless end. */
  lemma {:induction false} AddItemKeepsSpine(t: BlockerSequence, levels: seq<nat>, item: BlockerItem)
    requires Spine(t, levels) && EndChildless(t, levels)
    ensures Spine(AddItemToTree(t, levels, item), levels) && EndChildless(AddItemToTree(t, levels, item), levels)
    decreases |levels|
  {
    if levels != [] {
      var cs := t.children;
      var last := |cs| - 1;
      assert RPosition(cs, levels[0]) == Some(last);
      var x := AddItemToTree(cs[last], levels[1..], item);
      AddItemKeepsSpine(cs[last], levels[1..], item);
      assert AddItemToTree(t, levels, item) == t.(children := cs[last := x]);
    }
  }

  /** Pushing a fresh section under a spine section appends its header. */
  lemma {:induction false} AddChildOnSpine(t: BlockerSequence, levels: seq<nat>, c: BlockerSequence)
    requires Spine(t, levels) && c.items == [] && c.children == []
    ensures TreeLines(AddChildToTree(t, levels, c)) == TreeLines(t) + HeaderOf(c)
    decreases |levels|
  {
    if levels == [] {
      AppendChild(t, c);
    } else {
      var cs := t.children;
      var last := |cs| - 1;
      assert RPosition(cs, levels[0]) == Some(last);
      var x := AddChildToTree(cs[last], levels[1..], c);
      AddChildOnSpine(cs[last], levels[1..], c);
      assert AddChildToTree(t, levels, c) == t.(children := cs[last := x]);
      assert HeaderOf(x) == HeaderOf(cs[last]);
      ReplaceLast(t, x);
      SplitLast(t);
    }
  }

  lemma {:induction false} AppendChild(t: BlockerSequence, c: BlockerSequence)
    requires c.items == [] && c.children == []
    ensures TreeLines(t.(children := t.children + [c])) == TreeLines(t) + HeaderOf(c)
  {
    var cs := t.children + [c];
    assert cs[..|cs| - 1] == t.children;
    assert TreeLines(c) == [];
    assert ChildrenLines(cs) == ChildrenLines(t.children) + HeaderOf(c) + TreeLines(c);
  }

  /** The fresh section becomes the new end of the spine. */
  lemma {:induction false} AddChildExtendsSpine(t: BlockerSequence, levels: seq<nat>, c: BlockerSequence)
    requires Spine(t, levels) && c.children == []
    ensures Spine(AddChildToTree(t, levels, c), levels + [c.level])
    ensures EndChildless(AddChildToTree(t, levels, c), levels + [c.level])
    decreases |levels|
  {
    var ext := levels + [c.level];
    if levels == [] {
      assert ext[1..] == [];
    } else {
      assert ext[1..] == levels[1..] + [c.level];
      var cs := t.children;
      var last := |cs| - 1;
      assert RPosition(cs, levels[0]) == Some(last);
      var x := AddChildToTree(cs[last], levels[1..], c);
      AddChildExtendsSpine(cs[last], levels[1..], c);
      assert AddChildToTree(t, levels, c) == t.(children := cs[last := x]);
    }
  }

  lemma {:induction false} SkeletonAppend(a: seq<Line>, b: seq<Line>)
    ensures Skeleton(a + b) == Skeleton(a) + Skeleton(b)
    decreases |b|
  {
    if b != [] {
      assert (a + b)[..|a + b| - 1] == a + b[..|b| - 1];
      SkeletonAppend(a, b[..|b| - 1]);
    } else {
      assert a + b == a;
    }
  }

  lemma {:induction false} SkeletonComments(cs: seq<string>)
    ensures Skeleton(CommentLines(cs)) == []
    decreases |cs|
  {
    if cs != [] {
      assert CommentLines(cs)[..|cs| - 1] == CommentLines(cs[..|cs| - 1]);
      SkeletonComments(cs[..|cs| - 1]);
    }
  }

  /** A header or item written before held-back comments counts as written after them. */
  lemma {:induction false} SkeletonMoveComments(a: seq<Line>, l: Line, cs: seq<string>)
    requires !l.Comment?
    ensures Skeleton(a + [l] + CommentLines(cs)) == Skeleton(a + CommentLines(cs)) + [l]
  {
    SkeletonComments(cs);
    SkeletonAppend(a + [l], CommentLines(cs));
    SkeletonAppend(a, CommentLines(cs));
    SkeletonAppend(a, [l]);
    assert Skeleton([l]) == Skeleton([l][..0]) + [l];
  }

  /** A header or item read after the held-back comments. */
  lemma {:induction false} NonCommentStep(ls: seq<Line>, i: nat, before: seq<Line>, comments: seq<string>)
    requires i < |ls| && !ls[i].Comment?
    requires Skeleton(before + CommentLines(comments)) == Skeleton(ls[..i])
    ensures Skeleton(before + [ls[i]] + CommentLines(comments)) == Skeleton(ls[..i + 1])
    ensures before + CommentLines(comments) == ls[..i] && comments == [] ==>
      before + [ls[i]] + CommentLines(comments) == ls[..i + 1]
  {
    SkeletonStep(ls, i);
    SkeletonMoveComments(before, ls[i], comments);
    TakeSnoc(ls, i);
    assert CommentLines([]) == [];
  }

  /** A comment read: it joins the held-back lines. */
  lemma {:induction false} CommentStep(ls: seq<Line>, i: nat, acc: seq<Line>)
    requires i < |ls| && ls[i].Comment?
    requires Skeleton(acc) == Skeleton(ls[..i])
    ensures Skeleton(acc + [ls[i]]) == Skeleton(ls[..i + 1])
    ensures acc == ls[..i] ==> acc + [ls[i]] == ls[..i + 1]
  {
    SkeletonStep(ls, i);
    SkeletonCommentSnoc(acc, ls[i]);
    TakeSnoc(ls, i);
  }

  lemma SkeletonCommentSnoc(acc: seq<Line>, l: Line)
    requires l.Comment?
    ensures Skeleton(acc + [l]) == Skeleton(acc)
  {
    FrontOfSnoc(acc, l);
  }

  lemma {:induction false} SkeletonStep(ls: seq<Line>, i: nat)
    requires i < |ls|
    ensures Skeleton(ls[..i + 1]) == Skeleton(ls[..i]) + (if ls[i].Comment? then [] else [ls[i]])
  {
    assert ls[..i + 1][..i] == ls[..i];
  }

  /** Flushing the pending item moves its lines from the held-back part into the tree. */
  lemma FlushStep(t: BlockerSequence, levels: seq<nat>, text: string, comments: seq<string>)
    requires Spine(t, levels) && EndChildless(t, levels)
    ensures var r := AddItemToTree(t, levels, BlockerItem(text, comments));
      && TreeLines(r) + Pending(None, []) == TreeLines(t) + Pending(Some(text), comments)
      && Spine(r, levels) && EndChildless(r, levels)
  {
    AddItemOnSpine(t, levels, BlockerItem(text, comments));
    AddItemKeepsSpine(t, levels, BlockerItem(text, comments));
    assert Pending(None, []) == [];
  }

  /** A header line becomes a fresh section under the spine's end. */
  lemma HeaderStep(t: BlockerSequence, levels: seq<nat>, c: BlockerSequence)
    requires Spine(t, levels) && c.items == [] && c.children == [] && 1 <= c.level <= 5
    ensures var r := AddChildToTree(t, levels, c);
      && TreeLines(r) == TreeLines(t) + [Header(FromNat(c.level).value, c.title)]
      && Spine(r, levels + [c.level]) && EndChildless(r, levels + [c.level])
  {
    AddChildOnSpine(t, levels, c);
    AddChildExtendsSpine(t, levels, c);
  }

  // ---------------------------------------------------------------------
  // Parsing text, emptiness and serialisation

  /** The classified lines of a text, empty lines dropped (`parse`'s `filter_map`). */
  function ClassifyAll(ls: seq<string>): (r: seq<Line>)
    ensures |r| <= |ls|
  {
    if ls == [] then []
    else ClassifyAll(ls[..|ls| - 1]) + (match ClassifyLine(ls[|ls| - 1]) case Some(l) => [l] case None => [])
  }

  /** `BlockerSequence::parse`. */
  method Parse(content: string) returns (root: BlockerSequence)
    ensures Skeleton(TreeLines(root)) == Skeleton(ClassifyAll(Lines(content)))
    ensures WellFormedLines(ClassifyAll(Lines(content))) ==> TreeLines(root) == ClassifyAll(Lines(content))
  {
    root := BuildFromLines(ClassifyAll(Lines(content)));
  }

  /** `is_empty`: no items here or in any sub-section; bare headers count as empty. */
  predicate IsEmpty(t: BlockerSequence)
    decreases t
  {
    t.items == [] && forall c :: c in t.children ==> IsEmpty(c)
  }

  predicate NoItem(ls: seq<Line>) {
    forall k :: 0 <= k < |ls| ==> !ls[k].Item?
  }

  /** A section is empty exactly when its lines hold no item. */
  lemma {:induction false} IsEmptyNoItem(t: BlockerSequence)
    ensures IsEmpty(t) <==> NoItem(TreeLines(t))
    decreases t, 1
  {
    ItemLinesNoItem(t.items);
    ChildrenNoItem(t.children);
    NoItemAppend(ItemLines(t.items), ChildrenLines(t.children));
  }

  lemma {:induction false} ChildrenNoItem(cs: seq<BlockerSequence>)
    ensures (forall c :: c in cs ==> IsEmpty(c)) <==> NoItem(ChildrenLines(cs))
    decreases cs, 0
  {
    if cs != [] {
      var init := cs[..|cs| - 1];
      var last := cs[|cs| - 1];
      ChildrenNoItem(init);
      IsEmptyNoItem(last);
      NoItemAppend(ChildrenLines(init), HeaderOf(last));
      NoItemAppend(ChildrenLines(init) + HeaderOf(last), TreeLines(last));
      AllEmptySnoc(cs);
    }
  }

  lemma AllEmptySnoc(cs: seq<BlockerSequence>)
    requires cs != []
    ensures (forall c :: c in cs ==> IsEmpty(c)) <==>
      (forall c :: c in cs[..|cs| - 1] ==> IsEmpty(c)) && IsEmpty(cs[|cs| - 1])
  {
    SnocSplit(cs);
  }

  lemma {:induction false} ItemLinesNoItem(items: seq<BlockerItem>)
    ensures NoItem(ItemLines(items)) <==> items == []
  {
    if items != [] {
      var a := ItemLines(items[..|items| - 1]);
      var b := ItemBlock(items[|items| - 1]);
      assert (a + b)[|a|] == Item(items[|items| - 1].text);
    }
  }

  lemma NoItemAppend(a: seq<Line>, b: seq<Line>)
    ensures NoItem(a + b) <==> NoItem(a) && NoItem(b)
  {
    if NoItem(a) && NoItem(b) {
      forall k | 0 <= k < |a + b| ensures !(a + b)[k].Item? {
        if k >= |a| {
          assert (a + b)[k] == b[k - |a|];
        }
      }
    }
    if NoItem(a + b) {
      forall k | 0 <= k < |a| ensures !a[k].Item? {
        assert (a + b)[k] == a[k];
      }
      forall k | 0 <= k < |b| ensures !b[k].Item? {
        assert (a + b)[|a| + k] == b[k];
      }
    }
  }

  /** The line list starts with a header or an item, if with anything. */
  predicate Opens(ls: seq<Line>) {
    ls == [] || !ls[0].Comment?
  }

  lemma WellFormedAppend(a: seq<Line>, b: seq<Line>)
    requires WellFormedLines(a) && WellFormedLines(b) && Opens(b)
    ensures WellFormedLines(a + b)
    ensures Opens(a) ==> Opens(a + b)
  {
    var ab := a + b;
    forall i | 0 <= i < |ab| && ab[i].Comment? ensures i > 0 && !ab[i - 1].Header? {
      if i < |a| {
        assert ab[i] == a[i] && ab[i - 1] == a[i - 1];
      } else {
        assert ab[i] == b[i - |a|];
        assert ab[i - 1] == b[i - |a| - 1];
      }
    }
  }

  lemma ItemBlockWellFormed(item: BlockerItem)
    ensures WellFormedLines(ItemBlock(item)) && Opens(ItemBlock(item))
  {
    var b := ItemBlock(item);
    forall i | 0 <= i < |b| && b[i].Comment? ensures i > 0 && !b[i - 1].Header? {
      assert b[0] == Item(item.text);
      if i > 1 {
        assert b[i - 1] == Comment(item.comments[i - 2]);
      }
    }
  }

  lemma {:induction false} ItemLinesWellFormed(items: seq<BlockerItem>)
    ensures WellFormedLines(ItemLines(items)) && Opens(ItemLines(items))
  {
    if items != [] {
      ItemLinesWellFormed(items[..|items| - 1]);
      ItemBlockWellFormed(items[|items| - 1]);
      WellFormedAppend(ItemLines(items[..|items| - 1]), ItemBlock(items[|items| - 1]));
    }
  }

  /**
   * The lines of any tree are well formed: a comment only ever follows its
   * item or another comment, so building a tree from them reads it back.
   */
  lemma {:induction false} TreeLinesWellFormed(t: BlockerSequence)
    ensures WellFormedLines(TreeLines(t)) && Opens(TreeLines(t))
    decreases t, 1
  {
    ItemLinesWellFormed(t.items);
    ChildrenLinesWellFormed(t.children);
    WellFormedAppend(ItemLines(t.items), ChildrenLines(t.children));
  }

  lemma {:induction false} ChildrenLinesWellFormed(cs: seq<BlockerSequence>)
    ensures WellFormedLines(ChildrenLines(cs)) && Opens(ChildrenLines(cs))
    decreases cs, 0
  {
    if cs != [] {
      var init := cs[..|cs| - 1];
      var last := cs[|cs| - 1];
      ChildrenLinesWellFormed(init);
      TreeLinesWellFormed(last);
      assert WellFormedLines(HeaderOf(last)) && Opens(HeaderOf(last));
      WellFormedAppend(ChildrenLines(init), HeaderOf(last));
      WellFormedAppend(ChildrenLines(init) + HeaderOf(last), TreeLines(last));
    }
  }

  /** The raw text lines of an item and its comments. */
  function ItemRaw(items: seq<BlockerItem>): seq<string> {
    if items == [] then []
    else
      var item := items[|items| - 1];
      ItemRaw(items[..|items| - 1]) + [ITEM_PREFIX + item.text] + seq(|item.comments|, k requires 0 <= k < |item.comments| => "\t" + item.comments[k])
  }

  /** `serialize_into`: items with their comments, then each child's header (when its level is positive) and contents. */
  function SerializeTree(t: BlockerSequence): seq<string>
    decreases t, 1
  {
    ItemRaw(t.items) + SerializeChildren(t.children)
  }

  function SerializeChildren(cs: seq<BlockerSequence>): seq<string>
    decreases cs, 0
  {
    if cs == [] then []
    else
      var c := cs[|cs| - 1];
      SerializeChildren(cs[..|cs| - 1]) + (if c.level > 0 then [Repeat('#', c.level) + " " + c.title] else []) + SerializeTree(c)
  }

  /** `serialize`: the raw lines joined by line breaks. */
  function Serialize(t: BlockerSequence): string {
    Join(SerializeTree(t), "\n")
  }

  function RawLines(ls: seq<Line>): (r: seq<string>)
    ensures |r| == |ls|
  {
    seq(|ls|, k requires 0 <= k < |ls| => ToRaw(ls[k]))
  }

  /** Every section below the root has a level from 1 to 5. */
  predicate LevelsInRange(t: BlockerSequence)
    decreases t
  {
    forall c :: c in t.children ==> 1 <= c.level <= 5 && LevelsInRange(c)
  }

  lemma RawLinesAppend(a: seq<Line>, b: seq<Line>)
    ensures RawLines(a + b) == RawLines(a) + RawLines(b)
  {
    forall k | 0 <= k < |a + b|
      ensures RawLines(a + b)[k] == (RawLines(a) + RawLines(b))[k]
    {
      if k < |a| {
        assert (a + b)[k] == a[k];
      } else {
        assert (a + b)[k] == b[k - |a|];
      }
    }
  }

  lemma {:induction false} ItemRawIsRaw(items: seq<BlockerItem>)
    ensures ItemRaw(items) == RawLines(ItemLines(items))
  {
    if items != [] {
      var item := items[|items| - 1];
      ItemRawIsRaw(items[..|items| - 1]);
      RawLinesAppend(ItemLines(items[..|items| - 1]), ItemBlock(item));
      RawLinesAppend([Item(item.text)], CommentLines(item.comments));
    }
  }

  /** With every level in range, `serialize` writes exactly the raw form of `lines()`. */
  lemma {:induction false} SerializeIsRaw(t: BlockerSequence)
    requires LevelsInRange(t)
    ensures SerializeTree(t) == RawLines(TreeLines(t))
    decreases t, 1
  {
    ItemRawIsRaw(t.items);
    SerializeChildrenIsRaw(t.children);
    RawLinesAppend(ItemLines(t.items), ChildrenLines(t.children));
  }

  lemma {:induction false} SerializeChildrenIsRaw(cs: seq<BlockerSequence>)
    requires forall c :: c in cs ==> 1 <= c.level <= 5 && LevelsInRange(c)
    ensures SerializeChildren(cs) == RawLines(ChildrenLines(cs))
    decreases cs, 0
  {
    if cs != [] {
      var init := cs[..|cs| - 1];
      var c := cs[|cs| - 1];
      assert c in cs;
      SerializeChildrenIsRaw(init);
      SerializeIsRaw(c);
      assert ToNat(FromNat(c.level).value) == c.level;
      assert RawLines(HeaderOf(c)) == [Repeat('#', c.level) + " " + c.title];
      RawLinesAppend(ChildrenLines(init), HeaderOf(c));
      RawLinesAppend(ChildrenLines(init) + HeaderOf(c), TreeLines(c));
    }
  }

  lemma ClassifyAllSnoc(ls: seq<string>, x: string, l: Line)
    requires ClassifyLine(x) == Some(l)
    ensures ClassifyAll(ls + [x]) == ClassifyAll(ls) + [l]
  {
    FrontOfSnoc(ls, x);
  }

  /** Classifying the raw lines gives the lines back. */
  lemma {:induction false} ClassifyAllRaw(ls: seq<Line>)
    requires forall k :: 0 <= k < |ls| ==> Classifiable(ls[k])
    ensures ClassifyAll(RawLines(ls)) == ls
    decreases |ls|
  {
    if ls != [] {
      var init := ls[..|ls| - 1];
      var last := ls[|ls| - 1];
      SnocSplit(ls);
      assert forall k :: 0 <= k < |init| ==> init[k] == ls[k];
      ClassifyAllRaw(init);
      RawLinesSnoc(init, last);
      ClassifyToRaw(last);
      ClassifyAllSnoc(RawLines(init), ToRaw(last), last);
    }
  }

  lemma RawLinesSnoc(ls: seq<Line>, l: Line)
    ensures RawLines(ls + [l]) == RawLines(ls) + [ToRaw(l)]
  {
  }

  /** A line's raw form has no line break when its text has none, and is never empty. */
  lemma RawNoNewline(l: Line)
    requires '\n' !in l.text
    ensures '\n' !in ToRaw(l) && ToRaw(l) != []
  {
    match l
      case Header(level, text) =>
        assert forall k :: 0 <= k < ToNat(level) ==> Repeat('#', ToNat(level))[k] == '#';
      case Item(text) =>
      case Comment(text) =>
  }

  /**
   * Round trip: when every level is in range and every line's text is
   * classifiable and free of line breaks, reading back the serialised text
   * gives the tree's own lines, which are well formed; so `parse` rebuilds
   * a tree with the same lines.
   */
  lemma ParseSerialize(t: BlockerSequence)
    requires LevelsInRange(t)
    requires forall k :: 0 <= k < |TreeLines(t)| ==> Classifiable(TreeLines(t)[k]) && '\n' !in TreeLines(t)[k].text
    ensures ClassifyAll(Lines(Serialize(t))) == TreeLines(t)
    ensures WellFormedLines(ClassifyAll(Lines(Serialize(t))))
  {
    var ls := TreeLines(t);
    SerializeIsRaw(t);
    forall k | 0 <= k < |ls| ensures '\n' !in RawLines(ls)[k] && RawLines(ls)[k] != [] {
      RawNoNewline(ls[k]);
    }
    LinesJoin(RawLines(ls));
    ClassifyAllRaw(ls);
    TreeLinesWellFormed(t);
  }
}
