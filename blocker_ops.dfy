/**
 * The stack operations of src/blocker_interactions/operations.rs on the
 * section tree of `IssueBlocker`: the current (last) item, its header path,
 * pushing onto and popping from the deepest section, listing and the two
 * renderings. The tree is updated as a value; `BlockerStack` holds it the
 * way a caller holds a mutable sequence.
 */
module BlockerOps {
  import opened Wrappers
  import opened Strings
  import opened IssueBlocker

  // ---------------------------------------------------------------------
  // Views of a line list used to state the operations' effects

  /** The texts of the item lines, in order. */
  function ItemTexts(ls: seq<Line>): seq<string> {
    if ls == [] then []
    else ItemTexts(ls[..|ls| - 1]) + (if ls[|ls| - 1].Item? then [ls[|ls| - 1].text] else [])
  }

  /** The header lines, in order. */
  function HeaderLines(ls: seq<Line>): seq<Line> {
    if ls == [] then []
    else HeaderLines(ls[..|ls| - 1]) + (if ls[|ls| - 1].Header? then [ls[|ls| - 1]] else [])
  }

  lemma {:induction false} ViewsAppend(a: seq<Line>, b: seq<Line>)
    ensures ItemTexts(a + b) == ItemTexts(a) + ItemTexts(b)
    ensures HeaderLines(a + b) == HeaderLines(a) + HeaderLines(b)
    decreases |b|
  {
    if b == [] {
      assert a + b == a;
    } else {
      assert (a + b)[..|a + b| - 1] == a + b[..|b| - 1];
      ViewsAppend(a, b[..|b| - 1]);
    }
  }

  lemma {:induction false} CommentViews(cs: seq<string>)
    ensures ItemTexts(CommentLines(cs)) == [] && HeaderLines(CommentLines(cs)) == []
    decreases |cs|
  {
    if cs != [] {
      assert CommentLines(cs)[..|cs| - 1] == CommentLines(cs[..|cs| - 1]);
      CommentViews(cs[..|cs| - 1]);
    }
  }

  lemma ItemBlockViews(item: BlockerItem)
    ensures ItemTexts(ItemBlock(item)) == [item.text] && HeaderLines(ItemBlock(item)) == []
  {
    CommentViews(item.comments);
    ViewsAppend([Item(item.text)], CommentLines(item.comments));
    assert ItemTexts([Item(item.text)]) == ItemTexts([]) + [item.text];
  }

  function Texts(items: seq<BlockerItem>): (r: seq<string>)
    ensures |r| == |items|
  {
    seq(|items|, k requires 0 <= k < |items| => items[k].text)
  }

  lemma {:induction false} ItemLinesViews(items: seq<BlockerItem>)
    ensures ItemTexts(ItemLines(items)) == Texts(items) && HeaderLines(ItemLines(items)) == []
    decreases |items|
  {
    if items != [] {
      var init := items[..|items| - 1];
      ItemLinesViews(init);
      ItemBlockViews(items[|items| - 1]);
      ViewsAppend(ItemLines(init), ItemBlock(items[|items| - 1]));
      assert Texts(items) == Texts(init) + [items[|items| - 1].text];
    }
  }

  lemma HeaderOfViews(c: BlockerSequence)
    ensures ItemTexts(HeaderOf(c)) == []
  {
    if HeaderOf(c) != [] {
      assert HeaderOf(c)[..0] == [];
    }
  }

  /** The lines of a section split at its last child. */
  lemma {:induction false} ChildrenViews(cs: seq<BlockerSequence>)
    requires cs != []
    ensures var c := cs[|cs| - 1];
      && ItemTexts(ChildrenLines(cs)) == ItemTexts(ChildrenLines(cs[..|cs| - 1])) + ItemTexts(TreeLines(c))
      && HeaderLines(ChildrenLines(cs)) == HeaderLines(ChildrenLines(cs[..|cs| - 1])) + HeaderLines(HeaderOf(c)) + HeaderLines(TreeLines(c))
  {
    var c := cs[|cs| - 1];
    ChildrenLinesSnoc(cs);
    HeaderOfViews(c);
    ThreeViews(ChildrenLines(cs[..|cs| - 1]), HeaderOf(c), TreeLines(c));
  }

  /** The views of three joined runs of lines, the middle one without items. */
  lemma ThreeViews(a: seq<Line>, b: seq<Line>, c: seq<Line>)
    requires ItemTexts(b) == []
    ensures ItemTexts(a + b + c) == ItemTexts(a) + ItemTexts(c)
    ensures HeaderLines(a + b + c) == HeaderLines(a) + HeaderLines(b) + HeaderLines(c)
  {
    ViewsAppend(a, b);
    ViewsAppend(a + b, c);
    assert ItemTexts(a) + [] == ItemTexts(a);
  }

  lemma {:induction false} ChildrenLinesSnoc(cs: seq<BlockerSequence>)
    requires cs != []
    ensures ChildrenLines(cs) == ChildrenLines(cs[..|cs| - 1]) + HeaderOf(cs[|cs| - 1]) + TreeLines(cs[|cs| - 1])
  {
  }

  lemma {:induction false} TreeViews(t: BlockerSequence)
    ensures ItemTexts(TreeLines(t)) == Texts(t.items) + ItemTexts(ChildrenLines(t.children))
    ensures HeaderLines(TreeLines(t)) == HeaderLines(ChildrenLines(t.children))
  {
    ItemLinesViews(t.items);
    ViewsAppend(ItemLines(t.items), ChildrenLines(t.children));
  }

  /** No item line: the same as `IsEmpty` on a tree. */
  lemma {:induction false} NoItemTexts(ls: seq<Line>)
    ensures ItemTexts(ls) == [] <==> NoItem(ls)
    decreases |ls|
  {
    if ls != [] {
      NoItemTexts(ls[..|ls| - 1]);
      NoItemAppend(ls[..|ls| - 1], [ls[|ls| - 1]]);
      assert ls[..|ls| - 1] + [ls[|ls| - 1]] == ls;
    }
  }

  // ---------------------------------------------------------------------
  // len

  /** `len`: own items plus the items of every child, recursively. */
  function Len(t: BlockerSequence): nat
    decreases t, 1
  {
    |t.items| + ChildrenLen(t.children)
  }

  function ChildrenLen(cs: seq<BlockerSequence>): nat
    decreases cs, 0
  {
    if cs == [] then 0 else ChildrenLen(cs[..|cs| - 1]) + Len(cs[|cs| - 1])
  }

  /** `len` counts exactly the item lines of the tree. */
  lemma {:induction false} LenCountsItems(t: BlockerSequence)
    ensures Len(t) == |ItemTexts(TreeLines(t))|
    decreases t, 1
  {
    TreeViews(t);
    ChildrenLenCounts(t.children);
  }

  lemma {:induction false} ChildrenLenCounts(cs: seq<BlockerSequence>)
    ensures ChildrenLen(cs) == |ItemTexts(ChildrenLines(cs))|
    decreases cs, 0
  {
    if cs != [] {
      ChildrenLenCounts(cs[..|cs| - 1]);
      LenCountsItems(cs[|cs| - 1]);
      ChildrenViews(cs);
    }
  }

  // ---------------------------------------------------------------------
  // current

  /** `last_item`: the rightmost child's last item, else this section's last item. */
  function LastItem(t: BlockerSequence): Option<BlockerItem>
    decreases t, 1
  {
    match LastItemChildren(t.children)
      case Some(item) => Some(item)
      case None => if t.items == [] then None else Some(t.items[|t.items| - 1])
  }

  function LastItemChildren(cs: seq<BlockerSequence>): Option<BlockerItem>
    decreases cs, 0
  {
    if cs == [] then None
    else
      match LastItem(cs[|cs| - 1])
        case Some(item) => Some(item)
        case None => LastItemChildren(cs[..|cs| - 1])
  }

  /** The last element of a list of texts, if any. */
  function LastText(xs: seq<string>): Option<string> {
    if xs == [] then None else Some(xs[|xs| - 1])
  }

  function TextOf(item: Option<BlockerItem>): Option<string> {
    match item
      case Some(i) => Some(i.text)
      case None => None
  }

  lemma {:induction false} LastTextAppend(a: seq<string>, b: seq<string>)
    ensures LastText(a + b) == if b == [] then LastText(a) else LastText(b)
  {
    if b == [] {
      assert a + b == a;
    }
  }

  /** `current` is the last item line of the tree: never a comment, and absent exactly when the tree is empty. */
  lemma {:induction false} CurrentIsLastItem(t: BlockerSequence)
    ensures TextOf(LastItem(t)) == LastText(ItemTexts(TreeLines(t)))
    decreases t, 1
  {
    TreeViews(t);
    CurrentChildren(t.children);
    LastTextAppend(Texts(t.items), ItemTexts(ChildrenLines(t.children)));
  }

  lemma {:induction false} CurrentChildren(cs: seq<BlockerSequence>)
    ensures TextOf(LastItemChildren(cs)) == LastText(ItemTexts(ChildrenLines(cs)))
    decreases cs, 0
  {
    if cs != [] {
      var c := cs[|cs| - 1];
      CurrentChildren(cs[..|cs| - 1]);
      CurrentIsLastItem(c);
      ChildrenViews(cs);
      LastTextAppend(ItemTexts(ChildrenLines(cs[..|cs| - 1])), ItemTexts(TreeLines(c)));
    }
  }

  /** There is a current item exactly when the tree is not empty. */
  lemma CurrentExists(t: BlockerSequence)
    ensures LastItem(t).None? <==> IsEmpty(t)
  {
    CurrentIsLastItem(t);
    NoItemTexts(TreeLines(t));
    IsEmptyNoItem(t);
  }

  /** `current_raw`: the current item as an item line. */
  function CurrentRaw(t: BlockerSequence): (r: Option<string>)
    ensures r.Some? <==> LastItem(t).Some?
    ensures r.Some? ==> r.value == ToRaw(Item(LastItem(t).value.text))
  {
    match LastItem(t)
      case Some(item) => Some(ITEM_PREFIX + item.text)
      case None => None
  }

  // ---------------------------------------------------------------------
  // current_with_context

  /**
   * `path_to_last`: the non-empty titles of the sections on the way to the
   * last item, choosing at each level the rightmost non-empty child.
   */
  function PathToLast(t: BlockerSequence): seq<string>
    decreases t, 1
  {
    match RightmostNonEmpty(t.children)
      case Some(i) => (if t.title != [] then [t.title] else []) + PathToLast(t.children[i])
      case None => if t.items != [] && t.title != [] then [t.title] else []
  }

  /** The index of the rightmost child that is not empty. */
  function RightmostNonEmpty(cs: seq<BlockerSequence>): (r: Option<nat>)
    ensures r.Some? ==> r.value < |cs| && !IsEmpty(cs[r.value])
    ensures r.Some? ==> forall j :: r.value < j < |cs| ==> IsEmpty(cs[j])
    ensures r.None? ==> forall j :: 0 <= j < |cs| ==> IsEmpty(cs[j])
  {
    if cs == [] then None
    else if !IsEmpty(cs[|cs| - 1]) then Some(|cs| - 1)
    else RightmostNonEmpty(cs[..|cs| - 1])
  }

  /**
   * The section that holds the current item, as a path of child indices,
   * found the way `last_item` searches.
   */
  function LastPath(t: BlockerSequence): seq<nat>
    decreases t
  {
    match LastChild(t.children)
      case Some(i) => [i] + LastPath(t.children[i])
      case None => []
  }

  /** The index of the rightmost child with a last item. */
  function LastChild(cs: seq<BlockerSequence>): (r: Option<nat>)
    ensures r.Some? ==> r.value < |cs|
  {
    if cs == [] then None
    else if LastItem(cs[|cs| - 1]).Some? then Some(|cs| - 1)
    else LastChild(cs[..|cs| - 1])
  }

  /** The titles of the sections along a path, starting with the section itself. */
  function TitlesAlong(t: BlockerSequence, p: seq<nat>): seq<string>
    decreases |p|
  {
    if p == [] || p[0] >= |t.children| then [t.title] else [t.title] + TitlesAlong(t.children[p[0]], p[1..])
  }

  /** The section a path leads to. */
  function SectionAt(t: BlockerSequence, p: seq<nat>): BlockerSequence
    decreases |p|
  {
    if p == [] || p[0] >= |t.children| then t else SectionAt(t.children[p[0]], p[1..])
  }

  /** The non-empty texts of a list. */
  function NonEmpty(xs: seq<string>): seq<string> {
    if xs == [] then [] else (if xs[0] != [] then [xs[0]] else []) + NonEmpty(xs[1..])
  }

  lemma {:induction false} LastChildIsNonEmpty(cs: seq<BlockerSequence>)
    ensures LastChild(cs) == RightmostNonEmpty(cs)
    ensures LastChild(cs).None? <==> LastItemChildren(cs).None?
    ensures LastChild(cs).Some? ==> LastItemChildren(cs) == LastItem(cs[LastChild(cs).value])
    decreases |cs|
  {
    if cs != [] {
      CurrentExists(cs[|cs| - 1]);
      LastChildIsNonEmpty(cs[..|cs| - 1]);
    }
  }

  /**
   * The current item is the last item of the section `LastPath` leads to,
   * and `path_to_last` is the non-empty titles along that path: the
   * emptiness test of `path_to_last` and the search of `last_item` agree.
   */
  lemma {:induction false} PathToLastIsTitles(t: BlockerSequence)
    ensures PathToLast(t) == if LastItem(t).None? then [] else NonEmpty(TitlesAlong(t, LastPath(t)))
    ensures LastItem(t).Some? ==> var s := SectionAt(t, LastPath(t));
      s.items != [] && LastItem(t) == Some(s.items[|s.items| - 1])
    decreases t
  {
    LastChildIsNonEmpty(t.children);
    match LastChild(t.children)
      case Some(i) =>
        PathToLastIsTitles(t.children[i]);
        PathStep(t, i);
      case None =>
        PathLeaf(t);
  }

  /** `path_to_last` is the non-empty titles along `LastPath`, which ends at the section holding the current item. */
  predicate PathAgrees(t: BlockerSequence) {
    && PathToLast(t) == (if LastItem(t).None? then [] else NonEmpty(TitlesAlong(t, LastPath(t))))
    && (LastItem(t).Some? ==> var s := SectionAt(t, LastPath(t));
          s.items != [] && LastItem(t) == Some(s.items[|s.items| - 1]))
  }

  /** No child has an item: the path stops here. */
  lemma PathLeaf(t: BlockerSequence)
    requires LastChild(t.children).None? && RightmostNonEmpty(t.children).None? && LastItemChildren(t.children).None?
    ensures PathAgrees(t)
  {
    assert LastPath(t) == [];
    assert NonEmpty([t.title]) == (if t.title != [] then [t.title] else []) + NonEmpty([]);
  }

  /** The path enters child `i`, where it agrees. */
  lemma PathStep(t: BlockerSequence, i: nat)
    requires LastChild(t.children) == Some(i) && RightmostNonEmpty(t.children) == Some(i)
    requires i < |t.children| && LastItemChildren(t.children).Some?
    requires LastItemChildren(t.children) == LastItem(t.children[i])
    requires PathAgrees(t.children[i])
    ensures PathAgrees(t)
  {
    TitlesStep(t, i);
  }

  /** One step down the path: the titles and the section of the child the path enters. */
  lemma TitlesStep(t: BlockerSequence, i: nat)
    requires LastChild(t.children) == Some(i)
    ensures i < |t.children| && LastPath(t) == [i] + LastPath(t.children[i])
    ensures NonEmpty(TitlesAlong(t, LastPath(t)))
         == (if t.title != [] then [t.title] else []) + NonEmpty(TitlesAlong(t.children[i], LastPath(t.children[i])))
    ensures SectionAt(t, LastPath(t)) == SectionAt(t.children[i], LastPath(t.children[i]))
  {
    var p := LastPath(t);
    assert p[0] == i && p[1..] == LastPath(t.children[i]);
    assert TitlesAlong(t, p) == [t.title] + TitlesAlong(t.children[i], p[1..]);
  }

  /** `current_with_context`: hierarchy, header path and item text joined by ": ". */
  function CurrentWithContext(t: BlockerSequence, hierarchy: seq<string>): Option<string> {
    match LastItem(t)
      case None => None
      case Some(item) =>
        var parts := hierarchy + PathToLast(t);
        if parts == [] then Some(item.text) else Some(Join(parts, ": ") + ": " + item.text)
  }

  /** Both branches of `current_with_context` are one join of all the parts. */
  lemma CurrentWithContextJoin(t: BlockerSequence, hierarchy: seq<string>)
    ensures CurrentWithContext(t, hierarchy).None? <==> IsEmpty(t)
    ensures LastItem(t).Some? ==>
      CurrentWithContext(t, hierarchy) == Some(Join(hierarchy + PathToLast(t) + [LastItem(t).value.text], ": "))
  {
    CurrentExists(t);
    if LastItem(t).Some? {
      var parts := hierarchy + PathToLast(t);
      if parts != [] {
        JoinAppend(parts, LastItem(t).value.text, ": ");
      }
    }
  }

  // ---------------------------------------------------------------------
  // pop

  datatype Popped = Popped(item: Option<BlockerItem>, tree: BlockerSequence)
  datatype PoppedChildren = PoppedChildren(item: Option<BlockerItem>, children: seq<BlockerSequence>)

  /** `pop_last`: remove the item `last_item` finds. */
  function PopLast(t: BlockerSequence): (r: Popped)
    ensures r.tree.title == t.title && r.tree.level == t.level
    decreases t, 1
  {
    var r := PopLastChildren(t.children);
    if r.item.Some? then Popped(r.item, t.(children := r.children))
    else if t.items == [] then Popped(None, t)
    else Popped(Some(t.items[|t.items| - 1]), t.(items := t.items[..|t.items| - 1]))
  }

  function PopLastChildren(cs: seq<BlockerSequence>): (r: PoppedChildren)
    ensures |r.children| == |cs|
    ensures forall k :: 0 <= k < |cs| ==> r.children[k].level == cs[k].level && r.children[k].title == cs[k].title
    decreases cs, 0
  {
    if cs == [] then PoppedChildren(None, cs)
    else
      var init := cs[..|cs| - 1];
      var last := cs[|cs| - 1];
      var p := PopLast(last);
      if p.item.Some? then PoppedChildren(p.item, init + [p.tree])
      else
        var q := PopLastChildren(init);
        PoppedChildren(q.item, q.children + [last])
  }

  /** All but the last element. */
  function Init(xs: seq<string>): seq<string> {
    if xs == [] then [] else xs[..|xs| - 1]
  }

  lemma {:induction false} InitAppend(a: seq<string>, b: seq<string>)
    ensures Init(a + b) == if b == [] then Init(a) else a + Init(b)
  {
    if b == [] {
      assert a + b == a;
    } else {
      assert (a + b)[..|a + b| - 1] == a + b[..|b| - 1];
    }
  }

  /**
   * `pop` removes exactly the last item line and returns its text; with no
   * item it returns nothing and changes nothing.
   */
  lemma {:induction false} PopRemovesLast(t: BlockerSequence)
    ensures TextOf(PopLast(t).item) == LastText(ItemTexts(TreeLines(t)))
    ensures ItemTexts(TreeLines(PopLast(t).tree)) == Init(ItemTexts(TreeLines(t)))
    ensures PopLast(t).item.None? ==> PopLast(t).tree == t
    decreases t, 1
  {
    PopChildren(t.children);
    PopTree(t);
  }

  /** What `pop` promises of a tree. */
  predicate PopsLast(t: BlockerSequence) {
    && TextOf(PopLast(t).item) == LastText(ItemTexts(TreeLines(t)))
    && ItemTexts(TreeLines(PopLast(t).tree)) == Init(ItemTexts(TreeLines(t)))
    && (PopLast(t).item.None? ==> PopLast(t).tree == t)
  }

  /** What `pop` promises of the children of a section. */
  predicate PopsLastChildren(cs: seq<BlockerSequence>) {
    && TextOf(PopLastChildren(cs).item) == LastText(ItemTexts(ChildrenLines(cs)))
    && ItemTexts(ChildrenLines(PopLastChildren(cs).children)) == Init(ItemTexts(ChildrenLines(cs)))
    && (PopLastChildren(cs).item.None? ==> PopLastChildren(cs).children == cs)
  }

  /** A section pops the children's last item, or else its own. */
  lemma PopTree(t: BlockerSequence)
    requires PopsLastChildren(t.children)
    ensures PopsLast(t)
  {
    var r := PopLastChildren(t.children);
    TreeViews(t);
    LastTextAppend(Texts(t.items), ItemTexts(ChildrenLines(t.children)));
    InitAppend(Texts(t.items), ItemTexts(ChildrenLines(t.children)));
    if r.item.Some? {
      TreeViews(t.(children := r.children));
    } else if t.items != [] {
      PopOwnItem(t);
    }
  }

  /** No child has an item: the section's own last item goes. */
  lemma PopOwnItem(t: BlockerSequence)
    requires PopLastChildren(t.children).item.None? && t.items != []
    requires ItemTexts(ChildrenLines(t.children)) == []
    ensures PopLast(t).item == Some(t.items[|t.items| - 1])
    ensures ItemTexts(TreeLines(PopLast(t).tree)) == Init(Texts(t.items))
  {
    var u := t.(items := t.items[..|t.items| - 1]);
    assert PopLast(t) == Popped(Some(t.items[|t.items| - 1]), u);
    DropLastItemTexts(u, t.items);
  }

  /** A section holding all but the last of `items` and no item in its children. */
  lemma DropLastItemTexts(u: BlockerSequence, items: seq<BlockerItem>)
    requires items != [] && u.items == items[..|items| - 1] && ItemTexts(ChildrenLines(u.children)) == []
    ensures ItemTexts(TreeLines(u)) == Init(Texts(items))
  {
    TreeViews(u);
    var x := Texts(u.items);
    assert x + [] == x;
    assert x == Init(Texts(items));
  }

  lemma {:induction false} PopChildren(cs: seq<BlockerSequence>)
    ensures TextOf(PopLastChildren(cs).item) == LastText(ItemTexts(ChildrenLines(cs)))
    ensures ItemTexts(ChildrenLines(PopLastChildren(cs).children)) == Init(ItemTexts(ChildrenLines(cs)))
    ensures PopLastChildren(cs).item.None? ==> PopLastChildren(cs).children == cs
    decreases cs, 0
  {
    if cs != [] {
      var init := cs[..|cs| - 1];
      var last := cs[|cs| - 1];
      PopRemovesLast(last);
      if PopLast(last).item.Some? {
        PopFromLastChild(cs);
      } else {
        PopChildren(init);
        PopBeforeLastChild(cs);
      }
    }
  }

  /** The last child had an item: it gave it up. */
  lemma {:induction false} PopFromLastChild(cs: seq<BlockerSequence>)
    requires cs != [] && PopLast(cs[|cs| - 1]).item.Some?
    requires var last := cs[|cs| - 1];
      && TextOf(PopLast(last).item) == LastText(ItemTexts(TreeLines(last)))
      && ItemTexts(TreeLines(PopLast(last).tree)) == Init(ItemTexts(TreeLines(last)))
    ensures TextOf(PopLastChildren(cs).item) == LastText(ItemTexts(ChildrenLines(cs)))
    ensures ItemTexts(ChildrenLines(PopLastChildren(cs).children)) == Init(ItemTexts(ChildrenLines(cs)))
  {
    var init := cs[..|cs| - 1];
    var last := cs[|cs| - 1];
    var p := PopLast(last);
    var ds := init + [p.tree];
    assert PopLastChildren(cs) == PoppedChildren(p.item, ds);
    ChildrenViews(cs);
    assert ds[..|ds| - 1] == init;
    ChildrenViews(ds);
    var a := ItemTexts(ChildrenLines(init));
    LastTextAppend(a, ItemTexts(TreeLines(last)));
    InitAppend(a, ItemTexts(TreeLines(last)));
  }

  /** The last child had no item: the earlier children gave one up, if any had one. */
  lemma {:induction false} PopBeforeLastChild(cs: seq<BlockerSequence>)
    requires cs != [] && PopLast(cs[|cs| - 1]).item.None?
    requires TextOf(PopLast(cs[|cs| - 1]).item) == LastText(ItemTexts(TreeLines(cs[|cs| - 1])))
    requires var init := cs[..|cs| - 1];
      && TextOf(PopLastChildren(init).item) == LastText(ItemTexts(ChildrenLines(init)))
      && ItemTexts(ChildrenLines(PopLastChildren(init).children)) == Init(ItemTexts(ChildrenLines(init)))
      && (PopLastChildren(init).item.None? ==> PopLastChildren(init).children == init)
    ensures TextOf(PopLastChildren(cs).item) == LastText(ItemTexts(ChildrenLines(cs)))
    ensures ItemTexts(ChildrenLines(PopLastChildren(cs).children)) == Init(ItemTexts(ChildrenLines(cs)))
    ensures PopLastChildren(cs).item.None? ==> PopLastChildren(cs).children == cs
  {
    var init := cs[..|cs| - 1];
    var last := cs[|cs| - 1];
    var q := PopLastChildren(init);
    var ds := q.children + [last];
    assert PopLastChildren(cs) == PoppedChildren(q.item, ds);
    assert ItemTexts(TreeLines(last)) == [];
    SnocSplit(cs);
    ChildrenViewsSnoc(init, last);
    ChildrenViewsSnoc(q.children, last);
    var a := ItemTexts(ChildrenLines(init));
    assert a + [] == a;
  }

  /** The lines of children with one more child appended. */
  lemma ChildrenViewsSnoc(init: seq<BlockerSequence>, c: BlockerSequence)
    ensures ItemTexts(ChildrenLines(init + [c])) == ItemTexts(ChildrenLines(init)) + ItemTexts(TreeLines(c))
    ensures HeaderLines(ChildrenLines(init + [c]))
         == HeaderLines(ChildrenLines(init)) + HeaderLines(HeaderOf(c)) + HeaderLines(TreeLines(c))
  {
    FrontOfSnoc(init, c);
    ChildrenViews(init + [c]);
  }

  /** `pop` leaves every header in place. */
  lemma {:induction false} PopKeepsHeaders(t: BlockerSequence)
    ensures HeaderLines(TreeLines(PopLast(t).tree)) == HeaderLines(TreeLines(t))
    decreases t, 1
  {
    var r := PopLastChildren(t.children);
    TreeViews(t);
    PopChildrenKeepsHeaders(t.children);
    if r.item.Some? {
      TreeViews(t.(children := r.children));
    } else if t.items != [] {
      TreeViews(t.(items := t.items[..|t.items| - 1]));
    }
  }

  lemma {:induction false} PopChildrenKeepsHeaders(cs: seq<BlockerSequence>)
    ensures HeaderLines(ChildrenLines(PopLastChildren(cs).children)) == HeaderLines(ChildrenLines(cs))
    decreases cs, 0
  {
    if cs != [] {
      var init := cs[..|cs| - 1];
      var last := cs[|cs| - 1];
      var p := PopLast(last);
      PopKeepsHeaders(last);
      ChildrenViews(cs);
      if p.item.Some? {
        var ds := init + [p.tree];
        assert ds[..|ds| - 1] == init;
        ChildrenViews(ds);
        assert HeaderOf(p.tree) == HeaderOf(last);
      } else {
        PopChildrenKeepsHeaders(init);
        var q := PopLastChildren(init);
        var ds := q.children + [last];
        assert ds[..|ds| - 1] == q.children;
        ChildrenViews(ds);
      }
    }
  }

  /** `pop` returns the item `current` showed. */
  lemma {:induction false} PopIsCurrent(t: BlockerSequence)
    ensures PopLast(t).item == LastItem(t)
    decreases t, 1
  {
    PopChildrenIsCurrent(t.children);
  }

  lemma {:induction false} PopChildrenIsCurrent(cs: seq<BlockerSequence>)
    ensures PopLastChildren(cs).item == LastItemChildren(cs)
    decreases cs, 0
  {
    if cs != [] {
      PopIsCurrent(cs[|cs| - 1]);
      PopChildrenIsCurrent(cs[..|cs| - 1]);
    }
  }

  /** After a pop, the current item is the one before the popped one. */
  lemma PopThenCurrent(t: BlockerSequence)
    ensures TextOf(LastItem(PopLast(t).tree)) == LastText(Init(ItemTexts(TreeLines(t))))
  {
    PopRemovesLast(t);
    CurrentIsLastItem(PopLast(t).tree);
  }

  // ---------------------------------------------------------------------
  // add

  /**
   * `add_to_deepest`: the rightmost child that accepts takes the item;
   * otherwise a section with items or below the root takes it; otherwise
   * nothing happens (`None`).
   */
  function AddToDeepest(t: BlockerSequence, item: BlockerItem): (r: Option<BlockerSequence>)
    ensures r.Some? ==> r.value.title == t.title && r.value.level == t.level
    decreases t, 1
  {
    match AddToDeepestChildren(t.children, item)
      case Some(cs) => Some(t.(children := cs))
      case None => if t.items != [] || t.level > 0 then Some(t.(items := t.items + [item])) else None
  }

  function AddToDeepestChildren(cs: seq<BlockerSequence>, item: BlockerItem): (r: Option<seq<BlockerSequence>>)
    ensures r.Some? ==> |r.value| == |cs|
    ensures r.Some? ==> forall k :: 0 <= k < |cs| ==> r.value[k].level == cs[k].level && r.value[k].title == cs[k].title
    decreases cs, 0
  {
    if cs == [] then None
    else
      var init := cs[..|cs| - 1];
      var last := cs[|cs| - 1];
      match AddToDeepest(last, item)
        case Some(c) => Some(init + [c])
        case None =>
          match AddToDeepestChildren(init, item)
            case Some(ds) => Some(ds + [last])
            case None => None
  }

  /** `add_item_to_current`: the deepest section takes the item, or else the root. */
  function AddItemToCurrent(t: BlockerSequence, item: BlockerItem): BlockerSequence {
    match AddToDeepest(t, item)
      case Some(r) => r
      case None => t.(items := t.items + [item])
  }

  /** A section that refuses the item holds no item; one that takes it gains it as its last item line. */
  lemma {:induction false} AddToDeepestSpec(t: BlockerSequence, item: BlockerItem)
    ensures AddToDeepest(t, item).None? ==> ItemTexts(TreeLines(t)) == []
    ensures AddToDeepest(t, item).Some? ==> ItemTexts(TreeLines(AddToDeepest(t, item).value)) == ItemTexts(TreeLines(t)) + [item.text]
    decreases t, 1
  {
    AddChildrenSpec(t.children, item);
    var r := AddToDeepestChildren(t.children, item);
    if r.Some? {
      assert AddToDeepest(t, item) == Some(t.(children := r.value));
      ItemTextsViaChildren(t, r.value, item.text);
    } else if t.items != [] || t.level > 0 {
      assert AddToDeepest(t, item) == Some(t.(items := t.items + [item]));
      ItemTextsViaItems(t, item);
    } else {
      TreeViews(t);
    }
  }

  /** Replacing the children by ones with one more trailing item line adds that line to the section. */
  lemma {:induction false} ItemTextsViaChildren(t: BlockerSequence, cs: seq<BlockerSequence>, x: string)
    requires ItemTexts(ChildrenLines(cs)) == ItemTexts(ChildrenLines(t.children)) + [x]
    ensures ItemTexts(TreeLines(t.(children := cs))) == ItemTexts(TreeLines(t)) + [x]
  {
    TreeViews(t);
    TreeViews(t.(children := cs));
  }

  /** An item appended to a section without item lines below it becomes its last item line. */
  lemma {:induction false} ItemTextsViaItems(t: BlockerSequence, item: BlockerItem)
    requires ItemTexts(ChildrenLines(t.children)) == []
    ensures ItemTexts(TreeLines(t.(items := t.items + [item]))) == ItemTexts(TreeLines(t)) + [item.text]
  {
    TreeViews(t);
    TreeViews(t.(items := t.items + [item]));
    TextsSnoc(t.items, item);
  }

  lemma TextsSnoc(items: seq<BlockerItem>, item: BlockerItem)
    ensures Texts(items + [item]) == Texts(items) + [item.text]
  {
  }

  /** Replacing the last child by one with one more trailing item line adds that line to the children. */
  lemma {:induction false} ItemTextsReplaceLast(init: seq<BlockerSequence>, last: BlockerSequence, c: BlockerSequence, x: string)
    requires ItemTexts(TreeLines(c)) == ItemTexts(TreeLines(last)) + [x]
    ensures ItemTexts(ChildrenLines(init + [c])) == ItemTexts(ChildrenLines(init + [last])) + [x]
  {
    ChildrenViewsSnoc(init, last);
    ChildrenViewsSnoc(init, c);
    AppendAssoc(ItemTexts(ChildrenLines(init)), ItemTexts(TreeLines(last)), [x]);
  }

  lemma {:induction false} AddChildrenSpec(cs: seq<BlockerSequence>, item: BlockerItem)
    ensures AddToDeepestChildren(cs, item).None? ==> ItemTexts(ChildrenLines(cs)) == []
    ensures AddToDeepestChildren(cs, item).Some? ==>
      ItemTexts(ChildrenLines(AddToDeepestChildren(cs, item).value)) == ItemTexts(ChildrenLines(cs)) + [item.text]
    decreases cs, 0
  {
    if cs != [] {
      var init := cs[..|cs| - 1];
      var last := cs[|cs| - 1];
      AddToDeepestSpec(last, item);
      var r := AddToDeepest(last, item);
      if r.Some? {
        assert AddToDeepestChildren(cs, item) == Some(init + [r.value]);
        SnocSplit(cs);
        ItemTextsReplaceLast(init, last, r.value, item.text);
      } else {
        AddChildrenSpec(init, item);
        AddBeforeLastChild(cs, item);
      }
    }
  }

  lemma {:induction false} AddBeforeLastChild(cs: seq<BlockerSequence>, item: BlockerItem)
    requires cs != [] && AddToDeepest(cs[|cs| - 1], item).None?
    requires ItemTexts(TreeLines(cs[|cs| - 1])) == []
    requires var init := cs[..|cs| - 1];
      && (AddToDeepestChildren(init, item).None? ==> ItemTexts(ChildrenLines(init)) == [])
      && (AddToDeepestChildren(init, item).Some? ==>
          ItemTexts(ChildrenLines(AddToDeepestChildren(init, item).value)) == ItemTexts(ChildrenLines(init)) + [item.text])
    ensures AddToDeepestChildren(cs, item).None? ==> ItemTexts(ChildrenLines(cs)) == []
    ensures AddToDeepestChildren(cs, item).Some? ==>
      ItemTexts(ChildrenLines(AddToDeepestChildren(cs, item).value)) == ItemTexts(ChildrenLines(cs)) + [item.text]
  {
    var init := cs[..|cs| - 1];
    var last := cs[|cs| - 1];
    ChildrenViews(cs);
    var a := ItemTexts(ChildrenLines(init));
    assert a + [] == a;
    match AddToDeepestChildren(init, item)
      case Some(ds0) =>
        var ds := ds0 + [last];
        assert AddToDeepestChildren(cs, item) == Some(ds);
        assert ds[..|ds| - 1] == ds0;
        ChildrenViews(ds);
      case None =>
        assert AddToDeepestChildren(cs, item).None?;
  }

  /** Adding an item leaves every header in place. */
  lemma {:induction false} AddKeepsHeaders(t: BlockerSequence, item: BlockerItem)
    ensures AddToDeepest(t, item).Some? ==> HeaderLines(TreeLines(AddToDeepest(t, item).value)) == HeaderLines(TreeLines(t))
    decreases t, 1
  {
    TreeViews(t);
    AddChildrenKeepHeaders(t.children, item);
    match AddToDeepestChildren(t.children, item)
      case Some(cs) =>
        TreeViews(t.(children := cs));
      case None =>
        if t.items != [] || t.level > 0 {
          TreeViews(t.(items := t.items + [item]));
        }
  }

  lemma {:induction false} AddChildrenKeepHeaders(cs: seq<BlockerSequence>, item: BlockerItem)
    ensures AddToDeepestChildren(cs, item).Some? ==>
      HeaderLines(ChildrenLines(AddToDeepestChildren(cs, item).value)) == HeaderLines(ChildrenLines(cs))
    decreases cs, 0
  {
    if cs != [] {
      var init := cs[..|cs| - 1];
      var last := cs[|cs| - 1];
      ChildrenViews(cs);
      match AddToDeepest(last, item)
        case Some(c) =>
          AddKeepsHeaders(last, item);
          var ds := init + [c];
          assert ds[..|ds| - 1] == init;
          ChildrenViews(ds);
          assert HeaderOf(c) == HeaderOf(last);
        case None =>
          AddChildrenKeepHeaders(init, item);
          match AddToDeepestChildren(init, item)
            case Some(ds0) =>
              var ds := ds0 + [last];
              assert ds[..|ds| - 1] == ds0;
              ChildrenViews(ds);
            case None =>
    }
  }

  /** `add` appends exactly one item line, leaves the headers alone, and the new item becomes current. */
  lemma AddAppends(t: BlockerSequence, item: BlockerItem)
    ensures ItemTexts(TreeLines(AddItemToCurrent(t, item))) == ItemTexts(TreeLines(t)) + [item.text]
    ensures HeaderLines(TreeLines(AddItemToCurrent(t, item))) == HeaderLines(TreeLines(t))
    ensures TextOf(LastItem(AddItemToCurrent(t, item))) == Some(item.text)
    ensures Len(AddItemToCurrent(t, item)) == Len(t) + 1
  {
    AddToDeepestSpec(t, item);
    AddKeepsHeaders(t, item);
    if AddToDeepest(t, item).None? {
      TreeViews(t);
      TreeViews(t.(items := t.items + [item]));
      assert Texts(t.items + [item]) == Texts(t.items) + [item.text];
    }
    CurrentIsLastItem(AddItemToCurrent(t, item));
    LenCountsItems(t);
    LenCountsItems(AddItemToCurrent(t, item));
  }

  /** `pop` undoes `add`: the added item comes back and the items are as before. */
  lemma PopUndoesAdd(t: BlockerSequence, text: string)
    ensures var r := PopLast(AddItemToCurrent(t, BlockerItem(text, [])));
      && r.item == Some(BlockerItem(text, []))
      && ItemTexts(TreeLines(r.tree)) == ItemTexts(TreeLines(t))
  {
    var item := BlockerItem(text, []);
    var added := AddItemToCurrent(t, item);
    AddAppends(t, item);
    PopRemovesLast(added);
    var xs := ItemTexts(TreeLines(t));
    FrontOfSnoc(xs, text);
    PopIsCurrent(added);
    AddIsCurrent(t, item);
  }

  /** The added item itself, comments included, becomes current. */
  lemma AddIsCurrent(t: BlockerSequence, item: BlockerItem)
    ensures LastItem(AddItemToCurrent(t, item)) == Some(item)
  {
    AddToDeepestSpec(t, item);
    if AddToDeepest(t, item).Some? {
      AddToDeepestLast(t, item);
    } else {
      assert ItemTexts(TreeLines(t)) == [];
      NoItemTexts(TreeLines(t));
      IsEmptyNoItem(t);
      EmptyChildrenNoLast(t.children);
    }
  }

  lemma {:induction false} EmptyChildrenNoLast(cs: seq<BlockerSequence>)
    requires forall c :: c in cs ==> IsEmpty(c)
    ensures LastItemChildren(cs).None?
    decreases |cs|
  {
    if cs != [] {
      assert cs[|cs| - 1] in cs;
      CurrentExists(cs[|cs| - 1]);
      assert forall c :: c in cs[..|cs| - 1] ==> c in cs;
      EmptyChildrenNoLast(cs[..|cs| - 1]);
    }
  }

  lemma {:induction false} AddToDeepestLast(t: BlockerSequence, item: BlockerItem)
    requires AddToDeepest(t, item).Some?
    ensures LastItem(AddToDeepest(t, item).value) == Some(item)
    decreases t, 1
  {
    match AddToDeepestChildren(t.children, item)
      case Some(cs) =>
        AddChildrenLast(t.children, item);
      case None =>
        AddChildrenSpec(t.children, item);
        NoItemTexts(ChildrenLines(t.children));
        ChildrenNoItem(t.children);
        EmptyChildrenNoLast(t.children);
  }

  lemma {:induction false} AddChildrenLast(cs: seq<BlockerSequence>, item: BlockerItem)
    requires AddToDeepestChildren(cs, item).Some?
    ensures LastItemChildren(AddToDeepestChildren(cs, item).value) == Some(item)
    decreases cs, 0
  {
    var init := cs[..|cs| - 1];
    var last := cs[|cs| - 1];
    match AddToDeepest(last, item)
      case Some(c) =>
        AddToDeepestLast(last, item);
        assert (init + [c])[..|cs| - 1] == init;
      case None =>
        AddToDeepestSpec(last, item);
        NoItemTexts(TreeLines(last));
        IsEmptyNoItem(last);
        CurrentExists(last);
        AddChildrenLast(init, item);
        var ds := AddToDeepestChildren(init, item).value;
        assert (ds + [last])[..|cs| - 1] == ds;
  }

  // ---------------------------------------------------------------------
  // list and render

  /** `render_headers_vec`: the section's own header (below the root), items with comments, then children. */
  function RenderHeaders(t: BlockerSequence): seq<Line>
    decreases t, 1
  {
    HeaderOf(t) + ItemLines(t.items) + RenderHeadersChildren(t.children)
  }

  function RenderHeadersChildren(cs: seq<BlockerSequence>): seq<Line>
    decreases cs, 0
  {
    if cs == [] then [] else RenderHeadersChildren(cs[..|cs| - 1]) + RenderHeaders(cs[|cs| - 1])
  }

  /** The flat rendering is the section's header followed by `lines()`. */
  lemma {:induction false} RenderHeadersIsLines(t: BlockerSequence)
    ensures RenderHeaders(t) == HeaderOf(t) + TreeLines(t)
    decreases t, 1
  {
    RenderChildrenIsLines(t.children);
  }

  lemma {:induction false} RenderChildrenIsLines(cs: seq<BlockerSequence>)
    ensures RenderHeadersChildren(cs) == ChildrenLines(cs)
    decreases cs, 0
  {
    if cs != [] {
      RenderChildrenIsLines(cs[..|cs| - 1]);
      RenderHeadersIsLines(cs[|cs| - 1]);
    }
  }

  /** A listed entry: its text, and whether it is a header. */
  datatype Entry = Entry(text: string, isHeader: bool)

  function ListLines(ls: seq<Line>): seq<Entry> {
    if ls == [] then []
    else
      var l := ls[|ls| - 1];
      ListLines(ls[..|ls| - 1]) + (if l.Comment? then [] else [Entry(l.text, l.Header?)])
  }

  /** `list`: headers and items of the flat rendering, comments left out. */
  function List(t: BlockerSequence): seq<Entry> {
    ListLines(RenderHeaders(t))
  }

  /** For the root, `list` gives one entry per header and item line of `lines()`, in order. */
  lemma ListIsSkeleton(t: BlockerSequence)
    requires t.level == 0
    ensures List(t) == ListLines(TreeLines(t))
    ensures |List(t)| == |Skeleton(TreeLines(t))|
    ensures forall k :: 0 <= k < |List(t)| ==>
      List(t)[k] == Entry(Skeleton(TreeLines(t))[k].text, Skeleton(TreeLines(t))[k].Header?)
  {
    RenderHeadersIsLines(t);
    assert HeaderOf(t) == [];
    assert [] + TreeLines(t) == TreeLines(t);
    ListSkeleton(TreeLines(t));
  }

  lemma {:induction false} ListSkeleton(ls: seq<Line>)
    ensures |ListLines(ls)| == |Skeleton(ls)|
    ensures forall k :: 0 <= k < |ListLines(ls)| ==> ListLines(ls)[k] == Entry(Skeleton(ls)[k].text, Skeleton(ls)[k].Header?)
    decreases |ls|
  {
    if ls != [] {
      ListSkeleton(ls[..|ls| - 1]);
    }
  }

  datatype DisplayFormat = Headers | Nested

  /** `render_nested_inner`: titles on their own lines, items and comments one tab deeper than their section's title. */
  function RenderNested(t: BlockerSequence, indent: nat): seq<string>
    decreases t, 1
  {
    var inner := if t.level > 0 then indent + 1 else indent;
    (if t.level > 0 && t.title != [] then [Repeat('\t', indent) + t.title] else [])
    + NestedItems(t.items, Repeat('\t', inner))
    + RenderNestedChildren(t.children, inner)
  }

  function NestedItems(items: seq<BlockerItem>, pad: string): seq<string> {
    if items == [] then []
    else
      var item := items[|items| - 1];
      NestedItems(items[..|items| - 1], pad) + [pad + ITEM_PREFIX + item.text]
        + seq(|item.comments|, k requires 0 <= k < |item.comments| => pad + "\t" + item.comments[k])
  }

  function RenderNestedChildren(cs: seq<BlockerSequence>, indent: nat): seq<string>
    decreases cs, 0
  {
    if cs == [] then [] else RenderNestedChildren(cs[..|cs| - 1], indent) + RenderNested(cs[|cs| - 1], indent)
  }

  /** `render`. */
  function Render(t: BlockerSequence, format: DisplayFormat): string {
    match format
      case Headers => Serialize(t)
      case Nested => Join(RenderNested(t, 0), "\n")
  }

  /** Every section below the root has a level in 1..=5 and a non-empty title, as `parse` produces. */
  predicate Titled(t: BlockerSequence)
    decreases t
  {
    forall c :: c in t.children ==> 1 <= c.level <= 5 && c.title != [] && Titled(c)
  }

  lemma {:induction false} NestedItemsCount(items: seq<BlockerItem>, pad: string)
    ensures |NestedItems(items, pad)| == |ItemLines(items)|
    ensures forall k :: 0 <= k < |NestedItems(items, pad)| ==> StartsWith(NestedItems(items, pad)[k], pad)
    decreases |items|
  {
    if items != [] {
      var item := items[|items| - 1];
      NestedItemsCount(items[..|items| - 1], pad);
      var tail := [pad + ITEM_PREFIX + item.text] + seq(|item.comments|, k requires 0 <= k < |item.comments| => pad + "\t" + item.comments[k]);
      assert NestedItems(items, pad) == NestedItems(items[..|items| - 1], pad) + tail;
      forall k | 0 <= k < |tail| ensures StartsWith(tail[k], pad) {
        if k == 0 {
          assert tail[0] == pad + (ITEM_PREFIX + item.text);
          assert tail[0][..|pad|] == pad;
        } else {
          assert tail[k] == pad + ("\t" + item.comments[k - 1]);
          assert tail[k][..|pad|] == pad;
        }
      }
    }
  }

  lemma RepeatPrefix(c: char, m: nat, n: nat)
    requires m <= n
    ensures StartsWith(Repeat(c, n), Repeat(c, m))
  {
    assert Repeat(c, n)[..m] == Repeat(c, m);
  }

  lemma StartsWithTrans(s: string, p: string, q: string)
    requires StartsWith(s, q) && StartsWith(q, p)
    ensures StartsWith(s, p)
  {
    assert s[..|p|] == q[..|p|];
  }

  /**
   * The nested rendering of a titled tree has one line per line of
   * `lines()`, and every line starts with the indentation it was given.
   */
  lemma {:induction false} NestedShape(t: BlockerSequence, indent: nat)
    requires Titled(t)
    requires t.level > 0 ==> 1 <= t.level <= 5 && t.title != []
    ensures |RenderNested(t, indent)| == |HeaderOf(t)| + |TreeLines(t)|
    ensures forall k :: 0 <= k < |RenderNested(t, indent)| ==> StartsWith(RenderNested(t, indent)[k], Repeat('\t', indent))
    decreases t, 1
  {
    var inner := if t.level > 0 then indent + 1 else indent;
    var pad := Repeat('\t', inner);
    var head := if t.level > 0 && t.title != [] then [Repeat('\t', indent) + t.title] else [];
    NestedItemsCount(t.items, pad);
    NestedChildrenShape(t.children, inner);
    RepeatPrefix('\t', indent, inner);
    var r := RenderNested(t, indent);
    assert r == head + NestedItems(t.items, pad) + RenderNestedChildren(t.children, inner);
    forall k | 0 <= k < |r| ensures StartsWith(r[k], Repeat('\t', indent)) {
      if k < |head| {
        assert r[k] == Repeat('\t', indent) + t.title;
        assert r[k][..indent] == Repeat('\t', indent);
      } else {
        StartsWithTrans(r[k], Repeat('\t', indent), pad);
      }
    }
  }

  lemma {:induction false} NestedChildrenShape(cs: seq<BlockerSequence>, indent: nat)
    requires forall c :: c in cs ==> 1 <= c.level <= 5 && c.title != [] && Titled(c)
    ensures |RenderNestedChildren(cs, indent)| == |ChildrenLines(cs)|
    ensures forall k :: 0 <= k < |RenderNestedChildren(cs, indent)| ==> StartsWith(RenderNestedChildren(cs, indent)[k], Repeat('\t', indent))
    decreases cs, 0
  {
    if cs != [] {
      var c := cs[|cs| - 1];
      assert c in cs;
      NestedChildrenShape(cs[..|cs| - 1], indent);
      NestedShape(c, indent);
    }
  }

  // ---------------------------------------------------------------------
  // The sequence a caller holds

  /** A blocker sequence updated in place by `add` and `pop`. */
  class BlockerStack {
    var tree: BlockerSequence

    constructor(t: BlockerSequence)
      ensures tree == t
    {
      tree := t;
    }

    /** `len`. */
    function Length(): nat
      reads this
    {
      Len(tree)
    }

    /** `current`. */
    function Current(): Option<BlockerItem>
      reads this
    {
      LastItem(tree)
    }

    /** `add`: a comment-less item joins the deepest section. */
    method Add(text: string)
      modifies this
      ensures tree == AddItemToCurrent(old(tree), BlockerItem(text, []))
      ensures Current() == Some(BlockerItem(text, []))
      ensures Length() == old(Length()) + 1
    {
      AddAppends(tree, BlockerItem(text, []));
      AddIsCurrent(tree, BlockerItem(text, []));
      tree := AddItemToCurrent(tree, BlockerItem(text, []));
    }

    /** `pop`: the current item's text, after removing it. */
    method Pop() returns (r: Option<string>)
      modifies this
      ensures r == TextOf(old(Current()))
      ensures tree == PopLast(old(tree)).tree
      ensures r.None? ==> tree == old(tree)
    {
      PopIsCurrent(tree);
      PopRemovesLast(tree);
      var p := PopLast(tree);
      tree := p.tree;
      r := TextOf(p.item);
    }
  }
}
