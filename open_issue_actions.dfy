/**
 * `Issue::collect_actions` and `collect_actions_recursive` of
 * src/open/issue.rs: the GitHub actions an edited issue tree needs, grouped
 * by nesting level. `Collect` and `CollectChildren` specify the walk; the
 * methods follow the source's loops and recursion and are proved to compute
 * it.
 */
module OpenIssueActions {
  import opened Wrappers
  import Strings
  import opened OpenIssue
  import IssueTypes
  import Github

  type IssueAction = Github.IssueAction
  type OriginalSubIssue = Github.OriginalSubIssue
  type Levels = seq<seq<IssueAction>>

  /**
   * The issue number a URL names: `github::extract_issue_number_from_url`
   * (`Github.ExtractIssueNumber`), passed in so that the walk's proofs do not
   * depend on how URLs are read.
   */
  type NumberOf = string -> Option<nat>

  /** `while levels.len() <= depth { levels.push(Vec::new()) }`. */
  function Pad(levels: Levels, depth: nat): (r: Levels)
    decreases depth + 1 - |levels|
    ensures |r| == if |levels| > depth then |levels| else depth + 1
    ensures forall d :: 0 <= d < |levels| ==> r[d] == levels[d]
    ensures forall d :: |levels| <= d < |r| ==> r[d] == []
  {
    if |levels| > depth then levels else Pad(levels + [[]], depth)
  }

  /** `original_sub_issues.iter().find(|o| o.number == n)`. */
  function FindOrig(orig: seq<OriginalSubIssue>, n: nat): (r: Option<OriginalSubIssue>)
    ensures r.Some? ==> r.value in orig && r.value.number == n
    ensures r.None? ==> forall o :: o in orig ==> o.number != n
  {
    if orig == [] then None
    else if orig[0].number == n then Some(orig[0])
    else FindOrig(orig[1..], n)
  }

  /** The issue number in an issue's URL, if it has one GitHub reads. */
  function ParentNumber(issue: Issue, numberOf: NumberOf): Option<nat> {
    if issue.meta.url.Some? then numberOf(issue.meta.url.value) else None
  }

  /**
   * What one sub-issue needs: a new one (no URL) is created under the
   * parent's number when the parent has one; a known one whose closed-ness
   * differs from the fetched state gets its state updated.
   */
  function ChildAction(parentNumber: Option<nat>, child: Issue, childPath: seq<nat>, orig: seq<OriginalSubIssue>, numberOf: NumberOf): Option<IssueAction> {
    var closed := IssueTypes.IsClosed(child.meta.closeState);
    if child.meta.url.None? then
      if parentNumber.Some? then Some(Github.CreateIssue(childPath, child.meta.title, [], closed, parentNumber)) else None
    else
      match numberOf(child.meta.url.value)
        case None => None
        case Some(n) =>
          match FindOrig(orig, n)
            case None => None
            case Some(o) => if closed != (o.state == IssueTypes.CLOSED_STATE) then Some(Github.UpdateIssueState(n, closed)) else None
  }

  /** `levels` grows into `r`: no level is lost and no action is dropped or changed. */
  predicate Extends(levels: Levels, r: Levels) {
    |r| >= |levels| && forall d :: 0 <= d < |levels| ==> levels[d] <= r[d]
  }

  lemma ExtendsTrans(a: Levels, b: Levels, c: Levels)
    requires Extends(a, b) && Extends(b, c)
    ensures Extends(a, c)
  {
  }

  /** The action, if any, appended at level `d`. */
  function WithAction(lv: Levels, d: nat, a: Option<IssueAction>): (r: Levels)
    requires d < |lv|
    ensures Extends(lv, r) && |r| == |lv|
    ensures a.Some? ==> a.value in r[d]
  {
    match a
      case None => lv
      case Some(x) => lv[d := lv[d] + [x]]
  }

  /** `collect_actions_recursive` on `issue` at `path`. */
  function Collect(issue: Issue, path: seq<nat>, orig: seq<OriginalSubIssue>, numberOf: NumberOf, levels: Levels): (r: Levels)
    decreases issue, 1
    ensures |r| >= |levels| && |r| > |path|
  {
    CollectChildren(issue, path, orig, numberOf, Pad(levels, |path|), |issue.children|)
  }

  /** The loop over the first `k` sub-issues. */
  function CollectChildren(issue: Issue, path: seq<nat>, orig: seq<OriginalSubIssue>, numberOf: NumberOf, levels: Levels, k: nat): (r: Levels)
    requires k <= |issue.children| && |levels| > |path|
    decreases issue, 0, k
    ensures |r| >= |levels|
  {
    if k == 0 then levels
    else
      var lv := CollectChildren(issue, path, orig, numberOf, levels, k - 1);
      var child := issue.children[k - 1];
      var a := ChildAction(ParentNumber(issue, numberOf), child, path + [k - 1], orig, numberOf);
      Collect(child, path + [k - 1], orig, numberOf, WithAction(lv, |path|, a))
  }

  /** `Issue::collect_actions`: a root without a URL is created first, alone. */
  function CollectActionsSpec(issue: Issue, orig: seq<OriginalSubIssue>, numberOf: NumberOf): Levels {
    if issue.meta.url.None? then
      [[Github.CreateIssue([], issue.meta.title, Body(issue), IssueTypes.IsClosed(issue.meta.closeState), None)]]
    else Collect(issue, [], orig, numberOf, [])
  }

  // ---------------------------------------------------------------------
  // The walk

  /** The padding loop at the head of `collect_actions_recursive`. */
  method PadLevels(levels: Levels, depth: nat) returns (r: Levels)
    ensures r == Pad(levels, depth)
  {
    r := levels;
    while |r| <= depth
      invariant Pad(r, depth) == Pad(levels, depth)
      decreases depth + 1 - |r|
    {
      r := r + [[]];
    }
  }

  /** The body of the loop over sub-issues, before the recursive call. */
  method ActionFor(parentNumber: Option<nat>, child: Issue, childPath: seq<nat>, orig: seq<OriginalSubIssue>, numberOf: NumberOf)
    returns (a: Option<IssueAction>)
    ensures a == ChildAction(parentNumber, child, childPath, orig, numberOf)
  {
    a := None;
    var closed := IssueTypes.IsClosed(child.meta.closeState);
    if child.meta.url.None? {
      if parentNumber.Some? {
        a := Some(Github.CreateIssue(childPath, child.meta.title, [], closed, parentNumber));
      }
    } else {
      var n := numberOf(child.meta.url.value);
      if n.Some? {
        var o := FindOrig(orig, n.value);
        if o.Some? && closed != (o.value.state == IssueTypes.CLOSED_STATE) {
          a := Some(Github.UpdateIssueState(n.value, closed));
        }
      }
    }
  }

  /** `collect_actions_recursive`, with the level lists passed in and back. */
  method CollectActionsRecursive(issue: Issue, path: seq<nat>, orig: seq<OriginalSubIssue>, numberOf: NumberOf, levels: Levels)
    returns (r: Levels)
    decreases issue, 1
    ensures r == Collect(issue, path, orig, numberOf, levels)
  {
    r := PadLevels(levels, |path|);
    ghost var padded := r;
    var parentNumber := ParentNumber(issue, numberOf);
    for i := 0 to |issue.children|
      invariant |r| > |path| && r == CollectChildren(issue, path, orig, numberOf, padded, i)
    {
      CollectChildrenStep(issue, path, orig, numberOf, padded, i);
      r := CollectChild(issue, i, path, orig, numberOf, parentNumber, r);
    }
  }

  /** One turn of the loop over sub-issues: the sub-issue's action at the parent's level, then the walk below it. */
  method CollectChild(issue: Issue, i: nat, path: seq<nat>, orig: seq<OriginalSubIssue>, numberOf: NumberOf, parentNumber: Option<nat>, levels: Levels)
    returns (r: Levels)
    requires i < |issue.children| && |levels| > |path|
    requires parentNumber == ParentNumber(issue, numberOf)
    decreases issue, 0
    ensures var child := issue.children[i];
      r == Collect(child, path + [i], orig, numberOf, WithAction(levels, |path|, ChildAction(parentNumber, child, path + [i], orig, numberOf)))
  {
    var child := issue.children[i];
    var a := ActionFor(parentNumber, child, path + [i], orig, numberOf);
    r := levels;
    if a.Some? {
      r := r[|path| := r[|path|] + [a.value]];
    }
    assert r == WithAction(levels, |path|, a);
    r := CollectActionsRecursive(child, path + [i], orig, numberOf, r);
  }

  /** One more turn of the loop: the sub-issue's action, then the walk below it. */
  lemma CollectChildrenStep(issue: Issue, path: seq<nat>, orig: seq<OriginalSubIssue>, numberOf: NumberOf, levels: Levels, i: nat)
    requires i < |issue.children| && |levels| > |path|
    ensures var lv := CollectChildren(issue, path, orig, numberOf, levels, i);
      var child := issue.children[i];
      CollectChildren(issue, path, orig, numberOf, levels, i + 1) ==
        Collect(child, path + [i], orig, numberOf, WithAction(lv, |path|, ChildAction(ParentNumber(issue, numberOf), child, path + [i], orig, numberOf)))
  {
  }

  /** `Issue::collect_actions`, reading issue numbers with `Github.ExtractIssueNumber`. */
  method CollectActions(issue: Issue, orig: seq<OriginalSubIssue>) returns (levels: Levels)
    ensures levels == CollectActionsSpec(issue, orig, Github.ExtractIssueNumber)
  {
    if issue.meta.url.None? {
      levels := [[Github.CreateIssue([], issue.meta.title, Body(issue), IssueTypes.IsClosed(issue.meta.closeState), None)]];
      return;
    }
    levels := CollectActionsRecursive(issue, [], orig, Github.ExtractIssueNumber, []);
  }

  // ---------------------------------------------------------------------
  // What the actions mean

  /**
   * A creation at level `d` names a node `d + 1` levels below the root that
   * has no URL, with that node's title and closed-ness, an empty body, and
   * the issue number of the node above it as the parent.
   */
  predicate CreateSound(root: Issue, numberOf: NumberOf, a: IssueAction, d: nat)
    requires a.CreateIssue?
  {
    && |a.path| == d + 1
    && ChildAt(root, a.path).Some? && ChildAt(root, a.path[..d]).Some?
    && var node := ChildAt(root, a.path).value;
       && node.meta.url.None? && a.title == node.meta.title && a.body == []
       && a.closed == IssueTypes.IsClosed(node.meta.closeState)
       && a.parent.Some? && a.parent == ParentNumber(ChildAt(root, a.path[..d]).value, numberOf)
  }

  /** A state update names a fetched sub-issue whose closed-ness it changes. */
  predicate UpdateSound(orig: seq<OriginalSubIssue>, a: IssueAction)
    requires a.UpdateIssueState?
  {
    FindOrig(orig, a.issueNumber).Some? && a.closed != (FindOrig(orig, a.issueNumber).value.state == IssueTypes.CLOSED_STATE)
  }

  predicate ActionSound(root: Issue, orig: seq<OriginalSubIssue>, numberOf: NumberOf, a: IssueAction, d: nat) {
    if a.CreateIssue? then CreateSound(root, numberOf, a, d) else UpdateSound(orig, a)
  }

  predicate Sound(root: Issue, orig: seq<OriginalSubIssue>, numberOf: NumberOf, levels: Levels) {
    forall d, j :: 0 <= d < |levels| && 0 <= j < |levels[d]| ==> ActionSound(root, orig, numberOf, levels[d][j], d)
  }

  lemma PadSound(root: Issue, orig: seq<OriginalSubIssue>, numberOf: NumberOf, levels: Levels, depth: nat)
    requires Sound(root, orig, numberOf, levels)
    ensures Sound(root, orig, numberOf, Pad(levels, depth))
  {
  }

  /** The action for one sub-issue is sound at its parent's depth. */
  lemma ChildActionSound(root: Issue, issue: Issue, path: seq<nat>, orig: seq<OriginalSubIssue>, numberOf: NumberOf, k: nat)
    requires ChildAt(root, path) == Some(issue) && k < |issue.children|
    ensures ChildAt(root, path + [k]) == Some(issue.children[k])
    ensures var a := ChildAction(ParentNumber(issue, numberOf), issue.children[k], path + [k], orig, numberOf);
      a.Some? ==> ActionSound(root, orig, numberOf, a.value, |path|)
  {
    ChildAtSnoc(root, path, k);
    Strings.FrontOfSnoc(path, k);
  }

  lemma WithActionSound(root: Issue, orig: seq<OriginalSubIssue>, numberOf: NumberOf, levels: Levels, d: nat, a: Option<IssueAction>)
    requires Sound(root, orig, numberOf, levels) && d < |levels|
    requires a.Some? ==> ActionSound(root, orig, numberOf, a.value, d)
    ensures Sound(root, orig, numberOf, WithAction(levels, d, a))
  {
  }

  /** Every action the walk adds is sound. */
  lemma {:induction false} CollectSound(root: Issue, issue: Issue, path: seq<nat>, orig: seq<OriginalSubIssue>, numberOf: NumberOf, levels: Levels)
    requires ChildAt(root, path) == Some(issue) && Sound(root, orig, numberOf, levels)
    decreases issue, 1
    ensures Sound(root, orig, numberOf, Collect(issue, path, orig, numberOf, levels))
  {
    PadSound(root, orig, numberOf, levels, |path|);
    CollectChildrenSound(root, issue, path, orig, numberOf, Pad(levels, |path|), |issue.children|);
  }

  lemma {:induction false} CollectChildrenSound(root: Issue, issue: Issue, path: seq<nat>, orig: seq<OriginalSubIssue>, numberOf: NumberOf, levels: Levels, k: nat)
    requires k <= |issue.children| && |levels| > |path|
    requires ChildAt(root, path) == Some(issue) && Sound(root, orig, numberOf, levels)
    decreases issue, 0, k
    ensures Sound(root, orig, numberOf, CollectChildren(issue, path, orig, numberOf, levels, k))
  {
    if k > 0 {
      CollectChildrenSound(root, issue, path, orig, numberOf, levels, k - 1);
      ChildSound(root, issue, path, orig, numberOf, levels, k);
    }
  }

  /** The `k`-th sub-issue's action and the walk below it keep the levels sound. */
  lemma {:induction false} ChildSound(root: Issue, issue: Issue, path: seq<nat>, orig: seq<OriginalSubIssue>, numberOf: NumberOf, levels: Levels, k: nat)
    requires 0 < k <= |issue.children| && |levels| > |path|
    requires ChildAt(root, path) == Some(issue) && Sound(root, orig, numberOf, CollectChildren(issue, path, orig, numberOf, levels, k - 1))
    decreases issue, 0, k - 1
    ensures Sound(root, orig, numberOf, CollectChildren(issue, path, orig, numberOf, levels, k))
  {
    var lv := CollectChildren(issue, path, orig, numberOf, levels, k - 1);
    var child := issue.children[k - 1];
    var a := ChildAction(ParentNumber(issue, numberOf), child, path + [k - 1], orig, numberOf);
    ChildActionSound(root, issue, path, orig, numberOf, k - 1);
    WithActionSound(root, orig, numberOf, lv, |path|, a);
    CollectSound(root, child, path + [k - 1], orig, numberOf, WithAction(lv, |path|, a));
  }

  /**
   * Every action `collect_actions` returns for an issue with a URL is sound:
   * creations name URL-less sub-issues at their depth, updates change a
   * fetched sub-issue's closed-ness.
   */
  lemma CollectActionsSound(issue: Issue, orig: seq<OriginalSubIssue>, numberOf: NumberOf)
    requires issue.meta.url.Some?
    ensures Sound(issue, orig, numberOf, CollectActionsSpec(issue, orig, numberOf))
  {
    CollectSound(issue, issue, [], orig, numberOf, []);
  }

  /** A root without a URL yields one creation, alone, and nothing for its sub-issues. */
  lemma NewRootAlone(issue: Issue, orig: seq<OriginalSubIssue>, numberOf: NumberOf)
    requires issue.meta.url.None?
    ensures var r := CollectActionsSpec(issue, orig, numberOf);
      |r| == 1 && |r[0]| == 1 && r[0][0].CreateIssue? && r[0][0].path == [] && r[0][0].parent.None?
      && r[0][0].title == issue.meta.title && r[0][0].body == Body(issue)
  {
  }

  /** The walk only appends: no level is lost and no action is dropped or changed. */
  lemma {:induction false} CollectExtends(issue: Issue, path: seq<nat>, orig: seq<OriginalSubIssue>, numberOf: NumberOf, levels: Levels)
    decreases issue, 3
    ensures Extends(levels, Collect(issue, path, orig, numberOf, levels))
  {
    var padded := Pad(levels, |path|);
    CollectChildrenExtends(issue, path, orig, numberOf, padded, 0, |issue.children|);
    ExtendsTrans(levels, padded, Collect(issue, path, orig, numberOf, levels));
  }

  /** One more turn of the loop only appends. */
  lemma {:induction false} StepExtends(issue: Issue, path: seq<nat>, orig: seq<OriginalSubIssue>, numberOf: NumberOf, levels: Levels, k: nat)
    requires 0 < k <= |issue.children| && |levels| > |path|
    decreases issue, 0
    ensures Extends(CollectChildren(issue, path, orig, numberOf, levels, k - 1), CollectChildren(issue, path, orig, numberOf, levels, k))
  {
    var lv := CollectChildren(issue, path, orig, numberOf, levels, k - 1);
    var child := issue.children[k - 1];
    var next := WithAction(lv, |path|, ChildAction(ParentNumber(issue, numberOf), child, path + [k - 1], orig, numberOf));
    CollectExtends(child, path + [k - 1], orig, numberOf, next);
    ExtendsTrans(lv, next, Collect(child, path + [k - 1], orig, numberOf, next));
  }

  /** Running the loop further only appends. */
  lemma {:induction false} CollectChildrenExtends(issue: Issue, path: seq<nat>, orig: seq<OriginalSubIssue>, numberOf: NumberOf, levels: Levels, k: nat, m: nat)
    requires k <= m <= |issue.children| && |levels| > |path|
    decreases issue, 1, m
    ensures Extends(CollectChildren(issue, path, orig, numberOf, levels, k), CollectChildren(issue, path, orig, numberOf, levels, m))
  {
    if k < m {
      CollectChildrenExtends(issue, path, orig, numberOf, levels, k, m - 1);
      ExtendsOneMore(issue, path, orig, numberOf, levels, CollectChildren(issue, path, orig, numberOf, levels, k), m);
    }
  }

  lemma ExtendsOneMore(issue: Issue, path: seq<nat>, orig: seq<OriginalSubIssue>, numberOf: NumberOf, levels: Levels, first: Levels, j: nat)
    requires 0 < j <= |issue.children| && |levels| > |path|
    requires Extends(first, CollectChildren(issue, path, orig, numberOf, levels, j - 1))
    decreases issue, 1, 0
    ensures Extends(first, CollectChildren(issue, path, orig, numberOf, levels, j))
  {
    StepExtends(issue, path, orig, numberOf, levels, j);
    ExtendsTrans(first, CollectChildren(issue, path, orig, numberOf, levels, j - 1), CollectChildren(issue, path, orig, numberOf, levels, j));
  }

  /**
   * A new sub-issue of a root whose URL has an issue number is created at
   * level 0 under that number.
   */
  lemma NewChildCreated(issue: Issue, orig: seq<OriginalSubIssue>, numberOf: NumberOf, k: nat)
    requires issue.meta.url.Some? && ParentNumber(issue, numberOf).Some?
    requires k < |issue.children| && issue.children[k].meta.url.None?
    ensures var child := issue.children[k];
      var a := Github.CreateIssue([k], child.meta.title, [], IssueTypes.IsClosed(child.meta.closeState), ParentNumber(issue, numberOf));
      a in CollectActionsSpec(issue, orig, numberOf)[0]
  {
    var child := issue.children[k];
    var a := Github.CreateIssue([k], child.meta.title, [], IssueTypes.IsClosed(child.meta.closeState), ParentNumber(issue, numberOf));
    assert [] + [k] == [k];
    assert ChildAction(ParentNumber(issue, numberOf), child, [] + [k], orig, numberOf) == Some(a);
    HereEmitted(issue, [], orig, numberOf, [], k);
  }

  /** An action at level `d` survives every extension. */
  lemma ExtendsKeeps(a: Levels, b: Levels, d: nat, x: IssueAction)
    requires Extends(a, b) && d < |a| && x in a[d]
    ensures d < |b| && x in b[d]
  {
    assert a[d] <= b[d];
    var j :| 0 <= j < |a[d]| && a[d][j] == x;
    assert b[d][j] == x;
  }

  /**
   * The action the `k`-th sub-issue of the node at `q` below `issue` calls
   * for, when `issue` sits at `path`, found by walking `q` from the front.
   */
  function ActionAt(issue: Issue, path: seq<nat>, q: seq<nat>, k: nat, orig: seq<OriginalSubIssue>, numberOf: NumberOf): Option<IssueAction>
    decreases |q|
  {
    if q == [] then
      if k < |issue.children| then ChildAction(ParentNumber(issue, numberOf), issue.children[k], path + [k], orig, numberOf) else None
    else if q[0] < |issue.children| then ActionAt(issue.children[q[0]], path + [q[0]], q[1..], k, orig, numberOf)
    else None
  }

  /** `ActionAt` is `ChildAction` applied to the node `ChildAt` finds. */
  lemma {:induction false} ActionAtIsChildAction(issue: Issue, path: seq<nat>, q: seq<nat>, k: nat, orig: seq<OriginalSubIssue>, numberOf: NumberOf)
    requires ChildAt(issue, q).Some? && k < |ChildAt(issue, q).value.children|
    decreases |q|
    ensures var parent := ChildAt(issue, q).value;
      ActionAt(issue, path, q, k, orig, numberOf) == ChildAction(ParentNumber(parent, numberOf), parent.children[k], path + q + [k], orig, numberOf)
  {
    if q != [] {
      assert ChildAt(issue, q) == ChildAt(issue.children[q[0]], q[1..]);
      ShiftPath(path, q, k);
      ActionAtIsChildAction(issue.children[q[0]], path + [q[0]], q[1..], k, orig, numberOf);
    } else {
      assert path + q + [k] == path + [k];
    }
  }

  /** `a`, if there is one, is at level `d` of `r`. */
  predicate Emitted(r: Levels, d: nat, a: Option<IssueAction>) {
    a.Some? ==> d < |r| && a.value in r[d]
  }

  /** The levels as the walk over `issue` hands them to its `j`-th sub-issue. */
  function Before(issue: Issue, path: seq<nat>, orig: seq<OriginalSubIssue>, numberOf: NumberOf, levels: Levels, j: nat): (r: Levels)
    requires j < |issue.children|
    ensures |path| < |r|
  {
    WithAction(CollectChildren(issue, path, orig, numberOf, Pad(levels, |path|), j), |path|,
      ChildAction(ParentNumber(issue, numberOf), issue.children[j], path + [j], orig, numberOf))
  }

  /**
   * The converse of `CollectSound`: the walk from `issue` at `path` emits
   * every action `ActionAt` finds below it, at the level of the node whose
   * sub-issue calls for it.
   */
  lemma {:induction false} CollectComplete(issue: Issue, path: seq<nat>, orig: seq<OriginalSubIssue>, numberOf: NumberOf, levels: Levels, q: seq<nat>, k: nat)
    decreases |q|, 1
    ensures Emitted(Collect(issue, path, orig, numberOf, levels), |path| + |q|, ActionAt(issue, path, q, k, orig, numberOf))
  {
    if q == [] {
      if k < |issue.children| {
        HereEmitted(issue, path, orig, numberOf, levels, k);
      }
    } else if q[0] < |issue.children| {
      DeeperEmitted(issue, path, orig, numberOf, levels, q, k);
    }
  }

  /** The step of `CollectComplete` into the sub-issue `q[0]`. */
  lemma {:induction false} DeeperEmitted(issue: Issue, path: seq<nat>, orig: seq<OriginalSubIssue>, numberOf: NumberOf, levels: Levels, q: seq<nat>, k: nat)
    requires q != [] && q[0] < |issue.children|
    decreases |q|, 0
    ensures Emitted(Collect(issue, path, orig, numberOf, levels), |path| + |q|, ActionAt(issue.children[q[0]], path + [q[0]], q[1..], k, orig, numberOf))
  {
    var j := q[0];
    var a := ActionAt(issue.children[j], path + [j], q[1..], k, orig, numberOf);
    if a.Some? {
      CollectComplete(issue.children[j], path + [j], orig, numberOf, Before(issue, path, orig, numberOf, levels, j), q[1..], k);
      assert |path + [j]| + |q[1..]| == |path| + |q|;
      LaterChildrenKeep(issue, path, orig, numberOf, levels, j, |path| + |q|, a.value);
    }
  }

  /** The walk emits what each of `issue`'s own sub-issues calls for, at its level. */
  lemma HereEmitted(issue: Issue, path: seq<nat>, orig: seq<OriginalSubIssue>, numberOf: NumberOf, levels: Levels, k: nat)
    requires k < |issue.children|
    ensures Emitted(Collect(issue, path, orig, numberOf, levels), |path|, ChildAction(ParentNumber(issue, numberOf), issue.children[k], path + [k], orig, numberOf))
  {
    var a := ChildAction(ParentNumber(issue, numberOf), issue.children[k], path + [k], orig, numberOf);
    var next := Before(issue, path, orig, numberOf, levels, k);
    if a.Some? {
      CollectExtends(issue.children[k], path + [k], orig, numberOf, next);
      ExtendsKeeps(next, Collect(issue.children[k], path + [k], orig, numberOf, next), |path|, a.value);
      LaterChildrenKeep(issue, path, orig, numberOf, levels, k, |path|, a.value);
    }
  }

  /**
   * Every sub-issue, at any depth below a root with a URL, that calls for an
   * action gets it from `collect_actions`, at the level of its parent `q`.
   */
  lemma CollectActionsComplete(issue: Issue, orig: seq<OriginalSubIssue>, numberOf: NumberOf, q: seq<nat>, k: nat)
    requires issue.meta.url.Some?
    requires ChildAt(issue, q).Some? && k < |ChildAt(issue, q).value.children|
    ensures var parent := ChildAt(issue, q).value;
      var a := ChildAction(ParentNumber(parent, numberOf), parent.children[k], q + [k], orig, numberOf);
      var r := CollectActionsSpec(issue, orig, numberOf);
      a.Some? ==> |q| < |r| && a.value in r[|q|]
  {
    CollectComplete(issue, [], orig, numberOf, [], q, k);
    ActionAtIsChildAction(issue, [], q, k, orig, numberOf);
    assert [] + q + [k] == q + [k];
  }

  /**
   * A fetched sub-issue, at any depth, whose closed-ness differs from the
   * state fetched for its number gets its state updated at its parent's level.
   */
  lemma ChangedStateUpdated(issue: Issue, orig: seq<OriginalSubIssue>, numberOf: NumberOf, q: seq<nat>, k: nat, n: nat)
    requires issue.meta.url.Some?
    requires ChildAt(issue, q).Some? && k < |ChildAt(issue, q).value.children|
    requires var node := ChildAt(issue, q).value.children[k];
      && node.meta.url.Some? && numberOf(node.meta.url.value) == Some(n) && FindOrig(orig, n).Some?
      && IssueTypes.IsClosed(node.meta.closeState) != (FindOrig(orig, n).value.state == IssueTypes.CLOSED_STATE)
    ensures var r := CollectActionsSpec(issue, orig, numberOf);
      |q| < |r| && Github.UpdateIssueState(n, IssueTypes.IsClosed(ChildAt(issue, q).value.children[k].meta.closeState)) in r[|q|]
  {
    CollectActionsComplete(issue, orig, numberOf, q, k);
  }

  /**
   * A sub-issue without a URL, at any depth, whose parent's URL has an
   * issue number is created at its parent's level under that number.
   */
  lemma NewDescendantCreated(issue: Issue, orig: seq<OriginalSubIssue>, numberOf: NumberOf, q: seq<nat>, k: nat)
    requires issue.meta.url.Some?
    requires ChildAt(issue, q).Some? && k < |ChildAt(issue, q).value.children|
    requires ChildAt(issue, q).value.children[k].meta.url.None? && ParentNumber(ChildAt(issue, q).value, numberOf).Some?
    ensures var parent := ChildAt(issue, q).value;
      var node := parent.children[k];
      var r := CollectActionsSpec(issue, orig, numberOf);
      |q| < |r| && Github.CreateIssue(q + [k], node.meta.title, [], IssueTypes.IsClosed(node.meta.closeState), ParentNumber(parent, numberOf)) in r[|q|]
  {
    CollectActionsComplete(issue, orig, numberOf, q, k);
  }

  /** Moving the first index of `q` onto `path`. */
  lemma ShiftPath(path: seq<nat>, q: seq<nat>, k: nat)
    requires q != []
    ensures (path + [q[0]]) + q[1..] + [k] == path + q + [k]
    ensures |path + [q[0]]| + |q[1..]| == |path| + |q|
  {
    assert q == [q[0]] + q[1..];
  }

  /** What the walk holds after the `j`-th sub-issue, it still holds at the end. */
  lemma LaterChildrenKeep(issue: Issue, path: seq<nat>, orig: seq<OriginalSubIssue>, numberOf: NumberOf, levels: Levels, j: nat, d: nat, x: IssueAction)
    requires j < |issue.children|
    requires var after := Collect(issue.children[j], path + [j], orig, numberOf, Before(issue, path, orig, numberOf, levels, j));
      d < |after| && x in after[d]
    ensures var r := Collect(issue, path, orig, numberOf, levels);
      d < |r| && x in r[d]
  {
    ChildWalkIsStep(issue, path, orig, numberOf, levels, j);
    WalkKeeps(issue, path, orig, numberOf, levels, j + 1, d, x);
  }

  /** The walk after the `j`-th sub-issue is the walk below it from `Before`. */
  lemma ChildWalkIsStep(issue: Issue, path: seq<nat>, orig: seq<OriginalSubIssue>, numberOf: NumberOf, levels: Levels, j: nat)
    requires j < |issue.children|
    ensures CollectChildren(issue, path, orig, numberOf, Pad(levels, |path|), j + 1)
      == Collect(issue.children[j], path + [j], orig, numberOf, Before(issue, path, orig, numberOf, levels, j))
  {
  }

  /** What the loop holds after `k` sub-issues, the whole walk holds. */
  lemma WalkKeeps(issue: Issue, path: seq<nat>, orig: seq<OriginalSubIssue>, numberOf: NumberOf, levels: Levels, k: nat, d: nat, x: IssueAction)
    requires k <= |issue.children|
    requires var lv := CollectChildren(issue, path, orig, numberOf, Pad(levels, |path|), k);
      d < |lv| && x in lv[d]
    ensures var r := Collect(issue, path, orig, numberOf, levels);
      d < |r| && x in r[d]
  {
    var padded := Pad(levels, |path|);
    CollectChildrenExtends(issue, path, orig, numberOf, padded, k, |issue.children|);
    ExtendsKeeps(CollectChildren(issue, path, orig, numberOf, padded, k), CollectChildren(issue, path, orig, numberOf, padded, |issue.children|), d, x);
  }

  /** A root with a URL and no sub-issues needs nothing: one empty level. */
  lemma LeafNeedsNothing(issue: Issue, orig: seq<OriginalSubIssue>, numberOf: NumberOf)
    requires issue.meta.url.Some? && issue.children == []
    ensures CollectActionsSpec(issue, orig, numberOf) == [[]]
  {
    assert Pad([], 0) == [[]];
    assert Collect(issue, [], orig, numberOf, []) == CollectChildren(issue, [], orig, numberOf, [[]], 0);
  }
}
