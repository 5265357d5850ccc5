/**
 * src/open_interactions/sink.rs: what pushing a merged issue tree has to
 * touch. The tree is walked breadth-first by a queue-backed iterator, each
 * node is compared with its old state into an `IssueDiff`, pending issues
 * are collected level by level, and the filesystem sink compares whole
 * trees for equality.
 *
 * This generation stores the identity in `meta.identity` (created on GitHub
 * or pending) next to the last contents change; the contents and comments
 * are those of src/issue/types.rs.
 */
module Sink {
  import opened Wrappers
  import IssueTypes
  import Strings

  // ---------------------------------------------------------------------
  // Issues of this generation

  /** `IssueIdentity` as used here: linked to an issue URL and number, or pending. */
  datatype Identity = Created(user: string, url: string, number: nat) | Pending

  /** `IssueIdentity::number`. */
  function Number(id: Identity): (r: Option<nat>)
    ensures r.Some? <==> id.Created?
    ensures r.Some? ==> r.value == id.number
  {
    if id.Created? then Some(id.number) else None
  }

  /** `IssueIdentity::url_str`. */
  function UrlStr(id: Identity): (r: Option<string>)
    ensures r.Some? <==> id.Created?
    ensures r.Some? ==> r.value == id.url
  {
    if id.Created? then Some(id.url) else None
  }

  /** `IssueMeta`: identity and the time of the last contents change. */
  datatype Meta = Meta(identity: Identity, lastChange: Option<int>)

  /** `Issue`. */
  datatype Issue = Issue(meta: Meta, contents: IssueTypes.IssueContents, children: seq<Issue>)

  /** The node reached by following `path` as child indices. */
  function NodeAt(root: Issue, path: seq<nat>): Option<Issue>
    decreases |path|
  {
    if path == [] then Some(root)
    else if path[0] < |root.children| then NodeAt(root.children[path[0]], path[1..])
    else None
  }

  /** One more index of a path looks one level further down. */
  lemma {:induction false} NodeAtSnoc(root: Issue, path: seq<nat>, k: nat)
    ensures NodeAt(root, path + [k]) ==
      match NodeAt(root, path)
        case None => None
        case Some(c) => if k < |c.children| then Some(c.children[k]) else None
    decreases |path|
  {
    if path == [] {
      assert [] + [k] == [k];
      assert [k][1..] == [];
    } else {
      assert (path + [k])[1..] == path[1..] + [k];
      if path[0] < |root.children| {
        NodeAtSnoc(root.children[path[0]], path[1..], k);
      }
    }
  }

  /** A path that leaves the tree stays outside it whatever follows. */
  lemma {:induction false} NodeAtNoneExtends(root: Issue, p: seq<nat>, q: seq<nat>)
    requires NodeAt(root, p).None?
    ensures NodeAt(root, p + q).None?
    decreases |p|
  {
    if p != [] {
      assert (p + q)[1..] == p[1..] + q;
      assert (p + q)[0] == p[0];
      if p[0] < |root.children| {
        NodeAtNoneExtends(root.children[p[0]], p[1..], q);
      }
    }
  }

  // ---------------------------------------------------------------------
  // Diff results

  /**
   * `IssueDiff`. The delete lists are gathered from hash-map keys in no
   * particular order, so they are sets here.
   */
  datatype IssueDiff = IssueDiff(
    bodyChanged: bool, stateChanged: bool, titleChanged: bool, labelsChanged: bool,
    commentsToCreate: seq<IssueTypes.Comment>,
    commentsToUpdate: seq<(nat, IssueTypes.Comment)>,
    commentsToDelete: set<nat>,
    childrenToCreate: seq<Issue>,
    childrenToDelete: set<nat>)

  /** `IssueDiff::default()`. */
  const NO_DIFF: IssueDiff := IssueDiff(false, false, false, false, [], [], {}, [], {})

  /** `IssueDiff::has_changes`: a flag is set or a list is not empty. */
  function HasChanges(d: IssueDiff): (r: bool)
    ensures !r <==> d == NO_DIFF
  {
    d.bodyChanged || d.stateChanged || d.titleChanged || d.labelsChanged
    || d.commentsToCreate != [] || d.commentsToUpdate != [] || d.commentsToDelete != {}
    || d.childrenToCreate != [] || d.childrenToDelete != {}
  }

  // ---------------------------------------------------------------------
  // Horizontal-first iteration

  /** `TreeNode`: an issue, its index path from the root and its parent's number. */
  datatype TreeNode = TreeNode(issue: Issue, path: seq<nat>, parentNumber: Option<nat>)

  /** The queue entries `next` pushes for the children of `n`, in order. */
  function ChildNodes(n: TreeNode): (r: seq<TreeNode>)
    ensures |r| == |n.issue.children|
  {
    seq(|n.issue.children|, i requires 0 <= i < |n.issue.children| =>
      TreeNode(n.issue.children[i], n.path + [i], Number(n.issue.meta.identity)))
  }

  /** The number of nodes of a tree. */
  function Size(t: Issue): nat
    decreases t, 1
  {
    1 + SizeAll(t.children)
  }

  function SizeAll(cs: seq<Issue>): nat
    decreases cs, 0
  {
    if cs == [] then 0 else SizeAll(cs[..|cs| - 1]) + Size(cs[|cs| - 1])
  }

  /** The number of nodes the queue still holds, subtrees included. */
  function QueueSize(q: seq<TreeNode>): nat {
    if q == [] then 0 else QueueSize(q[..|q| - 1]) + Size(q[|q| - 1].issue)
  }

  lemma {:induction false} QueueSizeAppend(a: seq<TreeNode>, b: seq<TreeNode>)
    ensures QueueSize(a + b) == QueueSize(a) + QueueSize(b)
    decreases |b|
  {
    if b == [] {
      assert a + b == a;
    } else {
      assert (a + b)[..|a + b| - 1] == a + b[..|b| - 1];
      QueueSizeAppend(a, b[..|b| - 1]);
    }
  }

  lemma {:induction false} QueueSizeFirst(q: seq<TreeNode>)
    requires q != []
    ensures QueueSize(q) == Size(q[0].issue) + QueueSize(q[1..])
  {
    assert q == [q[0]] + q[1..];
    QueueSizeAppend([q[0]], q[1..]);
    assert [q[0]][..0] == [];
  }

  lemma {:induction false} ChildNodesSize(n: TreeNode)
    ensures QueueSize(ChildNodes(n)) == SizeAll(n.issue.children)
  {
    ChildNodesSizeUpTo(n, |n.issue.children|);
    assert ChildNodes(n)[..|n.issue.children|] == ChildNodes(n);
    assert n.issue.children[..|n.issue.children|] == n.issue.children;
  }

  lemma {:induction false} ChildNodesSizeUpTo(n: TreeNode, k: nat)
    requires k <= |n.issue.children|
    ensures QueueSize(ChildNodes(n)[..k]) == SizeAll(n.issue.children[..k])
  {
    if k > 0 {
      ChildNodesSizeUpTo(n, k - 1);
      assert ChildNodes(n)[..k][..k - 1] == ChildNodes(n)[..k - 1];
      assert n.issue.children[..k][..k - 1] == n.issue.children[..k - 1];
    }
  }

  /** What one call of `next` leaves in the queue. */
  function Step(q: seq<TreeNode>): seq<TreeNode>
    requires q != []
  {
    q[1..] + ChildNodes(q[0])
  }

  /** Each call of `next` takes exactly one node out of the queue's subtrees. */
  lemma StepSize(q: seq<TreeNode>)
    requires q != []
    ensures QueueSize(Step(q)) + 1 == QueueSize(q)
  {
    QueueSizeFirst(q);
    QueueSizeAppend(q[1..], ChildNodes(q[0]));
    ChildNodesSize(q[0]);
  }

  /** Every node the iterator yields from queue `q`, in order. */
  function Drain(q: seq<TreeNode>): seq<TreeNode>
    decreases QueueSize(q)
  {
    if q == [] then []
    else
      StepSize(q);
      [q[0]] + Drain(Step(q))
  }

  /** `iter_horizontal`: the nodes of the tree in the iterator's order. */
  function Traversal(root: Issue): seq<TreeNode> {
    Drain([TreeNode(root, [], None)])
  }

  /** `HorizontalIter`: a queue of nodes still to be yielded. */
  class HorizontalIter {
    var queue: seq<TreeNode>
    ghost var root: Issue

    /** Every queued node sits where its path says, and the queue is level-ordered. */
    ghost predicate Valid()
      reads this
    {
      (forall i :: 0 <= i < |queue| ==> Placed(root, queue[i])) && Layered(queue)
    }

    /** `HorizontalIter::new`: the root alone, with the empty path and no parent. */
    constructor (r: Issue)
      ensures queue == [TreeNode(r, [], None)] && root == r
      ensures Valid()
    {
      queue := [TreeNode(r, [], None)];
      root := r;
    }

    /**
     * `next`: pops the front node and queues its children with their
     * paths and the popped node's number as parent number.
     */
    method Next() returns (r: Option<TreeNode>)
      requires Valid()
      modifies this
      ensures Valid() && root == old(root)
      ensures old(queue) == [] ==> r == None && queue == []
      ensures old(queue) != [] ==> r == Some(old(queue)[0]) && queue == Step(old(queue))
      ensures r.Some? ==> Placed(root, r.value)
    {
      if queue == [] {
        return None;
      }
      StepPlaced(root, queue);
      StepLayered(queue);
      var node := queue[0];
      var rest := queue[1..];
      var parentNumber := Number(node.issue.meta.identity);
      var i := 0;
      while i < |node.issue.children|
        invariant 0 <= i <= |node.issue.children|
        invariant rest == old(queue)[1..] + ChildNodes(node)[..i]
      {
        assert ChildNodes(node)[..i + 1] == ChildNodes(node)[..i] + [ChildNodes(node)[i]];
        rest := rest + [TreeNode(node.issue.children[i], node.path + [i], parentNumber)];
        i := i + 1;
      }
      assert ChildNodes(node)[..i] == ChildNodes(node);
      queue := rest;
      return Some(node);
    }
  }

  /** The parent number a node at `path` must carry. */
  function ParentNumber(root: Issue, path: seq<nat>): Option<nat> {
    if path == [] then None
    else match NodeAt(root, path[..|path| - 1])
      case Some(p) => Number(p.meta.identity)
      case None => None
  }

  /** `n` is the node at its path, and carries its parent's number. */
  predicate Placed(root: Issue, n: TreeNode) {
    NodeAt(root, n.path) == Some(n.issue) && n.parentNumber == ParentNumber(root, n.path)
  }

  /** Path lengths never decrease along the queue and differ by at most one. */
  predicate Layered(q: seq<TreeNode>) {
    forall i, j :: 0 <= i < j < |q| ==>
      |q[i].path| <= |q[j].path| <= |q[i].path| + 1
  }

  lemma StepPlaced(root: Issue, q: seq<TreeNode>)
    requires q != [] && forall i :: 0 <= i < |q| ==> Placed(root, q[i])
    ensures forall i :: 0 <= i < |Step(q)| ==> Placed(root, Step(q)[i])
  {
    var n := q[0];
    var s := Step(q);
    assert Placed(root, q[0]);
    forall i | 0 <= i < |s| ensures Placed(root, s[i]) {
      if i < |q| - 1 {
        assert s[i] == q[i + 1];
      } else {
        var k := i - (|q| - 1);
        assert s[i] == ChildNodes(n)[k];
        NodeAtSnoc(root, n.path, k);
        assert (n.path + [k])[..|n.path + [k]| - 1] == n.path;
      }
    }
  }

  lemma StepLayered(q: seq<TreeNode>)
    requires q != [] && Layered(q)
    ensures Layered(Step(q))
    ensures forall i :: 0 <= i < |Step(q)| ==> |q[0].path| <= |Step(q)[i].path|
  {
    var s := Step(q);
    var level := |q[0].path|;
    forall i | 0 <= i < |s| ensures level <= |s[i].path| <= level + 1 {
      if i < |q| - 1 {
        assert s[i] == q[i + 1];
      } else {
        assert s[i] == ChildNodes(q[0])[i - (|q| - 1)];
      }
    }
    forall i, j | 0 <= i < j < |s| ensures |s[i].path| <= |s[j].path| <= |s[i].path| + 1 {
      if j < |q| - 1 {
        assert s[i] == q[i + 1] && s[j] == q[j + 1];
      } else if i >= |q| - 1 {
        assert s[i] == ChildNodes(q[0])[i - (|q| - 1)];
        assert s[j] == ChildNodes(q[0])[j - (|q| - 1)];
      } else {
        assert s[j] == ChildNodes(q[0])[j - (|q| - 1)];
      }
    }
  }

  /** Path lengths never decrease along `d`, none below `level`. */
  predicate LevelOrdered(d: seq<TreeNode>, level: nat) {
    (forall i, j :: 0 <= i < j < |d| ==> |d[i].path| <= |d[j].path|) &&
    (forall i :: 0 <= i < |d| ==> level <= |d[i].path|)
  }

  lemma PrependOrdered(x: TreeNode, d: seq<TreeNode>)
    requires LevelOrdered(d, |x.path|)
    ensures LevelOrdered([x] + d, |x.path|)
  {
    var e := [x] + d;
    forall i, j | 0 <= i < j < |e| ensures |e[i].path| <= |e[j].path| {
      assert e[j] == d[j - 1];
      if i > 0 {
        assert e[i] == d[i - 1];
      }
    }
  }

  /** Draining yields each queued node first, then what the step leaves. */
  lemma DrainStep(q: seq<TreeNode>)
    requires q != []
    ensures Drain(q) == [q[0]] + Drain(Step(q))
  {
  }

  /** Every node drained from a placed queue is placed. */
  lemma {:induction false} DrainPlaced(root: Issue, q: seq<TreeNode>)
    requires forall i :: 0 <= i < |q| ==> Placed(root, q[i])
    ensures forall i :: 0 <= i < |Drain(q)| ==> Placed(root, Drain(q)[i])
    decreases QueueSize(q)
  {
    if q != [] {
      StepSize(q);
      StepPlaced(root, q);
      DrainPlaced(root, Step(q));
      DrainStep(q);
      forall i | 0 <= i < |Drain(q)| ensures Placed(root, Drain(q)[i]) {
        if i > 0 {
          assert Drain(q)[i] == Drain(Step(q))[i - 1];
        }
      }
    }
  }

  /** Draining a level-ordered queue never goes back up a level. */
  lemma {:induction false} DrainLayered(q: seq<TreeNode>)
    requires q != [] && Layered(q)
    ensures LevelOrdered(Drain(q), |q[0].path|)
    decreases QueueSize(q)
  {
    var s := Step(q);
    StepSize(q);
    StepLayered(q);
    if s != [] {
      DrainLayered(s);
      LevelLowered(Drain(s), |q[0].path|, |s[0].path|);
    }
    PrependOrdered(q[0], Drain(s));
    DrainStep(q);
  }

  lemma LevelLowered(d: seq<TreeNode>, low: nat, level: nat)
    requires low <= level && LevelOrdered(d, level)
    ensures LevelOrdered(d, low)
  {
  }

  /** Every node below a queued node is eventually yielded, with its full path. */
  lemma {:induction false} DrainCovers(q: seq<TreeNode>, i: nat, p: seq<nat>)
    requires i < |q| && NodeAt(q[i].issue, p).Some?
    ensures exists x :: x in Drain(q) && x.path == q[i].path + p && Some(x.issue) == NodeAt(q[i].issue, p)
    decreases QueueSize(q), 1
  {
    StepSize(q);
    if i == 0 && p == [] {
      DrainStep(q);
      assert q[0] in Drain(q);
      assert q[0].path + p == q[0].path;
    } else if i == 0 {
      DrainCoversChild(q, p);
    } else {
      assert Step(q)[i - 1] == q[i];
      DrainCovers(Step(q), i - 1, p);
      var x :| x in Drain(Step(q)) && x.path == q[i].path + p && Some(x.issue) == NodeAt(q[i].issue, p);
      YieldedLater(q, x);
    }
  }

  /** A node below the first queued node is yielded after it, from the queued child it sits under. */
  lemma {:induction false} DrainCoversChild(q: seq<TreeNode>, p: seq<nat>)
    requires q != [] && p != [] && NodeAt(q[0].issue, p).Some?
    ensures exists x :: x in Drain(q) && x.path == q[0].path + p && Some(x.issue) == NodeAt(q[0].issue, p)
    decreases QueueSize(q), 0
  {
    var k := p[0];
    NodeAtChild(q[0].issue, p);
    StepSize(q);
    ChildQueued(q, k);
    var c := ChildNodes(q[0])[k];
    DrainCovers(Step(q), |q| - 1 + k, p[1..]);
    var x :| x in Drain(Step(q)) && x.path == c.path + p[1..] && Some(x.issue) == NodeAt(c.issue, p[1..]);
    ChildPath(q[0].path, p);
    YieldedLater(q, x);
  }

  /** A path that starts at a child looks below that child. */
  lemma NodeAtChild(n: Issue, p: seq<nat>)
    requires p != [] && NodeAt(n, p).Some?
    ensures p[0] < |n.children| && NodeAt(n.children[p[0]], p[1..]) == NodeAt(n, p)
  {
  }

  /** The children of the first queued node are queued after the rest of the queue. */
  lemma ChildQueued(q: seq<TreeNode>, k: nat)
    requires q != [] && k < |q[0].issue.children|
    ensures |q| - 1 + k < |Step(q)| && Step(q)[|q| - 1 + k] == ChildNodes(q[0])[k]
    ensures ChildNodes(q[0])[k].issue == q[0].issue.children[k] && ChildNodes(q[0])[k].path == q[0].path + [k]
  {
  }

  lemma ChildPath(base: seq<nat>, p: seq<nat>)
    requires p != []
    ensures (base + [p[0]]) + p[1..] == base + p
  {
    assert p == [p[0]] + p[1..];
    Strings.AppendAssoc(base, [p[0]], p[1..]);
  }

  /** What the step leaves yields, the queue yields. */
  lemma YieldedLater(q: seq<TreeNode>, x: TreeNode)
    requires q != [] && x in Drain(Step(q))
    ensures x in Drain(q)
  {
    DrainStep(q);
  }

  /** Draining yields one node per node of the queue's subtrees. */
  lemma {:induction false} DrainCount(q: seq<TreeNode>)
    ensures |Drain(q)| == QueueSize(q)
    decreases QueueSize(q)
  {
    if q != [] {
      StepSize(q);
      DrainCount(Step(q));
    }
  }

  /**
   * The iterator yields every node of the tree exactly where its path
   * says, with its parent's number, root first, level by level, and as
   * many nodes as the tree has.
   */
  lemma TraversalShape(root: Issue)
    ensures Traversal(root) != [] && Traversal(root)[0] == TreeNode(root, [], None)
    ensures forall i :: 0 <= i < |Traversal(root)| ==> Placed(root, Traversal(root)[i])
    ensures LevelOrdered(Traversal(root), 0)
    ensures |Traversal(root)| == Size(root)
  {
    var q := [TreeNode(root, [], None)];
    TraversalAllPlaced(root);
    DrainLayered(q);
    TraversalCount(root);
    DrainStep(q);
  }

  lemma TraversalAllPlaced(root: Issue)
    ensures forall i :: 0 <= i < |Traversal(root)| ==> Placed(root, Traversal(root)[i])
  {
    var q := [TreeNode(root, [], None)];
    assert Placed(root, q[0]);
    DrainPlaced(root, q);
  }

  lemma TraversalCount(root: Issue)
    ensures |Traversal(root)| == Size(root)
  {
    var q := [TreeNode(root, [], None)];
    DrainCount(q);
    assert q == [] + [q[0]];
  }

  /** Every node of the tree is yielded with its path. */
  lemma TraversalComplete(root: Issue, p: seq<nat>)
    requires NodeAt(root, p).Some?
    ensures exists x :: x in Traversal(root) && x.path == p && x.issue == NodeAt(root, p).value
  {
    var q := [TreeNode(root, [], None)];
    DrainCovers(q, 0, p);
    assert q[0].path + p == p;
  }

  /** Collecting the iterator yields the traversal. */
  method CollectHorizontal(root: Issue) returns (nodes: seq<TreeNode>)
    ensures nodes == Traversal(root)
  {
    var it := new HorizontalIter(root);
    nodes := [];
    ghost var q0 := it.queue;
    ghost var all := Drain(q0);
    var next := it.Next();
    DrainStep(q0);
    assert [] + [next.value] == [next.value];
    while next.Some?
      invariant it.Valid() && it.root == root
      invariant next.Some? ==> all == nodes + [next.value] + Drain(it.queue)
      invariant next.None? ==> all == nodes
      decreases QueueSize(it.queue), next.Some?
    {
      ghost var before := nodes;
      nodes := nodes + [next.value];
      ghost var q := it.queue;
      next := it.Next();
      if q != [] {
        StepSize(q);
        DrainMore(before, nodes, q, next.value, it.queue);
      }
    }
  }

  /** One more node yielded: the rest of the traversal is what the step leaves. */
  lemma DrainMore(before: seq<TreeNode>, nodes: seq<TreeNode>, q: seq<TreeNode>, y: TreeNode, q': seq<TreeNode>)
    requires q != [] && |nodes| == |before| + 1 && nodes[..|before|] == before && y == q[0] && q' == Step(q)
    ensures before + [nodes[|before|]] + Drain(q) == nodes + [y] + Drain(q')
  {
    DrainStep(q);
    assert nodes == before + [nodes[|before|]];
    Strings.AppendAssoc(nodes, [y], Drain(q'));
  }

  /** Every node of the tree, yielded in breadth-first order, sits where its path says. */
  lemma TraversalPlaced(root: Issue, x: TreeNode)
    requires x in Traversal(root)
    ensures Placed(root, x)
  {
    TraversalShape(root);
    var i :| 0 <= i < |Traversal(root)| && Traversal(root)[i] == x;
  }

  // ---------------------------------------------------------------------
  // issues_at_level and max_depth

  /** The nodes of `s` whose path has length `level`, in order. */
  function AtLevel(s: seq<TreeNode>, level: nat): (r: seq<TreeNode>)
    ensures forall x :: x in r <==> x in s && |x.path| == level
  {
    if s == [] then []
    else
      assert s == [s[0]] + s[1..];
      (if |s[0].path| == level then [s[0]] else []) + AtLevel(s[1..], level)
  }

  /** `issues_at_level`: the iterator's nodes filtered by path length. */
  function IssuesAtLevel(root: Issue, level: nat): seq<TreeNode> {
    AtLevel(Traversal(root), level)
  }

  /**
   * `issues_at_level(l)` holds exactly the nodes at depth `l`: each one sits
   * where its path of length `l` says, and every node of the tree at that
   * depth is among them.
   */
  lemma IssuesAtLevelExact(root: Issue, level: nat)
    ensures forall x :: x in IssuesAtLevel(root, level) ==> |x.path| == level && Placed(root, x)
    ensures forall p :: |p| == level && NodeAt(root, p).Some? ==>
      exists x :: x in IssuesAtLevel(root, level) && x.path == p && x.issue == NodeAt(root, p).value
  {
    forall x | x in IssuesAtLevel(root, level) ensures |x.path| == level && Placed(root, x) {
      TraversalPlaced(root, x);
    }
    forall p | |p| == level && NodeAt(root, p).Some?
      ensures exists x :: x in IssuesAtLevel(root, level) && x.path == p && x.issue == NodeAt(root, p).value
    {
      TraversalComplete(root, p);
    }
  }

  /** The longest path of `s`, 0 when `s` is empty. */
  function MaxPathLen(s: seq<TreeNode>): (r: nat)
    ensures forall x :: x in s ==> |x.path| <= r
    ensures s != [] ==> exists x :: x in s && |x.path| == r
    ensures s == [] ==> r == 0
  {
    if s == [] then 0
    else
      assert s == [s[0]] + s[1..];
      var m := MaxPathLen(s[1..]);
      if |s[0].path| >= m then |s[0].path| else m
  }

  /** `max_depth`: the longest path the iterator yields. */
  function MaxDepth(root: Issue): nat {
    MaxPathLen(Traversal(root))
  }

  /** `max_depth` is the depth of the deepest node, 0 for a lone root. */
  lemma MaxDepthIsDeepest(root: Issue)
    ensures forall p :: NodeAt(root, p).Some? ==> |p| <= MaxDepth(root)
    ensures exists p :: NodeAt(root, p).Some? && |p| == MaxDepth(root)
    ensures root.children == [] ==> MaxDepth(root) == 0
  {
    TraversalShape(root);
    forall p | NodeAt(root, p).Some? ensures |p| <= MaxDepth(root) {
      TraversalComplete(root, p);
    }
    var x :| x in Traversal(root) && |x.path| == MaxDepth(root);
    TraversalPlaced(root, x);
    if root.children == [] {
      LeafOnlyRoot(root, x.path);
    }
  }

  lemma LeafOnlyRoot(root: Issue, p: seq<nat>)
    requires root.children == [] && NodeAt(root, p).Some?
    ensures p == []
  {
  }

  // ---------------------------------------------------------------------
  // Finding old nodes

  /** `find_old_node`: follows the index path, `None` once an index is out of range. */
  method FindOldNode(oldRoot: Issue, path: seq<nat>) returns (r: Option<Issue>)
    ensures r == NodeAt(oldRoot, path)
  {
    if path == [] {
      return Some(oldRoot);
    }
    var current := oldRoot;
    var i := 0;
    while i < |path|
      invariant 0 <= i <= |path|
      invariant NodeAt(oldRoot, path[..i]) == Some(current)
    {
      var idx := path[i];
      NodeAtSnoc(oldRoot, path[..i], idx);
      assert path[..i] + [idx] == path[..i + 1];
      if idx >= |current.children| {
        NodeAtNoneExtends(oldRoot, path[..i + 1], path[i + 1..]);
        Strings.SliceSplit(path, i + 1);
        return None;
      }
      current := current.children[idx];
      i := i + 1;
    }
    assert path[..i] == path;
    return Some(current);
  }

  /** The first node of `s` whose identity has URL `url`. */
  function FirstWithUrl(s: seq<TreeNode>, url: string): (r: Option<Issue>)
    ensures r.Some? ==> exists x :: x in s && x.issue == r.value && UrlStr(x.issue.meta.identity) == Some(url)
    ensures r.None? ==> forall x :: x in s ==> UrlStr(x.issue.meta.identity) != Some(url)
  {
    if s == [] then None
    else if UrlStr(s[0].issue.meta.identity) == Some(url) then Some(s[0].issue)
    else
      assert s == [s[0]] + s[1..];
      FirstWithUrl(s[1..], url)
  }

  /**
   * `find_old_by_identity`: `None` for a pending identity; otherwise the
   * first node in breadth-first order with the same URL.
   */
  method FindOldByIdentity(oldRoot: Issue, identity: Identity) returns (r: Option<Issue>)
    ensures identity.Pending? ==> r == None
    ensures identity.Created? ==> r == FirstWithUrl(Traversal(oldRoot), identity.url)
  {
    var target := UrlStr(identity);
    if target.None? {
      return None;
    }
    var url := target.value;
    var it := new HorizontalIter(oldRoot);
    var next := it.Next();
    while next.Some?
      invariant it.Valid() && it.root == oldRoot
      invariant next.Some? ==>
        FirstWithUrl(Traversal(oldRoot), url) == FirstWithUrl([next.value] + Drain(it.queue), url)
      invariant next.None? ==> FirstWithUrl(Traversal(oldRoot), url) == None
      decreases QueueSize(it.queue), next.Some?
    {
      if UrlStr(next.value.issue.meta.identity) == target {
        return Some(next.value.issue);
      }
      assert ([next.value] + Drain(it.queue))[1..] == Drain(it.queue);
      ghost var q := it.queue;
      next := it.Next();
      if q != [] {
        StepSize(q);
        DrainStep(q);
      }
    }
    return None;
  }

  /**
   * What `find_old_by_identity` finds is a node of the tree with that URL;
   * when it finds nothing, no node of the tree has that URL.
   */
  lemma FoundByIdentity(oldRoot: Issue, url: string)
    ensures var r := FirstWithUrl(Traversal(oldRoot), url);
      (r.Some? ==> UrlStr(r.value.meta.identity) == Some(url) && exists p :: NodeAt(oldRoot, p) == r) &&
      (r.None? ==> forall p :: NodeAt(oldRoot, p).Some? ==> UrlStr(NodeAt(oldRoot, p).value.meta.identity) != Some(url))
  {
    var r := FirstWithUrl(Traversal(oldRoot), url);
    if r.Some? {
      var x :| x in Traversal(oldRoot) && x.issue == r.value && UrlStr(x.issue.meta.identity) == Some(url);
      TraversalPlaced(oldRoot, x);
    } else {
      forall p | NodeAt(oldRoot, p).Some?
        ensures UrlStr(NodeAt(oldRoot, p).value.meta.identity) != Some(url)
      {
        TraversalComplete(oldRoot, p);
      }
    }
  }

  // ---------------------------------------------------------------------
  // Pending issues level by level

  /** The node at `q` exists and is still pending. */
  predicate PendingAt(issue: Issue, q: seq<nat>) {
    NodeAt(issue, q).Some? && NodeAt(issue, q).value.meta.identity.Pending?
  }

  /**
   * The paths `collect` gathers below `issue`, which sits at `prefix`:
   * the node itself when it is pending at the target level, then, while
   * above that level, what each child gathers, in child order.
   */
  function PendingPaths(issue: Issue, prefix: seq<nat>, level: nat): seq<seq<nat>>
    decreases issue, 1
  {
    (if |prefix| == level && issue.meta.identity.Pending? then [prefix] else [])
    + (if |prefix| < level then ChildPendingPaths(issue, prefix, level, |issue.children|) else [])
  }

  /** What the first `n` children of `issue` gather. */
  function ChildPendingPaths(issue: Issue, prefix: seq<nat>, level: nat, n: nat): seq<seq<nat>>
    requires n <= |issue.children|
    decreases issue, 0, n
  {
    if n == 0 then []
    else
      ChildPendingPaths(issue, prefix, level, n - 1)
      + PendingPaths(issue.children[n - 1], prefix + [n - 1], level)
  }

  /** `collect`: appends the pending paths below `issue` to `paths`. */
  method Collect(issue: Issue, prefix: seq<nat>, level: nat, paths: seq<seq<nat>>) returns (out: seq<seq<nat>>)
    ensures out == paths + PendingPaths(issue, prefix, level)
    decreases issue
  {
    out := paths;
    var own: seq<seq<nat>> := [];
    if |prefix| == level && issue.meta.identity.Pending? {
      own := [prefix];
      out := out + own;
    }
    if |prefix| < level {
      var i := 0;
      while i < |issue.children|
        invariant 0 <= i <= |issue.children|
        invariant out == paths + own + ChildPendingPaths(issue, prefix, level, i)
      {
        out := Collect(issue.children[i], prefix + [i], level, out);
        i := i + 1;
      }
    }
  }

  /** `collect_pending_issues_at_level`. */
  method CollectPendingIssuesAtLevel(issue: Issue, level: nat) returns (paths: seq<seq<nat>>)
    ensures paths == PendingPaths(issue, [], level)
  {
    paths := Collect(issue, [], level, []);
  }

  lemma {:induction false} ChildPendingMember(issue: Issue, prefix: seq<nat>, level: nat, n: nat, p: seq<nat>)
    requires n <= |issue.children| && p in ChildPendingPaths(issue, prefix, level, n)
    ensures exists k :: 0 <= k < n && p in PendingPaths(issue.children[k], prefix + [k], level)
  {
    if p !in PendingPaths(issue.children[n - 1], prefix + [n - 1], level) {
      ChildPendingMember(issue, prefix, level, n - 1, p);
    }
  }

  lemma {:induction false} ChildPendingContains(issue: Issue, prefix: seq<nat>, level: nat, n: nat, k: nat, p: seq<nat>)
    requires k < n <= |issue.children| && p in PendingPaths(issue.children[k], prefix + [k], level)
    ensures p in ChildPendingPaths(issue, prefix, level, n)
  {
    if k < n - 1 {
      ChildPendingContains(issue, prefix, level, n - 1, k, p);
    }
  }

  /** Every gathered path extends the prefix, has the target length and leads to a pending node. */
  lemma {:induction false} PendingPathsSound(issue: Issue, prefix: seq<nat>, level: nat, p: seq<nat>)
    requires p in PendingPaths(issue, prefix, level)
    ensures |p| == level && |prefix| <= |p| && p[..|prefix|] == prefix
    ensures PendingAt(issue, p[|prefix|..])
    decreases issue
  {
    if |prefix| == level && issue.meta.identity.Pending? && p == prefix {
      assert p[|prefix|..] == [];
    } else {
      ChildPendingMember(issue, prefix, level, |issue.children|, p);
      var k :| 0 <= k < |issue.children| && p in PendingPaths(issue.children[k], prefix + [k], level);
      PendingPathsSound(issue.children[k], prefix + [k], level, p);
      PendingThroughChild(issue, prefix, k, p);
    }
  }

  /** A path through child `k` that is pending below the child is pending below the parent. */
  lemma PendingThroughChild(issue: Issue, prefix: seq<nat>, k: nat, p: seq<nat>)
    requires k < |issue.children| && |prefix| + 1 <= |p| && p[..|prefix| + 1] == prefix + [k]
    requires PendingAt(issue.children[k], p[|prefix| + 1..])
    ensures p[..|prefix|] == prefix && PendingAt(issue, p[|prefix|..])
  {
    assert p[..|prefix| + 1][..|prefix|] == p[..|prefix|];
    assert p[|prefix|..] == [k] + p[|prefix| + 1..];
  }

  /** Every pending node at the target length below the prefix is gathered. */
  lemma {:induction false} PendingPathsComplete(issue: Issue, prefix: seq<nat>, level: nat, q: seq<nat>)
    requires |prefix| + |q| == level && PendingAt(issue, q)
    ensures prefix + q in PendingPaths(issue, prefix, level)
    decreases q
  {
    if q == [] {
      assert prefix + q == prefix;
    } else {
      var k := q[0];
      PendingPathsComplete(issue.children[k], prefix + [k], level, q[1..]);
      assert (prefix + [k]) + q[1..] == prefix + q;
      ChildPendingContains(issue, prefix, level, |issue.children|, k, prefix + q);
    }
  }

  /**
   * `collect_pending_issues_at_level(issue, l)` gathers exactly the paths of
   * length `l` that lead to a pending node.
   */
  lemma PendingAtLevelExact(issue: Issue, level: nat, p: seq<nat>)
    ensures p in PendingPaths(issue, [], level) <==> |p| == level && PendingAt(issue, p)
  {
    if p in PendingPaths(issue, [], level) {
      PendingPathsSound(issue, [], level, p);
      assert p[0..] == p;
    }
    if |p| == level && PendingAt(issue, p) {
      PendingPathsComplete(issue, [], level, p);
      assert [] + p == p;
    }
  }

  // ---------------------------------------------------------------------
  // Writing through a path

  /**
   * `get_node_at_path_mut` followed by a write: the tree with the node at
   * `path` replaced by `n`, or `None` when the path leaves the tree.
   */
  function ReplaceAt(root: Issue, path: seq<nat>, n: Issue): (r: Option<Issue>)
    ensures r.Some? <==> NodeAt(root, path).Some?
    decreases |path|
  {
    if path == [] then Some(n)
    else if path[0] < |root.children| then
      match ReplaceAt(root.children[path[0]], path[1..], n)
        case Some(c) => Some(root.(children := root.children[path[0] := c]))
        case None => None
    else None
  }

  /** What was written through a path is what the path then reaches. */
  lemma {:induction false} ReplaceThenGet(root: Issue, path: seq<nat>, n: Issue)
    requires NodeAt(root, path).Some?
    ensures NodeAt(ReplaceAt(root, path, n).value, path) == Some(n)
    decreases |path|
  {
    if path != [] {
      ReplaceThenGet(root.children[path[0]], path[1..], n);
    }
  }

  /** Writing back the node a path reaches leaves the tree as it was. */
  lemma {:induction false} GetThenReplace(root: Issue, path: seq<nat>)
    requires NodeAt(root, path).Some?
    ensures ReplaceAt(root, path, NodeAt(root, path).value) == Some(root)
    decreases |path|
  {
    if path != [] {
      var k := path[0];
      GetThenReplace(root.children[k], path[1..]);
      assert root.children[k := root.children[k]] == root.children;
    }
  }

  /** The second of two writes through the same path wins. */
  lemma {:induction false} ReplaceTwice(root: Issue, path: seq<nat>, a: Issue, b: Issue)
    requires NodeAt(root, path).Some?
    ensures ReplaceAt(ReplaceAt(root, path, a).value, path, b) == ReplaceAt(root, path, b)
    decreases |path|
  {
    if path != [] {
      var k := path[0];
      var c1 := ReplaceAt(root.children[k], path[1..], a).value;
      var once := root.(children := root.children[k := c1]);
      assert ReplaceAt(root, path, a) == Some(once);
      ReplaceTwice(root.children[k], path[1..], a, b);
      assert once.children[k] == c1;
      assert once.children[k := ReplaceAt(c1, path[1..], b).value]
        == root.children[k := ReplaceAt(c1, path[1..], b).value];
    }
  }

  // ---------------------------------------------------------------------
  // Whole-tree equality for the filesystem sink

  /** The tree with every last-change time dropped. */
  function Erase(a: Issue): Issue
    decreases a
  {
    Issue(Meta(a.meta.identity, None), a.contents,
      seq(|a.children|, i requires 0 <= i < |a.children| => Erase(a.children[i])))
  }

  /**
   * `issues_equal`: contents, identity, child count and then each child
   * pair, stopping at the first difference. Two trees are equal exactly
   * when they agree once their last-change times are dropped.
   */
  method IssuesEqual(a: Issue, b: Issue) returns (r: bool)
    ensures r <==> Erase(a) == Erase(b)
    decreases a
  {
    if a.contents != b.contents {
      return false;
    }
    if a.meta.identity != b.meta.identity {
      return false;
    }
    if |a.children| != |b.children| {
      assert |Erase(a).children| != |Erase(b).children|;
      return false;
    }
    var i := 0;
    while i < |a.children|
      invariant 0 <= i <= |a.children|
      invariant forall j :: 0 <= j < i ==> Erase(a.children[j]) == Erase(b.children[j])
    {
      var same := IssuesEqual(a.children[i], b.children[i]);
      if !same {
        assert Erase(a).children[i] != Erase(b).children[i];
        return false;
      }
      i := i + 1;
    }
    assert Erase(a).children == Erase(b).children;
    return true;
  }

  // ---------------------------------------------------------------------
  // Per-node diffs

  /** The elements of `s` that `f` keeps, in order. */
  function Keep<T(!new)>(s: seq<T>, f: T -> bool): (r: seq<T>)
    ensures forall x :: x in r <==> x in s && f(x)
    ensures |r| <= |s|
  {
    if s == [] then []
    else
      assert s == s[..|s| - 1] + [s[|s| - 1]];
      Keep(s[..|s| - 1], f) + (if f(s[|s| - 1]) then [s[|s| - 1]] else [])
  }

  lemma KeepSnoc<T(!new)>(s: seq<T>, i: nat, f: T -> bool)
    requires i < |s|
    ensures Keep(s[..i + 1], f) == Keep(s[..i], f) + (if f(s[i]) then [s[i]] else [])
  {
    assert s[..i + 1][..i] == s[..i];
  }

  /** The text of the first comment, the issue body; empty without comments. */
  function BodyText(cs: seq<IssueTypes.Comment>): string {
    if cs == [] then "" else cs[0].body
  }

  /** Every comment after the body (`skip(1)`). */
  function Later(cs: seq<IssueTypes.Comment>): seq<IssueTypes.Comment> {
    if cs == [] then [] else cs[1..]
  }

  predicate IsPendingComment(c: IssueTypes.Comment) { c.identity.Pending? }

  /** A comment that is not on GitHub yet and has text: pending or body-marked. */
  predicate IsNewComment(c: IssueTypes.Comment) { !c.identity.Created? && c.body != "" }

  predicate IsPendingIssue(i: Issue) { i.meta.identity.Pending? }

  /** The ids of the comments on GitHub. */
  function CommentIds(cs: seq<IssueTypes.Comment>): set<nat> {
    set c | c in cs && c.identity.Created? :: c.identity.id
  }

  /** The id-to-comment map of `cs`; a later comment with the same id wins. */
  function CommentMap(cs: seq<IssueTypes.Comment>): (m: map<nat, IssueTypes.Comment>)
    ensures forall k :: k in m ==> m[k] in cs && m[k].identity.Created? && m[k].identity.id == k
  {
    if cs == [] then map[]
    else
      var init := CommentMap(cs[..|cs| - 1]);
      var c := cs[|cs| - 1];
      assert cs == cs[..|cs| - 1] + [c];
      if c.identity.Created? then init[c.identity.id := c] else init
  }

  /** The keys of the map are the ids of the list. */
  lemma {:induction false} CommentMapKeys(cs: seq<IssueTypes.Comment>)
    ensures CommentMap(cs).Keys == CommentIds(cs)
  {
    if cs != [] {
      var init := cs[..|cs| - 1];
      CommentMapKeys(init);
      assert cs == init + [cs[|cs| - 1]];
    }
  }

  /** With distinct ids, each comment on GitHub is what the map holds for its id. */
  lemma {:induction false} CommentMapUnique(cs: seq<IssueTypes.Comment>, i: nat)
    requires UniqueIds(cs) && i < |cs| && cs[i].identity.Created?
    ensures cs[i].identity.id in CommentMap(cs) && CommentMap(cs)[cs[i].identity.id] == cs[i]
  {
    var init := cs[..|cs| - 1];
    assert cs == init + [cs[|cs| - 1]];
    if i < |cs| - 1 {
      assert UniqueIds(init);
      CommentMapUnique(init, i);
      assert cs[i] == init[i];
      CommentMapKeys(init);
    }
  }

  /** No two comments on GitHub share an id. */
  predicate UniqueIds(cs: seq<IssueTypes.Comment>) {
    forall i, j :: 0 <= i < j < |cs| && cs[i].identity.Created? && cs[j].identity.Created? ==>
      cs[i].identity.id != cs[j].identity.id
  }

  /** The comments on GitHub whose text differs from the old comment with their id. */
  lemma UpdatesSnoc(cs: seq<IssueTypes.Comment>, i: nat, before: map<nat, IssueTypes.Comment>)
    requires i < |cs|
    ensures var c := cs[i];
      Updates(cs[..i + 1], before) == Updates(cs[..i], before)
        + (if c.identity.Created? && c.identity.id in before && before[c.identity.id].body != c.body
           then [(c.identity.id, c)] else [])
  {
    assert cs[..i + 1][..i] == cs[..i];
  }

  function Updates(cs: seq<IssueTypes.Comment>, before: map<nat, IssueTypes.Comment>): (r: seq<(nat, IssueTypes.Comment)>)
    ensures forall p :: p in r <==>
      p.1 in cs && p.1.identity.Created? && p.0 == p.1.identity.id && p.0 in before && before[p.0].body != p.1.body
  {
    if cs == [] then []
    else
      var c := cs[|cs| - 1];
      assert cs == cs[..|cs| - 1] + [c];
      Updates(cs[..|cs| - 1], before)
      + (if c.identity.Created? && c.identity.id in before && before[c.identity.id].body != c.body
         then [(c.identity.id, c)] else [])
  }

  /** The numbers of the children already on GitHub. */
  function ChildNumbers(cs: seq<Issue>): set<nat> {
    set c | c in cs && c.meta.identity.Created? :: c.meta.identity.number
  }

  /**
   * What `compute_node_diff(new, old)` returns. Without an old state only
   * pending later comments and pending children are collected; with one,
   * the flags compare body, state, title and labels, new comments with text
   * are created, comments on GitHub whose text changed are updated, and ids
   * and child numbers that only the old state has are deleted.
   */
  function NodeDiff(pushed: Issue, existing: Option<Issue>): IssueDiff {
    var later := Later(pushed.contents.comments);
    match existing
      case None =>
        NO_DIFF.(commentsToCreate := Keep(later, IsPendingComment),
                 childrenToCreate := Keep(pushed.children, IsPendingIssue))
      case Some(o) =>
        var oldComments := CommentMap(Later(o.contents.comments));
        IssueDiff(
          BodyText(pushed.contents.comments) != BodyText(o.contents.comments),
          pushed.contents.state != o.contents.state,
          pushed.contents.title != o.contents.title,
          pushed.contents.labels != o.contents.labels,
          Keep(later, IsNewComment),
          Updates(later, oldComments),
          oldComments.Keys - CommentIds(later),
          Keep(pushed.children, IsPendingIssue),
          ChildNumbers(o.children) - ChildNumbers(pushed.children))
  }

  /** The pending children, in order. */
  method PendingChildren(children: seq<Issue>) returns (r: seq<Issue>)
    ensures r == Keep(children, IsPendingIssue)
  {
    r := [];
    var i := 0;
    while i < |children|
      invariant 0 <= i <= |children|
      invariant r == Keep(children[..i], IsPendingIssue)
    {
      KeepSnoc(children, i, IsPendingIssue);
      if children[i].meta.identity.Pending? {
        r := r + [children[i]];
      }
      i := i + 1;
    }
    assert children[..i] == children;
  }

  /** `compute_node_diff`. */
  method ComputeNodeDiff(pushed: Issue, existing: Option<Issue>) returns (d: IssueDiff)
    ensures d == NodeDiff(pushed, existing)
  {
    var later := Later(pushed.contents.comments);
    if existing.None? {
      var creates := PendingComments(later);
      var children := PendingChildren(pushed.children);
      return NO_DIFF.(commentsToCreate := creates, childrenToCreate := children);
    }
    var o := existing.value;
    var oldComments := CommentMap(Later(o.contents.comments));
    var newIds := CommentIds(later);
    var creates, updates := CommentChanges(later, oldComments);
    var children := PendingChildren(pushed.children);
    d := IssueDiff(
      BodyText(pushed.contents.comments) != BodyText(o.contents.comments),
      pushed.contents.state != o.contents.state,
      pushed.contents.title != o.contents.title,
      pushed.contents.labels != o.contents.labels,
      creates, updates, oldComments.Keys - newIds,
      children, ChildNumbers(o.children) - ChildNumbers(pushed.children));
  }

  /** With nothing on the remote, every pending comment is created. */
  method PendingComments(later: seq<IssueTypes.Comment>) returns (creates: seq<IssueTypes.Comment>)
    ensures creates == Keep(later, IsPendingComment)
  {
    creates := [];
    var i := 0;
    while i < |later|
      invariant 0 <= i <= |later|
      invariant creates == Keep(later[..i], IsPendingComment)
    {
      KeepSnoc(later, i, IsPendingComment);
      if later[i].identity.Pending? {
        creates := creates + [later[i]];
      }
      i := i + 1;
    }
    assert later[..i] == later;
  }

  /** The comments to create (new, non-empty) and to update (linked, body changed). */
  method CommentChanges(later: seq<IssueTypes.Comment>, oldComments: map<nat, IssueTypes.Comment>) returns (creates: seq<IssueTypes.Comment>, updates: seq<(nat, IssueTypes.Comment)>)
    ensures creates == Keep(later, IsNewComment)
    ensures updates == Updates(later, oldComments)
  {
    creates := [];
    updates := [];
    var i := 0;
    while i < |later|
      invariant 0 <= i <= |later|
      invariant creates == Keep(later[..i], IsNewComment)
      invariant updates == Updates(later[..i], oldComments)
    {
      KeepSnoc(later, i, IsNewComment);
      UpdatesSnoc(later, i, oldComments);
      var c := later[i];
      match c.identity {
        case Created(_, id) =>
          if id in oldComments && c.body != oldComments[id].body {
            updates := updates + [(id, c)];
          }
        case _ =>
          if c.body != "" {
            creates := creates + [c];
          }
      }
      i := i + 1;
    }
    assert later[..i] == later;
  }

  /** No element of `s` passes `f`, so nothing is kept. */
  lemma KeepNone<T(!new)>(s: seq<T>, f: T -> bool)
    requires forall x :: x in s ==> !f(x)
    ensures Keep(s, f) == []
  {
    if Keep(s, f) != [] {
      assert Keep(s, f)[0] in Keep(s, f);
    }
  }

  /**
   * Diffing a node against itself finds nothing to do, as long as it holds
   * no new comment with text, no pending child, and no two comments with
   * the same id.
   */
  lemma SelfDiffNoChanges(x: Issue)
    requires forall c :: c in Later(x.contents.comments) ==> !IsNewComment(c)
    requires forall c :: c in x.children ==> !IsPendingIssue(c)
    requires UniqueIds(Later(x.contents.comments))
    ensures !HasChanges(NodeDiff(x, Some(x)))
  {
    var later := Later(x.contents.comments);
    var m := CommentMap(later);
    KeepNone(later, IsNewComment);
    KeepNone(x.children, IsPendingIssue);
    CommentMapKeys(later);
    forall i | 0 <= i < |later| && later[i].identity.Created?
      ensures later[i].identity.id in m && m[later[i].identity.id] == later[i]
    {
      CommentMapUnique(later, i);
    }
    UpdatesNone(later, m);
  }

  /** When every comment on GitHub matches the old text for its id, nothing is updated. */
  lemma {:induction false} UpdatesNone(cs: seq<IssueTypes.Comment>, before: map<nat, IssueTypes.Comment>)
    requires forall i :: 0 <= i < |cs| && cs[i].identity.Created? ==>
      cs[i].identity.id in before && before[cs[i].identity.id] == cs[i]
    ensures Updates(cs, before) == []
  {
    if cs != [] {
      UpdatesNone(cs[..|cs| - 1], before);
    }
  }

  /** Two comments on GitHub with one id but different text make a node differ from itself. */
  lemma SelfDiffDuplicateIds(body: IssueTypes.Comment, user: string, id: nat, t1: string, t2: string, x: Issue)
    requires t1 != t2
    requires x.contents.comments ==
      [body, IssueTypes.Comment(IssueTypes.Created(user, id), t1), IssueTypes.Comment(IssueTypes.Created(user, id), t2)]
    ensures HasChanges(NodeDiff(x, Some(x)))
  {
    var later := Later(x.contents.comments);
    var c1 := later[0];
    assert later[..1] == [c1];
    assert CommentMap(later[..1]) == map[id := c1];
    assert later[..2] == later;
    assert CommentMap(later)[id] == later[1];
    assert (id, c1) in Updates(later, CommentMap(later));
  }

  /** Without an old state only pending later comments and pending children are collected. */
  lemma DiffWithoutExisting(pushed: Issue)
    ensures var d := NodeDiff(pushed, None);
      && !d.bodyChanged && !d.stateChanged && !d.titleChanged && !d.labelsChanged
      && d.commentsToUpdate == [] && d.commentsToDelete == {} && d.childrenToDelete == {}
      && (forall c :: c in d.commentsToCreate <==> c in Later(pushed.contents.comments) && c.identity.Pending?)
      && (forall c :: c in d.childrenToCreate <==> c in pushed.children && c.meta.identity.Pending?)
  {
  }

  /**
   * Against an old state: new comments with text are created, comments on
   * GitHub whose text differs from the old comment with their id are
   * updated, and ids and child numbers only the old state has are deleted.
   */
  lemma DiffAgainstExisting(pushed: Issue, existing: Issue)
    ensures var d := NodeDiff(pushed, Some(existing));
      var later := Later(pushed.contents.comments);
      var before := CommentMap(Later(existing.contents.comments));
      && (d.bodyChanged <==> BodyText(pushed.contents.comments) != BodyText(existing.contents.comments))
      && (forall c :: c in d.commentsToCreate <==> c in later && !c.identity.Created? && c.body != "")
      && (forall p :: p in d.commentsToUpdate <==>
            p.1 in later && p.1.identity.Created? && p.0 == p.1.identity.id
            && p.0 in before && before[p.0].body != p.1.body)
      && (forall k :: k in d.commentsToDelete <==>
            k in CommentIds(Later(existing.contents.comments)) && k !in CommentIds(later))
      && (forall k :: k in d.childrenToDelete <==>
            k in ChildNumbers(existing.children) && k !in ChildNumbers(pushed.children))
      && (forall c :: c in d.childrenToCreate <==> c in pushed.children && c.meta.identity.Pending?)
  {
    CommentMapKeys(Later(existing.contents.comments));
  }
}
