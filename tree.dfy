/**
 * The three-way merge of src/open_interactions/tree.rs: each node of the
 * local tree is compared with the last synced state (the consensus) and
 * with the remote tree, resolved by timestamps when both sides changed,
 * and remote-only sub-issues are appended. The module works on the issue
 * shape that file uses: a URL in the metadata, comments with an id, and a
 * last-change timestamp.
 */
module MergeTree {
  import opened Wrappers
  import IssueTypes
  import Strings

  type CloseState = IssueTypes.CloseState

  datatype Meta = Meta(title: string, url: Option<string>, closeState: CloseState, owned: bool)

  datatype Comment = Comment(id: Option<nat>, body: string, owned: bool)

  /** An issue node; `changed` is `last_contents_change` in seconds. */
  datatype Issue = Issue(meta: Meta, labels: seq<string>, comments: seq<Comment>, children: seq<Issue>, changed: Option<int>)

  /** `NodeResolution`. */
  datatype NodeResolution = NoChange | LocalOnly | RemoteOnly | AutoResolved(takeLocal: bool) | Conflict

  // ---------------------------------------------------------------------
  // Node content

  /** The body: the first comment's text, or nothing. */
  function BodyText(issue: Issue): string {
    if |issue.comments| > 0 then issue.comments[0].body else ""
  }

  /** The comments after the body as (id, text) pairs. */
  function LaterKeys(cs: seq<Comment>): (r: seq<(Option<nat>, string)>)
    ensures |r| == if |cs| > 0 then |cs| - 1 else 0
  {
    if |cs| <= 1 then [] else [(cs[1].id, cs[1].body)] + LaterKeys(cs[1..])
  }

  /** `node_content_eq`: close state, body, later comments and labels agree. */
  predicate NodeContentEq(a: Issue, b: Issue) {
    && a.meta.closeState == b.meta.closeState
    && BodyText(a) == BodyText(b)
    && LaterKeys(a.comments) == LaterKeys(b.comments)
    && a.labels == b.labels
  }

  /** Node content is an equivalence. */
  lemma ContentEqEquivalence(a: Issue, b: Issue, c: Issue)
    ensures NodeContentEq(a, a)
    ensures NodeContentEq(a, b) ==> NodeContentEq(b, a)
    ensures NodeContentEq(a, b) && NodeContentEq(b, c) ==> NodeContentEq(a, c)
  {
  }

  /** Title, URL, ownership, the comments' ownership, sub-issues and the timestamp do not take part. */
  lemma ContentIgnoresShape(a: Issue, meta: Meta, children: seq<Issue>, changed: Option<int>)
    requires meta.closeState == a.meta.closeState
    ensures NodeContentEq(a, a.(meta := meta, children := children, changed := changed))
  {
  }

  /** A different body, or a different later comment, is a content change. */
  lemma {:induction false} ContentSeesComments(a: Issue, b: Issue, k: nat)
    requires 0 < k < |a.comments| && |a.comments| == |b.comments|
    requires a.comments[k].body != b.comments[k].body
    ensures !NodeContentEq(a, b)
  {
    LaterKeysAt(a.comments, k - 1);
    LaterKeysAt(b.comments, k - 1);
  }

  lemma {:induction false} LaterKeysAt(cs: seq<Comment>, j: nat)
    requires j + 1 < |cs|
    ensures LaterKeys(cs)[j] == (cs[j + 1].id, cs[j + 1].body)
    decreases j
  {
    if j > 0 {
      LaterKeysAt(cs[1..], j - 1);
    }
  }

  // ---------------------------------------------------------------------
  // compare_node

  /** Both sides changed: the newer timestamp wins; equal or missing ones conflict. */
  function ByTimestamps(local: Option<int>, remote: Option<int>): (r: NodeResolution)
    ensures r.AutoResolved? || r.Conflict?
  {
    if local.Some? && remote.Some? && local.value != remote.value then AutoResolved(local.value > remote.value)
    else Conflict
  }

  /** `compare_node`. */
  function CompareNode(local: Issue, consensus: Option<Issue>, remote: Issue): (r: NodeResolution)
    ensures r.AutoResolved? ==>
      local.changed.Some? && remote.changed.Some? && local.changed != remote.changed && (r.takeLocal <==> local.changed.value > remote.changed.value)
    ensures r.Conflict? ==> !(local.changed.Some? && remote.changed.Some? && local.changed != remote.changed)
  {
    match consensus
      case None => if NodeContentEq(local, remote) then NoChange else ByTimestamps(local.changed, remote.changed)
      case Some(c) =>
        var localChanged := !NodeContentEq(local, c);
        var remoteChanged := !NodeContentEq(remote, c);
        if !localChanged && !remoteChanged then NoChange
        else if localChanged && !remoteChanged then LocalOnly
        else if !localChanged && remoteChanged then RemoteOnly
        else ByTimestamps(local.changed, remote.changed)
  }

  /** Without a consensus only equality of the two sides means no change, and no side is trusted alone. */
  lemma FirstSyncTable(local: Issue, remote: Issue)
    ensures var r := CompareNode(local, None, remote);
      && (r.NoChange? <==> NodeContentEq(local, remote))
      && !r.LocalOnly? && !r.RemoteOnly?
  {
  }

  /** With a consensus, which sides changed decides the outcome. */
  lemma ConsensusTable(local: Issue, c: Issue, remote: Issue)
    ensures var r := CompareNode(local, Some(c), remote);
      && (r.NoChange? <==> NodeContentEq(local, c) && NodeContentEq(remote, c))
      && (r.LocalOnly? <==> !NodeContentEq(local, c) && NodeContentEq(remote, c))
      && (r.RemoteOnly? <==> NodeContentEq(local, c) && !NodeContentEq(remote, c))
      && ((r.AutoResolved? || r.Conflict?) <==> !NodeContentEq(local, c) && !NodeContentEq(remote, c))
  {
  }

  /** The resolution seen from the other side. */
  function Mirror(r: NodeResolution): NodeResolution {
    match r
      case LocalOnly => RemoteOnly
      case RemoteOnly => LocalOnly
      case AutoResolved(t) => AutoResolved(!t)
      case _ => r
  }

  /** Swapping local and remote swaps the outcome: the comparison favours neither side. */
  lemma CompareSymmetric(local: Issue, consensus: Option<Issue>, remote: Issue)
    ensures CompareNode(remote, consensus, local) == Mirror(CompareNode(local, consensus, remote))
  {
    ContentEqEquivalence(local, remote, remote);
  }

  // ---------------------------------------------------------------------
  // apply_remote_node_content

  function Tail(cs: seq<Comment>): seq<Comment> {
    if |cs| > 0 then cs[1..] else []
  }

  /**
   * `apply_remote_node_content`: the remote close state, labels, body text,
   * later comments and timestamp; title, URL, sub-issues and the body's
   * identity stay.
   */
  function ApplyRemote(resolved: Issue, remote: Issue): (r: Issue)
    ensures r.meta == resolved.meta.(closeState := remote.meta.closeState)
    ensures r.children == resolved.children
    ensures r.labels == remote.labels && r.changed == remote.changed
    ensures |resolved.comments| > 0 && |remote.comments| > 0 ==> NodeContentEq(r, remote)
    ensures |resolved.comments| > 0 ==> |r.comments| > 0 && r.comments[0].id == resolved.comments[0].id && r.comments[0].owned == resolved.comments[0].owned
  {
    var first :=
      if |resolved.comments| == 0 then []
      else if |remote.comments| == 0 then [resolved.comments[0]]
      else [resolved.comments[0].(body := remote.comments[0].body)];
    assert |resolved.comments| > 0 && |remote.comments| > 0 ==> LaterKeys(first + Tail(remote.comments)) == LaterKeys(remote.comments) by {
      if |resolved.comments| > 0 && |remote.comments| > 0 {
        LaterKeysCons(first[0], remote.comments);
      }
    }
    resolved.(meta := resolved.meta.(closeState := remote.meta.closeState), labels := remote.labels,
              comments := first + Tail(remote.comments), changed := remote.changed)
  }

  /** Only the first comment's text and identity differ: the later pairs agree. */
  lemma LaterKeysCons(c: Comment, cs: seq<Comment>)
    requires |cs| > 0
    ensures LaterKeys([c] + cs[1..]) == LaterKeys(cs)
  {
    assert ([c] + cs[1..])[1..] == cs[1..];
  }

  /** The body and later comments come from the remote node; nothing of the local text is kept. */
  lemma ApplyRemoteIdempotent(resolved: Issue, remote: Issue)
    requires |resolved.comments| > 0
    ensures ApplyRemote(ApplyRemote(resolved, remote), remote) == ApplyRemote(resolved, remote)
  {
    var once := ApplyRemote(resolved, remote);
    if |resolved.comments| > 0 && |remote.comments| > 0 {
      assert once.comments[1..] == Tail(remote.comments);
    } else {
      assert once.comments == [resolved.comments[0]];
    }
  }

  /** The source's steps: set the state and labels, rewrite the body, truncate, extend. */
  method ApplyRemoteNodeContent(resolved: Issue, remote: Issue) returns (r: Issue)
    ensures r == ApplyRemote(resolved, remote)
  {
    r := resolved.(meta := resolved.meta.(closeState := remote.meta.closeState), labels := remote.labels);
    if |remote.comments| > 0 && |r.comments| > 0 {
      r := r.(comments := r.comments[0 := r.comments[0].(body := remote.comments[0].body)]);
    }
    if |r.comments| > 1 {
      r := r.(comments := r.comments[..1]);
    }
    if |remote.comments| > 1 {
      r := r.(comments := r.comments + remote.comments[1..]);
    }
    r := r.(changed := remote.changed);
  }

  // ---------------------------------------------------------------------
  // Children by URL

  /** `children.iter().filter_map(url).collect::<HashMap<_, _>>()`: the last child with a URL wins. */
  function UrlMap(cs: seq<Issue>): (m: map<string, Issue>)
  {
    if cs == [] then map[]
    else
      var m := UrlMap(cs[..|cs| - 1]);
      var c := cs[|cs| - 1];
      if c.meta.url.Some? then m[c.meta.url.value := c] else m
  }

  /** A key's child is among the children and has that URL. */
  lemma {:induction false} UrlMapValue(cs: seq<Issue>, url: string)
    requires url in UrlMap(cs)
    ensures UrlMap(cs)[url] in cs && UrlMap(cs)[url].meta.url == Some(url)
    decreases |cs|
  {
    var c := cs[|cs| - 1];
    if c.meta.url != Some(url) {
      UrlMapValue(cs[..|cs| - 1], url);
    }
  }

  /** Every URL among the children is a key. */
  lemma {:induction false} UrlMapHas(cs: seq<Issue>, i: nat)
    requires i < |cs| && cs[i].meta.url.Some?
    ensures cs[i].meta.url.value in UrlMap(cs)
    decreases |cs|
  {
    if i < |cs| - 1 {
      UrlMapHas(cs[..|cs| - 1], i);
    }
  }

  /** A URL among the first `k` children is a URL among all of them. */
  lemma UrlMapPrefix(cs: seq<Issue>, k: nat, url: string)
    requires k <= |cs| && url in UrlMap(cs[..k])
    ensures url in UrlMap(cs)
  {
    UrlMapValue(cs[..k], url);
    var i :| 0 <= i < k && cs[..k][i] == UrlMap(cs[..k])[url];
    UrlMapHas(cs, i);
  }

  function ByUrl(cs: seq<Issue>, url: string): Option<Issue> {
    if url in UrlMap(cs) then Some(UrlMap(cs)[url]) else None
  }

  function ConsensusChild(consensus: Option<Issue>, url: string): Option<Issue> {
    if consensus.Some? then ByUrl(consensus.value.children, url) else None
  }

  /**
   * The remote children whose URL is not a local child's, one per URL, in
   * the order their URLs first appear among the first `k` remote children.
   */
  function NewRemote(remoteCs: seq<Issue>, localCs: seq<Issue>, k: nat): (r: seq<Issue>)
    requires k <= |remoteCs|
    ensures forall c :: c in r ==> c in remoteCs && c.meta.url.Some? && c.meta.url.value !in UrlMap(localCs)
  {
    if k == 0 then []
    else
      var prev := NewRemote(remoteCs, localCs, k - 1);
      var c := remoteCs[k - 1];
      if c.meta.url.Some? && c.meta.url.value !in UrlMap(localCs) && c.meta.url.value !in UrlMap(remoteCs[..k - 1]) then
        assert c.meta.url.value in UrlMap(remoteCs) by { UrlMapHas(remoteCs, k - 1); }
        UrlMapValue(remoteCs, c.meta.url.value);
        prev + [UrlMap(remoteCs)[c.meta.url.value]]
      else prev
  }

  lemma {:induction false} NewRemoteMono(remoteCs: seq<Issue>, localCs: seq<Issue>, j: nat, k: nat)
    requires j <= k <= |remoteCs|
    ensures NewRemote(remoteCs, localCs, j) <= NewRemote(remoteCs, localCs, k)
    decreases k
  {
    if j < k {
      NewRemoteMono(remoteCs, localCs, j, k - 1);
    }
  }

  /** Every remote URL missing locally brings its remote child. */
  lemma {:induction false} NewRemoteComplete(remoteCs: seq<Issue>, localCs: seq<Issue>, k: nat, url: string)
    requires k <= |remoteCs|
    requires url in UrlMap(remoteCs[..k]) && url !in UrlMap(localCs)
    ensures url in UrlMap(remoteCs) && UrlMap(remoteCs)[url] in NewRemote(remoteCs, localCs, k)
    decreases k
  {
    assert k > 0;
    UrlMapPrefix(remoteCs, k, url);
    assert remoteCs[..k][..k - 1] == remoteCs[..k - 1];
    if url in UrlMap(remoteCs[..k - 1]) {
      NewRemoteComplete(remoteCs, localCs, k - 1, url);
      NewRemoteMono(remoteCs, localCs, k - 1, k);
    }
  }

  /** The same children on both sides bring nothing new. */
  lemma {:induction false} NewRemoteOfSame(cs: seq<Issue>, k: nat)
    requires k <= |cs|
    ensures NewRemote(cs, cs, k) == []
  {
    if k > 0 {
      NewRemoteOfSame(cs, k - 1);
      if cs[k - 1].meta.url.Some? {
        UrlMapHas(cs, k - 1);
      }
    }
  }

  // ---------------------------------------------------------------------
  // resolve_tree

  /** The out-parameters of `resolve_tree_recursive`. */
  datatype Flags = Flags(hasConflicts: bool, conflictPaths: seq<seq<nat>>, localNeedsUpdate: bool, remoteNeedsUpdate: bool)

  const NoFlags := Flags(false, [], false, false)

  /** The action on the node itself for its resolution. */
  function NodeStep(resolved: Issue, local: Issue, consensus: Option<Issue>, remote: Issue, path: seq<nat>, f: Flags): (r: (Issue, Flags))
    ensures r.0.children == resolved.children && r.0.meta.url == resolved.meta.url && r.0.meta.title == resolved.meta.title
  {
    match CompareNode(local, consensus, remote)
      case NoChange => (resolved, f)
      case LocalOnly => (resolved, f.(remoteNeedsUpdate := true))
      case RemoteOnly => (ApplyRemote(resolved, remote), f.(localNeedsUpdate := true))
      case AutoResolved(takeLocal) =>
        if takeLocal then (resolved, f.(remoteNeedsUpdate := true))
        else (ApplyRemote(resolved, remote), f.(localNeedsUpdate := true))
      case Conflict => (resolved, f.(hasConflicts := true, conflictPaths := f.conflictPaths + [path]))
  }

  /** `resolve_tree_recursive` on the node `resolved` at `path`. */
  function Resolve(resolved: Issue, local: Issue, consensus: Option<Issue>, remote: Issue, path: seq<nat>, f: Flags): (r: (Issue, Flags))
    decreases resolved, 1
    ensures r.0.meta.url == resolved.meta.url && r.0.meta.title == resolved.meta.title
  {
    var step := NodeStep(resolved, local, consensus, remote, path, f);
    var kids := ResolveChildren(resolved, |resolved.children|, local, consensus, remote, path, step.1);
    var added := NewRemote(remote.children, local.children, |remote.children|);
    (step.0.(children := kids.0 + added), if |added| > 0 then kids.1.(localNeedsUpdate := true) else kids.1)
  }

  /** The loop over the first `k` children of `parent`: a child whose URL both sides know is resolved. */
  function ResolveChildren(parent: Issue, k: nat, local: Issue, consensus: Option<Issue>, remote: Issue, path: seq<nat>, f: Flags): (r: (seq<Issue>, Flags))
    requires k <= |parent.children|
    decreases parent, 0, k
    ensures |r.0| == k
  {
    if k == 0 then ([], f)
    else
      var prev := ResolveChildren(parent, k - 1, local, consensus, remote, path, f);
      var child := parent.children[k - 1];
      (ResolveChild(child, local, consensus, remote, path + [k - 1], prev.1, prev.0))
  }

  /** One turn of that loop, appending the child's result to `done`. */
  function ResolveChild(child: Issue, local: Issue, consensus: Option<Issue>, remote: Issue, childPath: seq<nat>, f: Flags, done: seq<Issue>): (r: (seq<Issue>, Flags))
    decreases child, 2
    ensures |r.0| == |done| + 1
  {
    if child.meta.url.None? then (done + [child], f)
    else
      var url := child.meta.url.value;
      var l := ByUrl(local.children, url);
      var rm := ByUrl(remote.children, url);
      if l.Some? && rm.Some? then
        var sub := Resolve(child, l.value, ConsensusChild(consensus, url), rm.value, childPath, f);
        (done + [sub.0], sub.1)
      else (done + [child], f)
  }

  /** `resolve_tree`: the local tree, resolved from the root with no flag set. */
  function ResolveTreeSpec(local: Issue, consensus: Option<Issue>, remote: Issue): (Issue, Flags) {
    Resolve(local, local, consensus, remote, [], NoFlags)
  }
  /** `collect()` into a map keyed by URL. */
  method BuildUrlMap(cs: seq<Issue>) returns (m: map<string, Issue>)
    ensures m == UrlMap(cs)
  {
    m := map[];
    for i := 0 to |cs|
      invariant m == UrlMap(cs[..i])
    {
      assert cs[..i + 1][..i] == cs[..i];
      if cs[i].meta.url.Some? {
        m := m[cs[i].meta.url.value := cs[i]];
      }
    }
    assert cs[..|cs|] == cs;
  }

  /** The match on the node's resolution. */
  method ResolveNode(resolved: Issue, local: Issue, consensus: Option<Issue>, remote: Issue, path: seq<nat>, f: Flags)
    returns (r: Issue, g: Flags)
    ensures (r, g) == NodeStep(resolved, local, consensus, remote, path, f)
  {
    r, g := resolved, f;
    match CompareNode(local, consensus, remote) {
      case NoChange =>
      case LocalOnly =>
        g := g.(remoteNeedsUpdate := true);
      case RemoteOnly =>
        r := ApplyRemoteNodeContent(r, remote);
        g := g.(localNeedsUpdate := true);
      case AutoResolved(takeLocal) =>
        if takeLocal {
          g := g.(remoteNeedsUpdate := true);
        } else {
          r := ApplyRemoteNodeContent(r, remote);
          g := g.(localNeedsUpdate := true);
        }
      case Conflict =>
        g := g.(hasConflicts := true, conflictPaths := g.conflictPaths + [path]);
    }
  }

  /** The loop over the resolved node's children, updating each in place. */
  method ResolveChildrenInPlace(resolved: Issue, local: Issue, consensus: Option<Issue>, remote: Issue, path: seq<nat>, f: Flags,
                                localByUrl: map<string, Issue>, consensusByUrl: map<string, Issue>, remoteByUrl: map<string, Issue>)
    returns (kids: seq<Issue>, g: Flags)
    requires localByUrl == UrlMap(local.children) && remoteByUrl == UrlMap(remote.children)
    requires consensusByUrl == if consensus.Some? then UrlMap(consensus.value.children) else map[]
    decreases resolved, 0
    ensures (kids, g) == ResolveChildren(resolved, |resolved.children|, local, consensus, remote, path, f)
  {
    kids, g := resolved.children, f;
    for i := 0 to |resolved.children|
      invariant |kids| == |resolved.children| && kids[i..] == resolved.children[i..]
      invariant (kids[..i], g) == ResolveChildren(resolved, i, local, consensus, remote, path, f)
    {
      var child := kids[i];
      assert child == resolved.children[i];
      ghost var done := kids[..i];
      var c;
      c, g := ResolveOneChild(child, local, consensus, remote, path + [i], g, localByUrl, consensusByUrl, remoteByUrl, done);
      Strings.UpdateSplit(kids, i, c);
      Strings.DropDrop(kids, i);
      Strings.DropDrop(resolved.children, i);
      kids := kids[i := c];
    }
    assert kids[..|resolved.children|] == kids;
  }

  /** One turn of that loop: a child whose URL both sides know is resolved. */
  method ResolveOneChild(child: Issue, local: Issue, consensus: Option<Issue>, remote: Issue, childPath: seq<nat>, f: Flags,
                         localByUrl: map<string, Issue>, consensusByUrl: map<string, Issue>, remoteByUrl: map<string, Issue>, ghost done: seq<Issue>)
    returns (c: Issue, g: Flags)
    requires localByUrl == UrlMap(local.children) && remoteByUrl == UrlMap(remote.children)
    requires consensusByUrl == if consensus.Some? then UrlMap(consensus.value.children) else map[]
    decreases child, 2
    ensures (done + [c], g) == ResolveChild(child, local, consensus, remote, childPath, f, done)
  {
    c, g := child, f;
    if child.meta.url.Some? {
      var url := child.meta.url.value;
      if url in localByUrl && url in remoteByUrl {
        var consensusChild := if url in consensusByUrl then Some(consensusByUrl[url]) else None;
        assert consensusChild == ConsensusChild(consensus, url);
        c, g := ResolveTreeRecursive(child, localByUrl[url], consensusChild, remoteByUrl[url], childPath, g);
      }
    }
  }

  /** The URL keys after one more child. */
  lemma UrlKeysStep(cs: seq<Issue>, j: nat, seen: set<string>)
    requires j < |cs| && seen == UrlMap(cs[..j]).Keys
    ensures cs[j].meta.url.Some? ==> UrlMap(cs[..j + 1]).Keys == seen + {cs[j].meta.url.value}
    ensures cs[j].meta.url.None? ==> UrlMap(cs[..j + 1]).Keys == seen
  {
    assert cs[..j + 1][..j] == cs[..j];
  }

  /** One more remote child: its URL is new when neither side has seen it yet. */
  lemma NewRemoteNext(remoteCs: seq<Issue>, localCs: seq<Issue>, j: nat)
    requires j < |remoteCs|
    ensures var u := remoteCs[j].meta.url;
      && (u.Some? ==> u.value in UrlMap(remoteCs))
      && NewRemote(remoteCs, localCs, j + 1) ==
         if u.Some? && u.value !in UrlMap(localCs) && u.value !in UrlMap(remoteCs[..j]).Keys
         then NewRemote(remoteCs, localCs, j) + [UrlMap(remoteCs)[u.value]]
         else NewRemote(remoteCs, localCs, j)
  {
    if remoteCs[j].meta.url.Some? {
      UrlMapHas(remoteCs, j);
    }
  }

  /** The step of the loop below, in the loop's own terms: the maps built up front and the URLs seen so far. */
  lemma NewRemoteTake(remoteCs: seq<Issue>, localCs: seq<Issue>, j: nat, seen: set<string>, localByUrl: map<string, Issue>, remoteByUrl: map<string, Issue>)
    requires j < |remoteCs| && seen == UrlMap(remoteCs[..j]).Keys
    requires localByUrl == UrlMap(localCs) && remoteByUrl == UrlMap(remoteCs)
    ensures var u := remoteCs[j].meta.url;
      if u.Some? && u.value !in seen && u.value !in localByUrl
      then u.value in remoteByUrl && NewRemote(remoteCs, localCs, j + 1) == NewRemote(remoteCs, localCs, j) + [remoteByUrl[u.value]]
      else NewRemote(remoteCs, localCs, j + 1) == NewRemote(remoteCs, localCs, j)
  {
    NewRemoteNext(remoteCs, localCs, j);
  }

  /** The loop over the remote map, appending children whose URL is not local. */
  method AppendNewRemote(kids: seq<Issue>, local: Issue, remote: Issue, f: Flags, localByUrl: map<string, Issue>, remoteByUrl: map<string, Issue>)
    returns (out: seq<Issue>, g: Flags)
    requires localByUrl == UrlMap(local.children) && remoteByUrl == UrlMap(remote.children)
    ensures var added := NewRemote(remote.children, local.children, |remote.children|);
      out == kids + added && g == if |added| > 0 then f.(localNeedsUpdate := true) else f
  {
    out, g := kids, f;
    var seen: set<string> := {};
    ghost var added: seq<Issue> := [];
    for j := 0 to |remote.children|
      invariant seen == UrlMap(remote.children[..j]).Keys
      invariant added == NewRemote(remote.children, local.children, j)
      invariant out == kids + added
      invariant g == if |added| > 0 then f.(localNeedsUpdate := true) else f
    {
      var url := remote.children[j].meta.url;
      NewRemoteTake(remote.children, local.children, j, seen, localByUrl, remoteByUrl);
      UrlKeysStep(remote.children, j, seen);
      if url.Some? && url.value !in seen && url.value !in localByUrl {
        Strings.AppendAssoc(kids, added, [remoteByUrl[url.value]]);
        out := out + [remoteByUrl[url.value]];
        added := added + [remoteByUrl[url.value]];
        g := g.(localNeedsUpdate := true);
      }
      if url.Some? {
        seen := seen + {url.value};
      }
    }
  }

  /** `resolve_tree_recursive`, with the resolved node and the flags passed in and back. */
  method ResolveTreeRecursive(resolved: Issue, local: Issue, consensus: Option<Issue>, remote: Issue, path: seq<nat>, f: Flags)
    returns (r: Issue, g: Flags)
    decreases resolved, 1
    ensures (r, g) == Resolve(resolved, local, consensus, remote, path, f)
  {
    r, g := ResolveNode(resolved, local, consensus, remote, path, f);
    var localByUrl := BuildUrlMap(local.children);
    var consensusByUrl: map<string, Issue> := map[];
    if consensus.Some? {
      consensusByUrl := BuildUrlMap(consensus.value.children);
    }
    var remoteByUrl := BuildUrlMap(remote.children);
    var kids;
    kids, g := ResolveChildrenInPlace(resolved, local, consensus, remote, path, g, localByUrl, consensusByUrl, remoteByUrl);
    kids, g := AppendNewRemote(kids, local, remote, g, localByUrl, remoteByUrl);
    r := r.(children := kids);
  }

  /** `resolve_tree`. */
  method ResolveTree(local: Issue, consensus: Option<Issue>, remote: Issue) returns (resolved: Issue, flags: Flags)
    ensures (resolved, flags) == ResolveTreeSpec(local, consensus, remote)
  {
    resolved, flags := ResolveTreeRecursive(local, local, consensus, remote, [], NoFlags);
  }
  // ---------------------------------------------------------------------
  // What the resolution guarantees

  /** Flags only switch on, and conflict paths are only appended. */
  predicate Grows(f: Flags, g: Flags) {
    && f.conflictPaths <= g.conflictPaths
    && (f.hasConflicts ==> g.hasConflicts)
    && (f.localNeedsUpdate ==> g.localNeedsUpdate)
    && (f.remoteNeedsUpdate ==> g.remoteNeedsUpdate)
  }

  /** `has_conflicts` is set exactly when a conflict path is recorded. */
  predicate Consistent(f: Flags) {
    f.hasConflicts <==> |f.conflictPaths| > 0
  }

  lemma GrowsTrans(a: Flags, b: Flags, c: Flags)
    requires Grows(a, b) && Grows(b, c)
    ensures Grows(a, c)
  {
  }

  /** The walk only adds to the flags and keeps them consistent. */
  lemma {:induction false} ResolveGrows(resolved: Issue, local: Issue, consensus: Option<Issue>, remote: Issue, path: seq<nat>, f: Flags)
    decreases resolved, 1
    ensures var g := Resolve(resolved, local, consensus, remote, path, f).1;
      Grows(f, g) && (Consistent(f) ==> Consistent(g))
  {
    var step := NodeStep(resolved, local, consensus, remote, path, f);
    NodeStepGrows(resolved, local, consensus, remote, path, f);
    ResolveChildrenGrows(resolved, |resolved.children|, local, consensus, remote, path, step.1);
    var kids := ResolveChildren(resolved, |resolved.children|, local, consensus, remote, path, step.1);
    GrowsTrans(f, step.1, kids.1);
    GrowsTrans(f, kids.1, Resolve(resolved, local, consensus, remote, path, f).1);
  }

  /** The node's own step only adds to the flags and keeps them consistent. */
  lemma NodeStepGrows(resolved: Issue, local: Issue, consensus: Option<Issue>, remote: Issue, path: seq<nat>, f: Flags)
    ensures var g := NodeStep(resolved, local, consensus, remote, path, f).1;
      Grows(f, g) && (Consistent(f) ==> Consistent(g))
  {
  }

  lemma {:induction false} ResolveChildrenGrows(parent: Issue, k: nat, local: Issue, consensus: Option<Issue>, remote: Issue, path: seq<nat>, f: Flags)
    requires k <= |parent.children|
    decreases parent, 0, k
    ensures var g := ResolveChildren(parent, k, local, consensus, remote, path, f).1;
      Grows(f, g) && (Consistent(f) ==> Consistent(g))
  {
    if k > 0 {
      ResolveChildrenGrows(parent, k - 1, local, consensus, remote, path, f);
      var prev := ResolveChildren(parent, k - 1, local, consensus, remote, path, f);
      ResolveChildGrows(parent.children[k - 1], local, consensus, remote, path + [k - 1], prev.1, prev.0);
    }
  }

  lemma {:induction false} ResolveChildGrows(child: Issue, local: Issue, consensus: Option<Issue>, remote: Issue, childPath: seq<nat>, f: Flags, done: seq<Issue>)
    decreases child, 2
    ensures var g := ResolveChild(child, local, consensus, remote, childPath, f, done).1;
      Grows(f, g) && (Consistent(f) ==> Consistent(g))
  {
    if child.meta.url.Some? {
      var url := child.meta.url.value;
      var l := ByUrl(local.children, url);
      var rm := ByUrl(remote.children, url);
      if l.Some? && rm.Some? {
        ResolveGrows(child, l.value, ConsensusChild(consensus, url), rm.value, childPath, f);
      }
    }
  }

  /** Running the children's loop further only adds to the flags. */
  lemma {:induction false} ResolveChildrenFrom(parent: Issue, j: nat, k: nat, local: Issue, consensus: Option<Issue>, remote: Issue, path: seq<nat>, f: Flags)
    requires j <= k <= |parent.children|
    decreases k
    ensures Grows(ResolveChildren(parent, j, local, consensus, remote, path, f).1, ResolveChildren(parent, k, local, consensus, remote, path, f).1)
  {
    if j < k {
      ResolveChildrenFrom(parent, j, k - 1, local, consensus, remote, path, f);
      var prev := ResolveChildren(parent, k - 1, local, consensus, remote, path, f);
      ResolveChildGrows(parent.children[k - 1], local, consensus, remote, path + [k - 1], prev.1, prev.0);
      GrowsTrans(ResolveChildren(parent, j, local, consensus, remote, path, f).1, prev.1, ResolveChildren(parent, k, local, consensus, remote, path, f).1);
    }
  }

  /** `resolve_tree` reports conflicts exactly when it records a conflict path. */
  lemma TreeConflictsIff(local: Issue, consensus: Option<Issue>, remote: Issue)
    ensures var g := ResolveTreeSpec(local, consensus, remote).1;
      g.hasConflicts <==> |g.conflictPaths| > 0
  {
    ResolveGrows(local, local, consensus, remote, [], NoFlags);
  }

  /** A node in conflict has its path recorded. */
  lemma ConflictRecorded(resolved: Issue, local: Issue, consensus: Option<Issue>, remote: Issue, path: seq<nat>, f: Flags)
    requires CompareNode(local, consensus, remote).Conflict?
    ensures var g := Resolve(resolved, local, consensus, remote, path, f).1;
      g.hasConflicts && path in g.conflictPaths
  {
    var step := NodeStep(resolved, local, consensus, remote, path, f);
    assert path in step.1.conflictPaths;
    ResolveChildrenGrows(resolved, |resolved.children|, local, consensus, remote, path, step.1);
  }

  /** A conflict path recorded while resolving a sub-issue is kept by its parent. */
  lemma {:induction false} ChildConflictKept(resolved: Issue, local: Issue, consensus: Option<Issue>, remote: Issue, path: seq<nat>, f: Flags, i: nat, p: seq<nat>)
    requires i < |resolved.children|
    requires var before := ResolveChildren(resolved, i, local, consensus, remote, path, NodeStep(resolved, local, consensus, remote, path, f).1);
      p in ResolveChild(resolved.children[i], local, consensus, remote, path + [i], before.1, before.0).1.conflictPaths
    ensures p in Resolve(resolved, local, consensus, remote, path, f).1.conflictPaths
  {
    var step := NodeStep(resolved, local, consensus, remote, path, f);
    ResolveChildrenFrom(resolved, i + 1, |resolved.children|, local, consensus, remote, path, step.1);
  }

  /**
   * What happens to the node itself: taking the remote side applies the
   * remote content and marks the local file for update; keeping the local
   * side leaves the node and marks the remote for update.
   */
  lemma NodeOutcome(resolved: Issue, local: Issue, consensus: Option<Issue>, remote: Issue, path: seq<nat>, f: Flags)
    ensures var r := Resolve(resolved, local, consensus, remote, path, f);
      var node := r.0.(children := resolved.children);
      match CompareNode(local, consensus, remote)
        case RemoteOnly => node == ApplyRemote(resolved, remote) && r.1.localNeedsUpdate
        case AutoResolved(takeLocal) =>
          if takeLocal then node == resolved && r.1.remoteNeedsUpdate
          else node == ApplyRemote(resolved, remote) && r.1.localNeedsUpdate
        case LocalOnly => node == resolved && r.1.remoteNeedsUpdate
        case _ => node == resolved
  {
    NodeStepOutcome(resolved, local, consensus, remote, path, f);
    ResolveAfterStep(resolved, local, consensus, remote, path, f);
  }

  /** The node's own step, before the children are visited. */
  lemma NodeStepOutcome(resolved: Issue, local: Issue, consensus: Option<Issue>, remote: Issue, path: seq<nat>, f: Flags)
    ensures var step := NodeStep(resolved, local, consensus, remote, path, f);
      match CompareNode(local, consensus, remote)
        case RemoteOnly => step.0 == ApplyRemote(resolved, remote) && step.1.localNeedsUpdate
        case AutoResolved(takeLocal) =>
          if takeLocal then step.0 == resolved && step.1.remoteNeedsUpdate
          else step.0 == ApplyRemote(resolved, remote) && step.1.localNeedsUpdate
        case LocalOnly => step.0 == resolved && step.1.remoteNeedsUpdate
        case _ => step.0 == resolved
  {
  }

  /** Visiting the children changes only the children of the node, and only raises flags. */
  lemma ResolveAfterStep(resolved: Issue, local: Issue, consensus: Option<Issue>, remote: Issue, path: seq<nat>, f: Flags)
    ensures var step := NodeStep(resolved, local, consensus, remote, path, f);
      var r := Resolve(resolved, local, consensus, remote, path, f);
      r.0.(children := resolved.children) == step.0 && Grows(step.1, r.1)
  {
    var step := NodeStep(resolved, local, consensus, remote, path, f);
    ResolveChildrenGrows(resolved, |resolved.children|, local, consensus, remote, path, step.1);
  }

  /** The loop keeps each child's URL in its place. */
  lemma {:induction false} ChildrenKeepUrls(parent: Issue, k: nat, local: Issue, consensus: Option<Issue>, remote: Issue, path: seq<nat>, f: Flags)
    requires k <= |parent.children|
    ensures var kids := ResolveChildren(parent, k, local, consensus, remote, path, f).0;
      forall i :: 0 <= i < k ==> kids[i].meta.url == parent.children[i].meta.url
  {
    if k > 0 {
      ChildrenKeepUrls(parent, k - 1, local, consensus, remote, path, f);
    }
  }

  /**
   * The resolved node keeps its sub-issues in place, with their URLs, and
   * then appends each remote sub-issue whose URL no local sub-issue has,
   * marking the local file for update.
   */
  lemma {:induction false} ResolvedChildren(resolved: Issue, local: Issue, consensus: Option<Issue>, remote: Issue, path: seq<nat>, f: Flags, url: string)
    ensures var r := Resolve(resolved, local, consensus, remote, path, f);
      && |r.0.children| >= |resolved.children|
      && (forall i :: 0 <= i < |resolved.children| ==> r.0.children[i].meta.url == resolved.children[i].meta.url)
      && (forall c :: c in r.0.children[|resolved.children|..] ==> c in remote.children && c.meta.url.Some? && c.meta.url.value !in UrlMap(local.children))
    ensures url in UrlMap(remote.children) && url !in UrlMap(local.children) ==>
      var r := Resolve(resolved, local, consensus, remote, path, f);
      UrlMap(remote.children)[url] in r.0.children && r.1.localNeedsUpdate
  {
    var step := NodeStep(resolved, local, consensus, remote, path, f);
    ChildrenKeepUrls(resolved, |resolved.children|, local, consensus, remote, path, step.1);
    var kids := ResolveChildren(resolved, |resolved.children|, local, consensus, remote, path, step.1);
    var added := NewRemote(remote.children, local.children, |remote.children|);
    assert (kids.0 + added)[|resolved.children|..] == added;
    if url in UrlMap(remote.children) && url !in UrlMap(local.children) {
      assert remote.children[..|remote.children|] == remote.children;
      NewRemoteComplete(remote.children, local.children, |remote.children|, url);
    }
  }

  /** The consensus a sub-issue gets when the parent's consensus equals the tree or is absent. */
  predicate SameOrNone(consensus: Option<Issue>, t: Issue) {
    consensus == Some(t) || consensus == None
  }

  /** Three identical sides (or no consensus) change nothing: no flag, no edit. */
  lemma {:induction false} IdenticalUnchanged(resolved: Issue, t: Issue, consensus: Option<Issue>, path: seq<nat>, f: Flags)
    requires SameOrNone(consensus, t)
    decreases resolved, 1
    ensures Resolve(resolved, t, consensus, t, path, f) == (resolved, f)
  {
    ContentEqEquivalence(t, t, t);
    assert CompareNode(t, consensus, t) == NoChange;
    IdenticalChildren(resolved, |resolved.children|, t, consensus, path, f);
    NewRemoteOfSame(t.children, |t.children|);
    assert NodeStep(resolved, t, consensus, t, path, f) == (resolved, f);
    assert resolved.children[..|resolved.children|] + [] == resolved.children;
  }

  lemma {:induction false} IdenticalChildren(parent: Issue, k: nat, t: Issue, consensus: Option<Issue>, path: seq<nat>, f: Flags)
    requires k <= |parent.children| && SameOrNone(consensus, t)
    decreases parent, 0, k
    ensures ResolveChildren(parent, k, t, consensus, t, path, f) == (parent.children[..k], f)
  {
    if k > 0 {
      IdenticalChildren(parent, k - 1, t, consensus, path, f);
      var child := parent.children[k - 1];
      if child.meta.url.Some? {
        var url := child.meta.url.value;
        var l := ByUrl(t.children, url);
        if l.Some? {
          IdenticalUnchanged(child, l.value, ConsensusChild(consensus, url), path + [k - 1], f);
        }
      }
      assert parent.children[..k] == parent.children[..k - 1] + [child];
    }
  }

  /** `resolve_tree` on three identical trees, or two with no consensus, returns the tree and sets no flag. */
  lemma IdenticalTreesNoFlags(t: Issue, consensus: Option<Issue>)
    requires SameOrNone(consensus, t)
    ensures ResolveTreeSpec(t, consensus, t) == (t, NoFlags)
  {
    IdenticalUnchanged(t, t, consensus, [], NoFlags);
  }
}
