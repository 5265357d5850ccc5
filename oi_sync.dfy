/**
 * src/open_interactions/sync.rs: the merge mode that is consumed by the
 * first sync, the choice between the tree resolution and a preferred side,
 * pushing one issue's edits to GitHub against the last synced (consensus)
 * state, and running the levelled create/update actions while writing the
 * new URLs back into the tree.
 */
module OiSync {
  import opened Wrappers
  import Strings
  import OpenIssue
  import IssueTypes
  import Github
  import MergeTree
  import CommentSync
  import OpenIssueActions

  type Call = CommentSync.Call

  datatype Side = Local | Remote

  /** `MergeMode`; `Normal` is the default. */
  datatype MergeMode = Normal | Force(prefer: Side) | Reset(prefer: Side)

  /** `SyncOptions`: the merge mode is a cell that the first sync empties. */
  class SyncOptions {
    var mergeMode: Option<MergeMode>
    const pull: bool

    constructor(mergeMode: Option<MergeMode>, pull: bool)
      ensures this.mergeMode == mergeMode && this.pull == pull
    {
      this.mergeMode := mergeMode;
      this.pull := pull;
    }

    /** `take_merge_mode`: the stored mode, or `Normal`; afterwards nothing is stored. */
    method TakeMergeMode() returns (m: MergeMode)
      modifies this
      ensures old(mergeMode).Some? ==> m == old(mergeMode).value
      ensures old(mergeMode).None? ==> m == Normal
      ensures mergeMode == None
    {
      m := if mergeMode.Some? then mergeMode.value else Normal;
      mergeMode := None;
    }

    /** `peek_merge_mode`: the mode the next take would return, leaving it stored. */
    method PeekMergeMode() returns (m: MergeMode)
      ensures mergeMode.Some? ==> m == mergeMode.value
      ensures mergeMode.None? ==> m == Normal
    {
      m := if mergeMode.Some? then mergeMode.value else Normal;
    }
  }

  /** A non-normal mode is used by one sync only: the one after it runs with `Normal`. */
  method TakeTwice(opts: SyncOptions) returns (first: MergeMode, second: MergeMode)
    modifies opts
    ensures second == Normal && opts.mergeMode == None
    ensures old(opts.mergeMode).Some? ==> first == old(opts.mergeMode).value
  {
    first := opts.TakeMergeMode();
    second := opts.TakeMergeMode();
  }

  // ---------------------------------------------------------------------
  // apply_merge_mode

  /**
   * What `apply_merge_mode` returns: the merged tree with whether the local
   * file and whether GitHub need updating, or, for a normal sync with
   * conflicts, a hand-over to a git merge (whose outcome is the merged file
   * and is outside this model).
   */
  datatype Merged =
    | Merged(issue: MergeTree.Issue, localNeedsUpdate: bool, remoteNeedsUpdate: bool)
    | GitMerge(conflictPaths: seq<seq<nat>>)

  /** Taking one side entirely: keep local and push, or take remote and rewrite the file. */
  function Take(prefer: Side, local: MergeTree.Issue, remote: MergeTree.Issue): Merged {
    match prefer
      case Local => Merged(local, false, true)
      case Remote => Merged(remote, true, false)
  }

  function ApplyMergeMode(local: MergeTree.Issue, consensus: Option<MergeTree.Issue>, remote: MergeTree.Issue, mode: MergeMode): (r: Merged)
    ensures r.GitMerge? <==> mode.Normal? && MergeTree.ResolveTreeSpec(local, consensus, remote).1.hasConflicts
    ensures r.GitMerge? ==> |r.conflictPaths| > 0
    ensures r.Merged? ==> !(r.localNeedsUpdate && r.remoteNeedsUpdate) || !MergeTree.ResolveTreeSpec(local, consensus, remote).1.hasConflicts
  {
    var res := MergeTree.ResolveTreeSpec(local, consensus, remote);
    MergeTree.TreeConflictsIff(local, consensus, remote);
    var resolved := Merged(res.0, res.1.localNeedsUpdate, res.1.remoteNeedsUpdate);
    match mode
      case Normal => if res.1.hasConflicts then GitMerge(res.1.conflictPaths) else resolved
      case Force(prefer) => if res.1.hasConflicts then Take(prefer, local, remote) else resolved
      case Reset(prefer) => Take(prefer, local, remote)
  }

  /** A reset takes its side whatever the history and the remote changes were. */
  lemma ResetIgnoresHistory(local: MergeTree.Issue, c1: Option<MergeTree.Issue>, c2: Option<MergeTree.Issue>,
                            remote: MergeTree.Issue, prefer: Side)
    ensures ApplyMergeMode(local, c1, remote, Reset(prefer)) == ApplyMergeMode(local, c2, remote, Reset(prefer))
    ensures var r := ApplyMergeMode(local, c1, remote, Reset(prefer));
      r.Merged? && r.localNeedsUpdate != r.remoteNeedsUpdate
      && (prefer.Local? <==> r.remoteNeedsUpdate) && r.issue == (if prefer.Local? then local else remote)
  {
  }

  /** Without conflicts, forcing a side changes nothing: the resolution is used as in a normal sync. */
  lemma ForceWithoutConflicts(local: MergeTree.Issue, consensus: Option<MergeTree.Issue>, remote: MergeTree.Issue, prefer: Side)
    requires !MergeTree.ResolveTreeSpec(local, consensus, remote).1.hasConflicts
    ensures ApplyMergeMode(local, consensus, remote, Force(prefer)) == ApplyMergeMode(local, consensus, remote, Normal)
  {
  }

  /** With conflicts, forcing a side is resetting to it; a forced sync never hands over to git. */
  lemma ForceWithConflicts(local: MergeTree.Issue, consensus: Option<MergeTree.Issue>, remote: MergeTree.Issue, prefer: Side)
    requires MergeTree.ResolveTreeSpec(local, consensus, remote).1.hasConflicts
    ensures ApplyMergeMode(local, consensus, remote, Force(prefer)) == ApplyMergeMode(local, consensus, remote, Reset(prefer))
    ensures ApplyMergeMode(local, consensus, remote, Force(prefer)).Merged?
  {
  }

  /** When the file and GitHub agree, a normal or forced sync keeps the tree and updates nothing. */
  lemma IdenticalSidesNoWork(t: MergeTree.Issue, consensus: Option<MergeTree.Issue>, mode: MergeMode)
    requires !mode.Reset? && MergeTree.SameOrNone(consensus, t)
    ensures ApplyMergeMode(t, consensus, t, mode) == Merged(t, false, false)
  {
    MergeTree.IdenticalTreesNoFlags(t, consensus);
  }

  // ---------------------------------------------------------------------
  // sync_local_issue_to_github

  /** The consensus later comments that carry an id, as known comments, in order. */
  function ConsensusKnown(cs: seq<OpenIssue.Comment>): (r: seq<CommentSync.Known>)
    ensures CommentSync.KnownIds(r) == CommentSync.TargetIds(cs)
  {
    if cs == [] then []
    else
      var init := cs[..|cs| - 1];
      var c := cs[|cs| - 1];
      var prev := ConsensusKnown(init);
      TargetIdsSnoc(cs);
      if c.id.Some? then
        assert CommentSync.KnownIds(prev + [CommentSync.Known(c.id.value, c.body)]) == CommentSync.KnownIds(prev) + {c.id.value};
        prev + [CommentSync.Known(c.id.value, c.body)]
      else prev
  }

  /** The known text under an id is the first consensus comment's with that id. */
  lemma {:induction false} ConsensusBody(cs: seq<OpenIssue.Comment>, i: nat)
    requires i < |cs| && cs[i].id.Some?
    requires forall j :: 0 <= j < i ==> cs[j].id != cs[i].id
    ensures CommentSync.KnownBody(ConsensusKnown(cs), cs[i].id.value) == cs[i].body
  {
    var init := cs[..|cs| - 1];
    if i < |cs| - 1 {
      ConsensusBody(init, i);
      KnownBodyAppend(ConsensusKnown(init), cs[i].id.value, if cs[|cs| - 1].id.Some? then [CommentSync.Known(cs[|cs| - 1].id.value, cs[|cs| - 1].body)] else []);
    } else {
      assert forall j :: 0 <= j < |init| ==> init[j].id != cs[i].id;
      assert cs[i].id.value !in CommentSync.TargetIds(init);
      KnownBodyAppend(ConsensusKnown(init), cs[i].id.value, [CommentSync.Known(cs[i].id.value, cs[i].body)]);
    }
  }

  lemma {:induction false} KnownBodyAppend(known: seq<CommentSync.Known>, id: nat, more: seq<CommentSync.Known>)
    ensures id in CommentSync.KnownIds(known) ==> CommentSync.KnownBody(known + more, id) == CommentSync.KnownBody(known, id)
    ensures id !in CommentSync.KnownIds(known) ==> CommentSync.KnownBody(known + more, id) == CommentSync.KnownBody(more, id)
  {
    if known != [] {
      assert (known + more)[0] == known[0] && (known + more)[1..] == known[1..] + more;
      assert CommentSync.KnownIds(known) == {known[0].id} + CommentSync.KnownIds(known[1..]) by {
        assert known == [known[0]] + known[1..];
      }
      KnownBodyAppend(known[1..], id, more);
    } else {
      assert known + more == more;
    }
  }

  lemma TargetIdsSnoc(cs: seq<OpenIssue.Comment>)
    requires cs != []
    ensures var c := cs[|cs| - 1];
      CommentSync.TargetIds(cs) == CommentSync.TargetIds(cs[..|cs| - 1]) + (if c.id.Some? then {c.id.value} else {})
  {
    assert cs == cs[..|cs| - 1] + [cs[|cs| - 1]];
  }

  /** `collect()` of the ids of a list of comments into a set. */
  method CollectIds(cs: seq<OpenIssue.Comment>) returns (ids: set<nat>)
    ensures ids == CommentSync.TargetIds(cs)
  {
    ids := {};
    for i := 0 to |cs|
      invariant ids == CommentSync.TargetIds(cs[..i])
    {
      TargetIdsSnoc(cs[..i + 1]);
      assert cs[..i + 1][..i] == cs[..i];
      if cs[i].id.Some? {
        ids := ids + {cs[i].id.value};
      }
    }
    assert cs[..|cs|] == cs;
  }

  /** Once a run has stopped, the later comments change nothing. */
  lemma {:induction false} PushesStopped(cs: seq<OpenIssue.Comment>, known: seq<CommentSync.Known>, number: nat, strict: bool, k: nat)
    requires k <= |cs| && CommentSync.Pushes(cs[..k], known, number, strict).1.Some?
    ensures CommentSync.Pushes(cs, known, number, strict) == CommentSync.Pushes(cs[..k], known, number, strict)
    decreases |cs| - k
  {
    if k < |cs| {
      assert cs[..k + 1][..k] == cs[..k];
      PushesStopped(cs, known, number, strict, k + 1);
    } else {
      assert cs[..k] == cs;
    }
  }

  /** What the issue pushes against the consensus state: strict about unknown comment ids. */
  function SyncSpec(number: nat, consensus: OpenIssue.Issue, local: OpenIssue.Issue): CommentSync.Outcome {
    CommentSync.Plan(number, local, IssueTypes.IsClosed(consensus.meta.closeState), OpenIssue.Body(consensus),
      ConsensusKnown(OpenIssue.Later(consensus)), true)
  }

  /** The deletion loop over the consensus later comments. */
  method DeleteRemoved(consensusLater: seq<OpenIssue.Comment>, targetIds: set<nat>) returns (calls: seq<Call>)
    ensures calls == CommentSync.Deletes(ConsensusKnown(consensusLater), targetIds)
  {
    calls := [];
    for i := 0 to |consensusLater|
      invariant calls == CommentSync.Deletes(ConsensusKnown(consensusLater[..i]), targetIds)
    {
      assert consensusLater[..i + 1][..i] == consensusLater[..i];
      var c := consensusLater[i];
      if c.id.Some? && c.id.value !in targetIds {
        calls := calls + [CommentSync.DeleteComment(c.id.value)];
      }
    }
    assert consensusLater[..|consensusLater|] == consensusLater;
  }

  /** The update-and-create loop over the file's later comments; `stop` is the unknown id that ended it. */
  method PushComments(later: seq<OpenIssue.Comment>, known: seq<CommentSync.Known>, consensusIds: set<nat>, number: nat)
    returns (calls: seq<Call>, stop: Option<nat>)
    requires consensusIds == CommentSync.KnownIds(known)
    ensures (calls, stop) == CommentSync.Pushes(later, known, number, true)
  {
    calls := [];
    for i := 0 to |later|
      invariant CommentSync.Pushes(later[..i], known, number, true) == (calls, None)
    {
      assert later[..i + 1][..i] == later[..i];
      var c := later[i];
      if !c.owned {
        continue;
      }
      match c.id {
        case Some(id) =>
          if id in consensusIds {
            var consensusBody := CommentSync.KnownBody(known, id);
            if c.body != consensusBody {
              calls := calls + [CommentSync.UpdateComment(id, c.body)];
            }
          } else {
            PushesStopped(later, known, number, true, i + 1);
            return calls, Some(id);
          }
        case None =>
          if c.body != [] {
            calls := calls + [CommentSync.CreateComment(number, c.body)];
          }
      }
    }
    assert later[..|later|] == later;
    stop := None;
  }

  /**
   * `sync_local_issue_to_github`: the client calls in order, and whether
   * the state changed, or the comment id that is not in the consensus.
   */
  method SyncLocalIssueToGithub(number: nat, consensus: OpenIssue.Issue, local: OpenIssue.Issue)
    returns (calls: seq<Call>, result: Result<bool, nat>)
    ensures CommentSync.Outcome(calls, result) == SyncSpec(number, consensus, local)
  {
    calls := [];
    var stateChanged := false;
    // Step 0: open or closed
    var currentClosed := IssueTypes.IsClosed(local.meta.closeState);
    var consensusClosed := IssueTypes.IsClosed(consensus.meta.closeState);
    if currentClosed != consensusClosed {
      calls := calls + [CommentSync.UpdateIssueState(number, IssueTypes.ToGithubState(local.meta.closeState))];
      stateChanged := true;
    }
    // Step 1: the body
    var issueBody := OpenIssue.Body(local);
    if issueBody != OpenIssue.Body(consensus) {
      calls := calls + [CommentSync.UpdateIssueBody(number, issueBody)];
    }
    assert calls == CommentSync.HeadCalls(number, local, consensusClosed, OpenIssue.Body(consensus));
    // Step 2: the comments after the body
    var later := OpenIssue.Later(local);
    var consensusLater := OpenIssue.Later(consensus);
    var known := ConsensusKnown(consensusLater);
    var targetIds := CollectIds(later);
    var consensusIds := CollectIds(consensusLater);
    var deletes := DeleteRemoved(consensusLater, targetIds);
    calls := calls + deletes;
    var pushed, stop := PushComments(later, known, consensusIds, number);
    calls := calls + pushed;
    assert SyncSpec(number, consensus, local).calls == calls;
    if stop.Some? {
      result := Err(stop.value);
      return;
    }
    result := Ok(stateChanged);
  }

  /**
   * A consensus comment that the file still holds, with the same text
   * wherever its id appears, is neither deleted nor updated.
   */
  lemma KeptCommentUntouched(number: nat, consensus: OpenIssue.Issue, local: OpenIssue.Issue, i: nat)
    requires var cl := OpenIssue.Later(consensus);
      i < |cl| && cl[i].id.Some? && cl[i].id.value in CommentSync.TargetIds(OpenIssue.Later(local))
      && (forall k :: 0 <= k < i ==> cl[k].id != cl[i].id)
      && forall c :: c in OpenIssue.Later(local) && c.id == cl[i].id ==> c.body == cl[i].body
    ensures var o := SyncSpec(number, consensus, local); var id := OpenIssue.Later(consensus)[i].id.value;
      CommentSync.DeleteComment(id) !in o.calls
      && forall b :: CommentSync.UpdateComment(id, b) !in o.calls
  {
    var cl := OpenIssue.Later(consensus);
    ConsensusBody(cl, i);
    CommentSync.UnchangedNotTouched(number, local, IssueTypes.IsClosed(consensus.meta.closeState), OpenIssue.Body(consensus),
      ConsensusKnown(cl), true, cl[i].id.value);
  }

  // ---------------------------------------------------------------------
  // execute_issue_actions

  /** What `create_issue` answers: the new issue's number and its id. */
  datatype Created = Created(number: nat, id: nat)

  /**
   * The state threaded through the actions: the tree, the calls made, the
   * count of executed actions, the number of a created root issue and how
   * many issues were created (the index of the next answer).
   */
  datatype Exec = Exec(issue: OpenIssue.Issue, calls: seq<Call>, executed: nat, createdRoot: Option<nat>, creates: nat)

  /** `get_child_mut(path)` followed by setting its URL; a path that leads nowhere changes nothing. */
  function SetUrlAt(issue: OpenIssue.Issue, path: seq<nat>, url: string): OpenIssue.Issue {
    match OpenIssue.ChildAt(issue, path)
      case None => issue
      case Some(child) => OpenIssue.ReplaceAt(issue, path, child.(meta := child.meta.(url := Some(url))))
  }

  /** One action, with `answers(k)` the reply to the k-th `create_issue`. */
  function ExecStep(s: Exec, a: Github.IssueAction, owner: string, repo: string, answers: nat -> Created): Exec {
    match a
      case CreateIssue(path, title, body, closed, parent) =>
        var created := answers(s.creates);
        var calls := s.calls + [CommentSync.CreateIssue(title, body)]
          + (if parent.Some? then [CommentSync.AddSubIssue(parent.value, created.id)] else [])
          + (if closed then [CommentSync.UpdateIssueState(created.number, IssueTypes.CLOSED_STATE)] else []);
        var url := Github.IssueUrl(owner, repo, created.number);
        if path == [] then
          Exec(s.issue.(meta := s.issue.meta.(url := Some(url))), calls, s.executed + 1, Some(created.number), s.creates + 1)
        else
          Exec(SetUrlAt(s.issue, path, url), calls, s.executed + 1, s.createdRoot, s.creates + 1)
      case UpdateIssueState(n, closed) =>
        var state := if closed then IssueTypes.CLOSED_STATE else IssueTypes.OPEN_STATE;
        s.(calls := s.calls + [CommentSync.UpdateIssueState(n, state)], executed := s.executed + 1)
  }

  /** The actions in the order the levels and their members are executed. */
  function Flatten(levels: seq<seq<Github.IssueAction>>): seq<Github.IssueAction> {
    if levels == [] then [] else Flatten(levels[..|levels| - 1]) + levels[|levels| - 1]
  }

  function ExecAll(s: Exec, acts: seq<Github.IssueAction>, owner: string, repo: string, answers: nat -> Created): Exec {
    if acts == [] then s
    else ExecStep(ExecAll(s, acts[..|acts| - 1], owner, repo, answers), acts[|acts| - 1], owner, repo, answers)
  }

  function ExecuteSpec(issue: OpenIssue.Issue, levels: seq<seq<Github.IssueAction>>, owner: string, repo: string,
                       answers: nat -> Created): Exec {
    ExecAll(Exec(issue, [], 0, None, 0), Flatten(levels), owner, repo, answers)
  }

  lemma ExecAllSnoc(s: Exec, acts: seq<Github.IssueAction>, a: Github.IssueAction, owner: string, repo: string, answers: nat -> Created)
    ensures ExecAll(s, acts + [a], owner, repo, answers) == ExecStep(ExecAll(s, acts, owner, repo, answers), a, owner, repo, answers)
  {
    Strings.FrontOfSnoc(acts, a);
  }

  /** The calls one `create_issue` action makes: create, link to the parent, close. */
  method CreateCalls(calls: seq<Call>, title: string, body: string, closed: bool, parent: Option<nat>, created: Created)
    returns (calls': seq<Call>)
    ensures calls' == calls + [CommentSync.CreateIssue(title, body)]
      + (if parent.Some? then [CommentSync.AddSubIssue(parent.value, created.id)] else [])
      + (if closed then [CommentSync.UpdateIssueState(created.number, IssueTypes.CLOSED_STATE)] else [])
  {
    calls' := calls + [CommentSync.CreateIssue(title, body)];
    if parent.Some? {
      calls' := calls' + [CommentSync.AddSubIssue(parent.value, created.id)];
    }
    if closed {
      calls' := calls' + [CommentSync.UpdateIssueState(created.number, IssueTypes.CLOSED_STATE)];
    }
  }

  /** `get_child_mut(path)` and setting the URL of what it finds. */
  method SetCreatedUrl(issue: OpenIssue.Issue, path: seq<nat>, url: string) returns (issue': OpenIssue.Issue)
    ensures issue' == SetUrlAt(issue, path, url)
  {
    issue' := issue;
    var child := OpenIssue.GetChildMut(issue, path);
    if child.Some? {
      issue' := OpenIssue.ReplaceAt(issue, path, child.value.(meta := child.value.meta.(url := Some(url))));
    }
  }

  /** One turn of the inner loop of `execute_issue_actions`. */
  method RunAction(issue: OpenIssue.Issue, calls: seq<Call>, executed: nat, createdRoot: Option<nat>, creates: nat,
                   a: Github.IssueAction, owner: string, repo: string, answers: nat -> Created)
    returns (issue': OpenIssue.Issue, calls': seq<Call>, executed': nat, createdRoot': Option<nat>, creates': nat)
    ensures Exec(issue', calls', executed', createdRoot', creates') ==
      ExecStep(Exec(issue, calls, executed, createdRoot, creates), a, owner, repo, answers)
  {
    issue', calls', executed', createdRoot', creates' := issue, calls, executed, createdRoot, creates;
    match a {
      case CreateIssue(path, title, body, closed, parent) =>
        var created := answers(creates);
        calls' := CreateCalls(calls, title, body, closed, parent, created);
        var url := Github.IssueUrl(owner, repo, created.number);
        if path == [] {
          issue' := issue'.(meta := issue'.meta.(url := Some(url)));
          createdRoot' := Some(created.number);
        } else {
          issue' := SetCreatedUrl(issue, path, url);
        }
        executed' := executed' + 1;
        creates' := creates' + 1;
      case UpdateIssueState(n, closed) =>
        var state := if closed then IssueTypes.CLOSED_STATE else IssueTypes.OPEN_STATE;
        calls' := calls' + [CommentSync.UpdateIssueState(n, state)];
        executed' := executed' + 1;
    }
  }

  /** `execute_issue_actions`: every action of every level in order; the tree gets the new URLs. */
  method ExecuteIssueActions(issue: OpenIssue.Issue, levels: seq<seq<Github.IssueAction>>, owner: string, repo: string,
                             answers: nat -> Created)
    returns (updated: OpenIssue.Issue, calls: seq<Call>, executed: nat, createdRoot: Option<nat>)
    ensures var e := ExecuteSpec(issue, levels, owner, repo, answers);
      updated == e.issue && calls == e.calls && executed == e.executed && createdRoot == e.createdRoot
    ensures executed == |Flatten(levels)|
  {
    updated, calls, executed, createdRoot := issue, [], 0, None;
    var creates := 0;
    ghost var s0 := Exec(issue, [], 0, None, 0);
    for i := 0 to |levels|
      invariant Exec(updated, calls, executed, createdRoot, creates) == ExecAll(s0, Flatten(levels[..i]), owner, repo, answers)
    {
      assert levels[..i + 1][..i] == levels[..i];
      var level := levels[i];
      ghost var done := Flatten(levels[..i]);
      assert done + level[..0] == done;
      for j := 0 to |level|
        invariant Exec(updated, calls, executed, createdRoot, creates) == ExecAll(s0, done + level[..j], owner, repo, answers)
      {
        ExecAllSnoc(s0, done + level[..j], level[j], owner, repo, answers);
        assert done + level[..j + 1] == (done + level[..j]) + [level[j]] by {
          Strings.TakeSnoc(level, j);
        }
        updated, calls, executed, createdRoot, creates :=
          RunAction(updated, calls, executed, createdRoot, creates, level[j], owner, repo, answers);
      }
      assert level[..|level|] == level;
    }
    assert levels[..|levels|] == levels;
    ExecCounts(s0, Flatten(levels), owner, repo, answers);
  }

  /** Every action counts once as executed, and every creation takes one answer. */
  lemma {:induction false} ExecCounts(s: Exec, acts: seq<Github.IssueAction>, owner: string, repo: string, answers: nat -> Created)
    ensures ExecAll(s, acts, owner, repo, answers).executed == s.executed + |acts|
    ensures ExecAll(s, acts, owner, repo, answers).creates == s.creates + |CreatesIn(acts)|
  {
    if acts != [] {
      ExecCounts(s, acts[..|acts| - 1], owner, repo, answers);
    }
  }

  /** The creations among the actions, in order. */
  function CreatesIn(acts: seq<Github.IssueAction>): (r: seq<Github.IssueAction>)
    ensures forall a :: a in r ==> a in acts && a.CreateIssue?
  {
    if acts == [] then []
    else
      var prev := CreatesIn(acts[..|acts| - 1]);
      if acts[|acts| - 1].CreateIssue? then prev + [acts[|acts| - 1]] else prev
  }

  /** Creating a sub-issue at a path that exists gives that node the new issue's URL. */
  lemma ChildUrlSet(s: Exec, a: Github.IssueAction, owner: string, repo: string, answers: nat -> Created)
    requires a.CreateIssue? && a.path != [] && OpenIssue.ChildAt(s.issue, a.path).Some?
    ensures var r := ExecStep(s, a, owner, repo, answers);
      && OpenIssue.ChildAt(r.issue, a.path).Some?
      && OpenIssue.ChildAt(r.issue, a.path).value.meta.url == Some(Github.IssueUrl(owner, repo, answers(s.creates).number))
      && r.issue.meta == s.issue.meta && r.createdRoot == s.createdRoot
  {
    var child := OpenIssue.ChildAt(s.issue, a.path).value;
    var url := Github.IssueUrl(owner, repo, answers(s.creates).number);
    OpenIssue.ReplaceAtFound(s.issue, a.path, child.(meta := child.meta.(url := Some(url))));
    OpenIssue.ReplaceAtKeepsRoot(s.issue, a.path, child.(meta := child.meta.(url := Some(url))));
  }

  /**
   * Pushing a new issue: the actions for a tree without a URL create the
   * root alone, report its number and write its URL into the tree.
   */
  lemma NewRootPublished(issue: OpenIssue.Issue, orig: seq<Github.OriginalSubIssue>, numberOf: OpenIssueActions.NumberOf,
                         owner: string, repo: string, answers: nat -> Created)
    requires issue.meta.url.None?
    ensures var e := ExecuteSpec(issue, OpenIssueActions.CollectActionsSpec(issue, orig, numberOf), owner, repo, answers);
      && e.createdRoot == Some(answers(0).number)
      && e.issue.meta.url == Some(Github.IssueUrl(owner, repo, answers(0).number))
      && e.executed == 1
      && e.calls == [CommentSync.CreateIssue(issue.meta.title, OpenIssue.Body(issue))]
         + (if IssueTypes.IsClosed(issue.meta.closeState) then [CommentSync.UpdateIssueState(answers(0).number, IssueTypes.CLOSED_STATE)] else [])
  {
    var levels := OpenIssueActions.CollectActionsSpec(issue, orig, numberOf);
    OpenIssueActions.NewRootAlone(issue, orig, numberOf);
    var a := levels[0][0];
    assert levels[..0] == [];
    assert levels[0] == [a];
    assert Flatten(levels) == [a];
    assert [a][..0] == [];
    var s0 := Exec(issue, [], 0, None, 0);
    assert ExecAll(s0, [a], owner, repo, answers) == ExecStep(s0, a, owner, repo, answers);
  }
}
