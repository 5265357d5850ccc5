/**
 * src/open/sync.rs: the earlier generation of pushing a local issue file to
 * GitHub. The last fetched state comes from the stored metadata entry
 * (original state, body and comments) instead of a consensus issue, and a
 * comment id the entry does not know is only warned about. Its actions are
 * `CreateSubIssue` and `UpdateSubIssueState`.
 */
module OpenSync {
  import opened Wrappers
  import Strings
  import OpenIssue
  import IssueTypes
  import Github
  import CommentSync
  import OiSync

  type Call = CommentSync.Call

  /** The stored original comments as known comments; an absent text reads as empty. */
  function OriginalKnown(origs: seq<Github.OriginalComment>): (r: seq<CommentSync.Known>)
    ensures |r| == |origs|
    ensures forall i :: 0 <= i < |origs| ==>
      r[i].id == origs[i].id && r[i].body == OpenIssue.Text(origs[i].body)
  {
    if origs == [] then []
    else OriginalKnown(origs[..|origs| - 1]) + [CommentSync.Known(origs[|origs| - 1].id, OpenIssue.Text(origs[|origs| - 1].body))]
  }

  /** What the file pushes against the metadata entry: lenient about unknown comment ids. */
  function SyncSpec(meta: OpenIssue.MetaEntry, issue: OpenIssue.Issue): CommentSync.Outcome {
    CommentSync.Plan(meta.issueNumber, issue, IssueTypes.IsClosed(meta.originalCloseState),
      OpenIssue.Text(meta.originalIssueBody), OriginalKnown(meta.originalComments), false)
  }

  /** The ids of the original comments. */
  method OriginalIds(origs: seq<Github.OriginalComment>) returns (ids: set<nat>)
    ensures ids == CommentSync.KnownIds(OriginalKnown(origs))
  {
    ids := {};
    for i := 0 to |origs|
      invariant ids == CommentSync.KnownIds(OriginalKnown(origs[..i]))
    {
      var k := OriginalKnown(origs[..i + 1]);
      assert k == OriginalKnown(origs[..i]) + [k[i]] by {
        assert origs[..i + 1][..i] == origs[..i];
      }
      ids := ids + {origs[i].id};
    }
    assert origs[..|origs|] == origs;
  }

  /** The deletion loop over the original comments. */
  method DeleteRemoved(origs: seq<Github.OriginalComment>, targetIds: set<nat>) returns (calls: seq<Call>)
    ensures calls == CommentSync.Deletes(OriginalKnown(origs), targetIds)
  {
    calls := [];
    for i := 0 to |origs|
      invariant calls == CommentSync.Deletes(OriginalKnown(origs[..i]), targetIds)
    {
      assert origs[..i + 1][..i] == origs[..i];
      if origs[i].id !in targetIds {
        calls := calls + [CommentSync.DeleteComment(origs[i].id)];
      }
    }
    assert origs[..|origs|] == origs;
  }

  /** The update-and-create loop; an unknown id is skipped with a warning. */
  method PushComments(later: seq<OpenIssue.Comment>, known: seq<CommentSync.Known>, originalIds: set<nat>, number: nat)
    returns (calls: seq<Call>)
    requires originalIds == CommentSync.KnownIds(known)
    ensures (calls, None) == CommentSync.Pushes(later, known, number, false)
  {
    calls := [];
    for i := 0 to |later|
      invariant CommentSync.Pushes(later[..i], known, number, false) == (calls, None)
    {
      assert later[..i + 1][..i] == later[..i];
      var c := later[i];
      if !c.owned {
        continue;
      }
      match c.id {
        case Some(id) =>
          if id in originalIds {
            var original := CommentSync.KnownBody(known, id);
            if c.body != original {
              calls := calls + [CommentSync.UpdateComment(id, c.body)];
            }
          }
        case None =>
          if c.body != [] {
            calls := calls + [CommentSync.CreateComment(number, c.body)];
          }
      }
    }
    assert later[..|later|] == later;
  }

  /** `sync_local_issue_to_github`: the client calls in order, and whether the state changed. */
  method SyncLocalIssueToGithub(meta: OpenIssue.MetaEntry, issue: OpenIssue.Issue) returns (calls: seq<Call>, stateChanged: bool)
    ensures CommentSync.Outcome(calls, Ok(stateChanged)) == SyncSpec(meta, issue)
  {
    calls := [];
    stateChanged := false;
    var number := meta.issueNumber;
    // Step 0: open or closed
    var currentClosed := IssueTypes.IsClosed(issue.meta.closeState);
    var originalClosed := IssueTypes.IsClosed(meta.originalCloseState);
    if currentClosed != originalClosed {
      calls := calls + [CommentSync.UpdateIssueState(number, IssueTypes.ToGithubState(issue.meta.closeState))];
      stateChanged := true;
    }
    // Step 1: the body
    var issueBody := OpenIssue.Body(issue);
    var originalBody := OpenIssue.Text(meta.originalIssueBody);
    if issueBody != originalBody {
      calls := calls + [CommentSync.UpdateIssueBody(number, issueBody)];
    }
    assert calls == CommentSync.HeadCalls(number, issue, originalClosed, originalBody);
    // Step 2: the comments after the body
    var later := OpenIssue.Later(issue);
    var known := OriginalKnown(meta.originalComments);
    var targetIds := OiSync.CollectIds(later);
    var originalIds := OriginalIds(meta.originalComments);
    var deletes := DeleteRemoved(meta.originalComments, targetIds);
    calls := calls + deletes;
    var pushed := PushComments(later, known, originalIds, number);
    calls := calls + pushed;
    assert SyncSpec(meta, issue).calls == calls;
  }

  /** The returned flag is whether closed-ness changed, and exactly then one state update is sent. */
  lemma StateChangedIff(meta: OpenIssue.MetaEntry, issue: OpenIssue.Issue)
    ensures var o := SyncSpec(meta, issue);
      var changed := IssueTypes.IsClosed(issue.meta.closeState) != IssueTypes.IsClosed(meta.originalCloseState);
      && o.result == Ok(changed)
      && ((exists c :: c in o.calls && c.UpdateIssueState?) <==> changed)
  {
    CommentSync.StateUpdateIff(meta.issueNumber, issue, IssueTypes.IsClosed(meta.originalCloseState),
      OpenIssue.Text(meta.originalIssueBody), OriginalKnown(meta.originalComments), false);
  }

  /** The body is sent exactly when it differs from the stored one, an absent one reading as empty. */
  lemma BodyUpdatedIff(meta: OpenIssue.MetaEntry, issue: OpenIssue.Issue)
    ensures ((exists c :: c in SyncSpec(meta, issue).calls && c.UpdateIssueBody?) <==>
             OpenIssue.Body(issue) != OpenIssue.Text(meta.originalIssueBody))
  {
    CommentSync.BodyUpdateIff(meta.issueNumber, issue, IssueTypes.IsClosed(meta.originalCloseState),
      OpenIssue.Text(meta.originalIssueBody), OriginalKnown(meta.originalComments), false);
  }

  /** Every original comment whose id the file no longer holds is deleted, and nothing else is. */
  lemma DeletedIff(meta: OpenIssue.MetaEntry, issue: OpenIssue.Issue, id: nat)
    ensures CommentSync.DeleteComment(id) in SyncSpec(meta, issue).calls <==>
      (exists o :: o in meta.originalComments && o.id == id) && id !in CommentSync.TargetIds(OpenIssue.Later(issue))
  {
    CommentSync.DeletedIff(meta.issueNumber, issue, IssueTypes.IsClosed(meta.originalCloseState),
      OpenIssue.Text(meta.originalIssueBody), OriginalKnown(meta.originalComments), false, id);
    OriginalIdsIff(meta.originalComments, id);
  }

  lemma OriginalIdsIff(origs: seq<Github.OriginalComment>, id: nat)
    ensures id in CommentSync.KnownIds(OriginalKnown(origs)) <==> exists o :: o in origs && o.id == id
  {
    var known := OriginalKnown(origs);
    if id in CommentSync.KnownIds(known) {
      var k :| k in known && k.id == id;
      var i :| 0 <= i < |known| && known[i] == k;
      assert origs[i] in origs;
    }
    if exists o :: o in origs && o.id == id {
      var o :| o in origs && o.id == id;
      var i :| 0 <= i < |origs| && origs[i] == o;
      assert known[i] in known;
    }
  }

  /** An unknown comment id never stops this generation, and non-owned comments never produce a call. */
  lemma LenientAndOwnedOnly(meta: OpenIssue.MetaEntry, issue: OpenIssue.Issue)
    ensures SyncSpec(meta, issue).result.Ok?
    ensures var later := OpenIssue.Later(issue); var known := OriginalKnown(meta.originalComments);
      CommentSync.Pushes(later, known, meta.issueNumber, false) ==
      CommentSync.Pushes(CommentSync.Owned(later), known, meta.issueNumber, false)
  {
    CommentSync.NotOwnedSilent(OpenIssue.Later(issue), OriginalKnown(meta.originalComments), meta.issueNumber, false);
  }

  // ---------------------------------------------------------------------
  // execute_issue_actions

  /** The actions of this generation. */
  datatype SubIssueAction =
    | CreateSubIssue(childPath: seq<nat>, title: string, closed: bool, parentIssueNumber: nat)
    | UpdateSubIssueState(issueNumber: nat, closed: bool)

  /** The tree, the calls made, the count of executed actions and the number of issues created. */
  datatype Exec = Exec(issue: OpenIssue.Issue, calls: seq<Call>, executed: nat, creates: nat)

  /** One action, with `answers(k)` the reply to the k-th `create_issue`. */
  function ExecStep(s: Exec, a: SubIssueAction, owner: string, repo: string, answers: nat -> OiSync.Created): Exec {
    match a
      case CreateSubIssue(path, title, closed, parent) =>
        var created := answers(s.creates);
        var calls := s.calls + [CommentSync.CreateIssue(title, ""), CommentSync.AddSubIssue(parent, created.id)]
          + (if closed then [CommentSync.UpdateIssueState(created.number, IssueTypes.CLOSED_STATE)] else []);
        Exec(OiSync.SetUrlAt(s.issue, path, Github.IssueUrl(owner, repo, created.number)), calls, s.executed + 1, s.creates + 1)
      case UpdateSubIssueState(n, closed) =>
        var state := if closed then IssueTypes.CLOSED_STATE else IssueTypes.OPEN_STATE;
        s.(calls := s.calls + [CommentSync.UpdateIssueState(n, state)], executed := s.executed + 1)
  }

  function Flatten(levels: seq<seq<SubIssueAction>>): seq<SubIssueAction> {
    if levels == [] then [] else Flatten(levels[..|levels| - 1]) + levels[|levels| - 1]
  }

  function ExecAll(s: Exec, acts: seq<SubIssueAction>, owner: string, repo: string, answers: nat -> OiSync.Created): Exec {
    if acts == [] then s
    else ExecStep(ExecAll(s, acts[..|acts| - 1], owner, repo, answers), acts[|acts| - 1], owner, repo, answers)
  }

  function ExecuteSpec(issue: OpenIssue.Issue, levels: seq<seq<SubIssueAction>>, owner: string, repo: string,
                       answers: nat -> OiSync.Created): Exec {
    ExecAll(Exec(issue, [], 0, 0), Flatten(levels), owner, repo, answers)
  }

  lemma ExecAllSnoc(s: Exec, acts: seq<SubIssueAction>, a: SubIssueAction, owner: string, repo: string, answers: nat -> OiSync.Created)
    ensures ExecAll(s, acts + [a], owner, repo, answers) == ExecStep(ExecAll(s, acts, owner, repo, answers), a, owner, repo, answers)
  {
    Strings.FrontOfSnoc(acts, a);
  }

  /** One turn of the inner loop of `execute_issue_actions`. */
  method RunAction(issue: OpenIssue.Issue, calls: seq<Call>, executed: nat, creates: nat,
                   a: SubIssueAction, owner: string, repo: string, answers: nat -> OiSync.Created)
    returns (issue': OpenIssue.Issue, calls': seq<Call>, executed': nat, creates': nat)
    ensures Exec(issue', calls', executed', creates') == ExecStep(Exec(issue, calls, executed, creates), a, owner, repo, answers)
  {
    issue', calls', executed', creates' := issue, calls, executed, creates;
    match a {
      case CreateSubIssue(path, title, closed, parent) =>
        var created := answers(creates);
        calls' := calls' + [CommentSync.CreateIssue(title, "")];
        calls' := calls' + [CommentSync.AddSubIssue(parent, created.id)];
        if closed {
          calls' := calls' + [CommentSync.UpdateIssueState(created.number, IssueTypes.CLOSED_STATE)];
        }
        var child := OpenIssue.GetChildMut(issue', path);
        if child.Some? {
          var url := Github.IssueUrl(owner, repo, created.number);
          issue' := OpenIssue.ReplaceAt(issue', path, child.value.(meta := child.value.meta.(url := Some(url))));
        }
        executed' := executed' + 1;
        creates' := creates' + 1;
      case UpdateSubIssueState(n, closed) =>
        var state := if closed then IssueTypes.CLOSED_STATE else IssueTypes.OPEN_STATE;
        calls' := calls' + [CommentSync.UpdateIssueState(n, state)];
        executed' := executed' + 1;
    }
  }

  /** The inner loop of `execute_issue_actions`: one level's actions in order. */
  method RunLevel(issue: OpenIssue.Issue, calls: seq<Call>, executed: nat, creates: nat, level: seq<SubIssueAction>,
                  ghost s0: Exec, ghost done: seq<SubIssueAction>, owner: string, repo: string, answers: nat -> OiSync.Created)
    returns (issue': OpenIssue.Issue, calls': seq<Call>, executed': nat, creates': nat)
    requires Exec(issue, calls, executed, creates) == ExecAll(s0, done, owner, repo, answers)
    ensures Exec(issue', calls', executed', creates') == ExecAll(s0, done + level, owner, repo, answers)
  {
    issue', calls', executed', creates' := issue, calls, executed, creates;
    assert done + level[..0] == done;
    for j := 0 to |level|
      invariant Exec(issue', calls', executed', creates') == ExecAll(s0, done + level[..j], owner, repo, answers)
    {
      ExecAllSnoc(s0, done + level[..j], level[j], owner, repo, answers);
      assert done + level[..j + 1] == (done + level[..j]) + [level[j]] by {
        Strings.TakeSnoc(level, j);
      }
      issue', calls', executed', creates' := RunAction(issue', calls', executed', creates', level[j], owner, repo, answers);
    }
    assert level[..|level|] == level;
  }

  /** `execute_issue_actions`: every action of every level in order; new sub-issues get their URLs. */
  method ExecuteIssueActions(issue: OpenIssue.Issue, levels: seq<seq<SubIssueAction>>, owner: string, repo: string,
                             answers: nat -> OiSync.Created)
    returns (updated: OpenIssue.Issue, calls: seq<Call>, executed: nat)
    ensures var e := ExecuteSpec(issue, levels, owner, repo, answers);
      updated == e.issue && calls == e.calls && executed == e.executed
    ensures executed == |Flatten(levels)|
  {
    updated, calls, executed := issue, [], 0;
    var creates := 0;
    ghost var s0 := Exec(issue, [], 0, 0);
    for i := 0 to |levels|
      invariant Exec(updated, calls, executed, creates) == ExecAll(s0, Flatten(levels[..i]), owner, repo, answers)
    {
      assert levels[..i + 1][..i] == levels[..i];
      var level := levels[i];
      updated, calls, executed, creates :=
        RunLevel(updated, calls, executed, creates, level, s0, Flatten(levels[..i]), owner, repo, answers);
    }
    assert levels[..|levels|] == levels;
    ExecCounts(s0, Flatten(levels), owner, repo, answers);
  }

  /** Every action counts once as executed. */
  lemma {:induction false} ExecCounts(s: Exec, acts: seq<SubIssueAction>, owner: string, repo: string, answers: nat -> OiSync.Created)
    ensures ExecAll(s, acts, owner, repo, answers).executed == s.executed + |acts|
  {
    if acts != [] {
      ExecCounts(s, acts[..|acts| - 1], owner, repo, answers);
    }
  }

  /**
   * Creating a sub-issue at a path that exists writes the new issue's URL
   * into that node, links it to its parent and leaves the root alone.
   */
  lemma CreatedUrlWritten(s: Exec, a: SubIssueAction, owner: string, repo: string, answers: nat -> OiSync.Created)
    requires a.CreateSubIssue? && a.childPath != [] && OpenIssue.ChildAt(s.issue, a.childPath).Some?
    ensures var r := ExecStep(s, a, owner, repo, answers); var created := answers(s.creates);
      && OpenIssue.ChildAt(r.issue, a.childPath).Some?
      && OpenIssue.ChildAt(r.issue, a.childPath).value.meta.url == Some(Github.IssueUrl(owner, repo, created.number))
      && r.issue.meta == s.issue.meta
      && CommentSync.AddSubIssue(a.parentIssueNumber, created.id) in r.calls
  {
    var child := OpenIssue.ChildAt(s.issue, a.childPath).value;
    var url := Github.IssueUrl(owner, repo, answers(s.creates).number);
    OpenIssue.ReplaceAtFound(s.issue, a.childPath, child.(meta := child.meta.(url := Some(url))));
    OpenIssue.ReplaceAtKeepsRoot(s.issue, a.childPath, child.(meta := child.meta.(url := Some(url))));
    var r := ExecStep(s, a, owner, repo, answers);
    assert r.calls[|s.calls| + 1] == CommentSync.AddSubIssue(a.parentIssueNumber, answers(s.creates).id);
  }
}
