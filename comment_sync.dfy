/**
 * What `sync_local_issue_to_github` sends to GitHub, in both generations
 * (src/open_interactions/sync.rs and src/open/sync.rs): a state update when
 * closed-ness changed, a body update when the body changed, a deletion for
 * every known comment the file no longer holds, then for each owned later
 * comment an update when its text changed or a creation when it is new.
 * GitHub calls are an appended log of `Call`s. The two generations differ
 * only in where the known comments come from and in what an unknown
 * comment id does (`strict`: an error that stops the loop; otherwise the
 * comment is skipped).
 */
module CommentSync {
  import opened Wrappers
  import OpenIssue
  import IssueTypes

  type Comment = OpenIssue.Comment

  /** A GitHub client call, in the order the source issues them. */
  datatype Call =
    | UpdateIssueState(number: nat, state: string)
    | UpdateIssueBody(number: nat, body: string)
    | DeleteComment(id: nat)
    | UpdateComment(id: nat, body: string)
    | CreateComment(number: nat, body: string)
    | CreateIssue(title: string, body: string)
    | AddSubIssue(parent: nat, childId: nat)

  /** A comment the remote side is known to hold. */
  datatype Known = Known(id: nat, body: string)

  function KnownIds(known: seq<Known>): set<nat> {
    set k | k in known :: k.id
  }

  /** `target_ids`: the ids among the file's later comments. */
  function TargetIds(cs: seq<Comment>): set<nat> {
    set c | c in cs && c.id.Some? :: c.id.value
  }

  /** `find(|c| c.id == id).map(body).unwrap_or("")`: the first known text under an id. */
  function KnownBody(known: seq<Known>, id: nat): (r: string)
    ensures id !in KnownIds(known) ==> r == ""
  {
    if known == [] then ""
    else if known[0].id == id then known[0].body
    else KnownBody(known[1..], id)
  }

  /** With distinct ids, the text found under an id is that comment's. */
  lemma {:induction false} KnownBodyOf(known: seq<Known>, i: nat)
    requires i < |known|
    requires forall a, b :: 0 <= a < b < |known| ==> known[a].id != known[b].id
    ensures KnownBody(known, known[i].id) == known[i].body
  {
    if i > 0 {
      KnownBodyOf(known[1..], i - 1);
    }
  }

  // ---------------------------------------------------------------------
  // The steps

  /** Steps 0 and 1: the state and the body. */
  function HeadCalls(number: nat, local: OpenIssue.Issue, originalClosed: bool, originalBody: string): (r: seq<Call>)
    ensures forall c :: c in r ==> c.UpdateIssueState? || c.UpdateIssueBody?
  {
    var closed := IssueTypes.IsClosed(local.meta.closeState);
    (if closed != originalClosed then [UpdateIssueState(number, IssueTypes.ToGithubState(local.meta.closeState))] else [])
    + (if OpenIssue.Body(local) != originalBody then [UpdateIssueBody(number, OpenIssue.Body(local))] else [])
  }

  /** The deletion loop: every known comment whose id the file no longer holds, in order. */
  function Deletes(known: seq<Known>, target: set<nat>): (r: seq<Call>)
    ensures forall c :: c in r ==> c.DeleteComment? && c.id in KnownIds(known) && c.id !in target
  {
    if known == [] then []
    else
      var prev := Deletes(known[..|known| - 1], target);
      assert KnownIds(known[..|known| - 1]) <= KnownIds(known) by {
        forall k | k in known[..|known| - 1] ensures k in known { }
      }
      var k := known[|known| - 1];
      if k.id !in target then prev + [DeleteComment(k.id)] else prev
  }

  /** What one later comment of the file asks for. */
  datatype Push = Skip | Send(call: Call) | Mismatch(id: nat)

  function PushOf(c: Comment, known: seq<Known>, number: nat, strict: bool): Push {
    if !c.owned then Skip
    else
      match c.id
        case Some(id) =>
          if id in KnownIds(known) then
            if c.body != KnownBody(known, id) then Send(UpdateComment(id, c.body)) else Skip
          else if strict then Mismatch(id)
          else Skip
        case None => if c.body != "" then Send(CreateComment(number, c.body)) else Skip
  }

  /** The update-and-create loop: the calls issued, and the id that stopped it with `IdMismatch`. */
  function Pushes(cs: seq<Comment>, known: seq<Known>, number: nat, strict: bool): (r: (seq<Call>, Option<nat>))
    ensures forall c :: c in r.0 ==> c.UpdateComment? || c.CreateComment?
    ensures !strict ==> r.1.None?
  {
    if cs == [] then ([], None)
    else
      var prev := Pushes(cs[..|cs| - 1], known, number, strict);
      if prev.1.Some? then prev
      else
        match PushOf(cs[|cs| - 1], known, number, strict)
          case Skip => prev
          case Send(call) => (prev.0 + [call], None)
          case Mismatch(id) => (prev.0, Some(id))
  }

  /** The whole run: the calls made and what the function returns (`Err(id)` is `IdMismatch`). */
  datatype Outcome = Outcome(calls: seq<Call>, result: Result<bool, nat>)

  /**
   * `sync_local_issue_to_github`, as the calls it makes and what it returns:
   * a lenient run never fails, and a run that succeeds reports whether
   * closed-ness changed.
   */
  function Plan(number: nat, local: OpenIssue.Issue, originalClosed: bool, originalBody: string, known: seq<Known>, strict: bool): (r: Outcome)
    ensures !strict ==> r.result.Ok?
    ensures r.result.Ok? ==> r.result.value == (IssueTypes.IsClosed(local.meta.closeState) != originalClosed)
  {
    var later := OpenIssue.Later(local);
    var pushed := Pushes(later, known, number, strict);
    Outcome(
      HeadCalls(number, local, originalClosed, originalBody) + Deletes(known, TargetIds(later)) + pushed.0,
      if pushed.1.Some? then Err(pushed.1.value) else Ok(IssueTypes.IsClosed(local.meta.closeState) != originalClosed))
  }

  // ---------------------------------------------------------------------
  // What the run guarantees

  /**
   * A state update is sent exactly when closed-ness changed, it carries the
   * new GitHub state, and the function reports exactly that change.
   */
  lemma StateUpdateIff(number: nat, local: OpenIssue.Issue, originalClosed: bool, originalBody: string, known: seq<Known>, strict: bool)
    ensures var o := Plan(number, local, originalClosed, originalBody, known, strict);
      var changed := IssueTypes.IsClosed(local.meta.closeState) != originalClosed;
      && ((exists c :: c in o.calls && c.UpdateIssueState?) <==> changed)
      && (changed ==> UpdateIssueState(number, IssueTypes.ToGithubState(local.meta.closeState)) in o.calls)
      && (o.result.Ok? ==> o.result.value == changed)
  {
    var later := OpenIssue.Later(local);
    var o := Plan(number, local, originalClosed, originalBody, known, strict);
    var head := HeadCalls(number, local, originalClosed, originalBody);
    var dels := Deletes(known, TargetIds(later));
    var pushed := Pushes(later, known, number, strict);
    assert o.calls == head + dels + pushed.0;
    if IssueTypes.IsClosed(local.meta.closeState) != originalClosed {
      assert head[0] == UpdateIssueState(number, IssueTypes.ToGithubState(local.meta.closeState));
      assert o.calls[0] == head[0];
    } else {
      forall c | c in o.calls ensures !c.UpdateIssueState? {
        assert c in head || c in dels || c in pushed.0;
      }
    }
  }

  /** A body update is sent exactly when the body differs, with the new body. */
  lemma BodyUpdateIff(number: nat, local: OpenIssue.Issue, originalClosed: bool, originalBody: string, known: seq<Known>, strict: bool)
    ensures var o := Plan(number, local, originalClosed, originalBody, known, strict);
      && ((exists c :: c in o.calls && c.UpdateIssueBody?) <==> OpenIssue.Body(local) != originalBody)
      && (OpenIssue.Body(local) != originalBody ==> UpdateIssueBody(number, OpenIssue.Body(local)) in o.calls)
  {
    var later := OpenIssue.Later(local);
    var o := Plan(number, local, originalClosed, originalBody, known, strict);
    var head := HeadCalls(number, local, originalClosed, originalBody);
    var dels := Deletes(known, TargetIds(later));
    var pushed := Pushes(later, known, number, strict);
    assert o.calls == head + dels + pushed.0;
    if OpenIssue.Body(local) != originalBody {
      assert head[|head| - 1] == UpdateIssueBody(number, OpenIssue.Body(local));
      assert o.calls[|head| - 1] == head[|head| - 1];
    } else {
      forall c | c in o.calls ensures !c.UpdateIssueBody? {
        assert c in head || c in dels || c in pushed.0;
      }
    }
  }

  /** The deletion loop deletes exactly the known ids the file dropped. */
  lemma {:induction false} DeletesExactly(known: seq<Known>, target: set<nat>, id: nat)
    ensures DeleteComment(id) in Deletes(known, target) <==> id in KnownIds(known) && id !in target
  {
    if known != [] {
      var init := known[..|known| - 1];
      DeletesExactly(init, target, id);
      assert known == init + [known[|known| - 1]];
      assert KnownIds(known) == KnownIds(init) + {known[|known| - 1].id};
    }
  }

  /** Every known comment whose id the file no longer holds is deleted, and nothing else is. */
  lemma DeletedIff(number: nat, local: OpenIssue.Issue, originalClosed: bool, originalBody: string, known: seq<Known>, strict: bool, id: nat)
    ensures DeleteComment(id) in Plan(number, local, originalClosed, originalBody, known, strict).calls <==>
      id in KnownIds(known) && id !in TargetIds(OpenIssue.Later(local))
  {
    var later := OpenIssue.Later(local);
    var head := HeadCalls(number, local, originalClosed, originalBody);
    var dels := Deletes(known, TargetIds(later));
    var pushed := Pushes(later, known, number, strict);
    DeletesExactly(known, TargetIds(later), id);
    assert DeleteComment(id) !in head && DeleteComment(id) !in pushed.0;
    assert DeleteComment(id) in head + dels + pushed.0 <==> DeleteComment(id) in dels;
  }

  /**
   * A comment the file still holds, with the known text wherever its id
   * appears, is neither deleted nor updated.
   */
  lemma UnchangedNotTouched(number: nat, local: OpenIssue.Issue, originalClosed: bool, originalBody: string, known: seq<Known>, strict: bool, id: nat)
    requires id in TargetIds(OpenIssue.Later(local))
    requires forall c :: c in OpenIssue.Later(local) && c.id == Some(id) ==> c.body == KnownBody(known, id)
    ensures var o := Plan(number, local, originalClosed, originalBody, known, strict);
      DeleteComment(id) !in o.calls && forall b :: UpdateComment(id, b) !in o.calls
  {
    var later := OpenIssue.Later(local);
    DeletedIff(number, local, originalClosed, originalBody, known, strict, id);
    forall b | UpdateComment(id, b) in Plan(number, local, originalClosed, originalBody, known, strict).calls
      ensures false
    {
      var call := UpdateComment(id, b);
      var head := HeadCalls(number, local, originalClosed, originalBody);
      var dels := Deletes(known, TargetIds(later));
      assert call !in head && call !in dels;
      PushesOnlyChanges(later, known, number, strict, call);
    }
  }

  /** Only the owned comments, in order. */
  function Owned(cs: seq<Comment>): (r: seq<Comment>)
    ensures forall c :: c in r ==> c in cs && c.owned
  {
    if cs == [] then []
    else
      var prev := Owned(cs[..|cs| - 1]);
      if cs[|cs| - 1].owned then prev + [cs[|cs| - 1]] else prev
  }

  /** Comments that are not owned never produce a call or an error. */
  lemma {:induction false} NotOwnedSilent(cs: seq<Comment>, known: seq<Known>, number: nat, strict: bool)
    ensures Pushes(cs, known, number, strict) == Pushes(Owned(cs), known, number, strict)
  {
    if cs != [] {
      var init := cs[..|cs| - 1];
      var c := cs[|cs| - 1];
      NotOwnedSilent(init, known, number, strict);
      if c.owned {
        assert (Owned(init) + [c])[..|Owned(init)|] == Owned(init);
      }
    }
  }

  /** Whether a comment stops a strict run: owned, with an id the remote side does not know. */
  predicate Unknown(c: Comment, known: seq<Known>) {
    c.owned && c.id.Some? && c.id.value !in KnownIds(known)
  }

  /** A strict run stops exactly at the first owned comment with an unknown id, and reports that id. */
  lemma {:induction false} MismatchIff(cs: seq<Comment>, known: seq<Known>, number: nat)
    ensures var r := Pushes(cs, known, number, true);
      && (r.1.Some? <==> exists i :: 0 <= i < |cs| && Unknown(cs[i], known))
      && (r.1.Some? ==> exists i :: 0 <= i < |cs| && Unknown(cs[i], known) && cs[i].id == r.1
                          && forall j :: 0 <= j < i ==> !Unknown(cs[j], known))
  {
    if cs != [] {
      var init := cs[..|cs| - 1];
      MismatchIff(init, known, number);
      var prev := Pushes(init, known, number, true);
      if prev.1.Some? {
        var i :| 0 <= i < |init| && Unknown(init[i], known) && init[i].id == prev.1
          && forall j :: 0 <= j < i ==> !Unknown(init[j], known);
        assert cs[i] == init[i];
        assert forall j :: 0 <= j < i ==> cs[j] == init[j];
      } else {
        assert forall i :: 0 <= i < |init| ==> cs[i] == init[i] && !Unknown(init[i], known);
      }
    }
  }

  /** Every update changes a known text to an owned comment's new one; every creation sends a non-empty new comment. */
  lemma {:induction false} PushesOnlyChanges(cs: seq<Comment>, known: seq<Known>, number: nat, strict: bool, call: Call)
    requires call in Pushes(cs, known, number, strict).0
    ensures call.UpdateComment? ==>
      call.id in KnownIds(known) && call.body != KnownBody(known, call.id)
      && exists c :: c in cs && c.owned && c.id == Some(call.id) && c.body == call.body
    ensures call.CreateComment? ==>
      call.number == number && call.body != ""
      && exists c :: c in cs && c.owned && c.id.None? && c.body == call.body
  {
    var init := cs[..|cs| - 1];
    var prev := Pushes(init, known, number, strict);
    if call in prev.0 {
      PushesOnlyChanges(init, known, number, strict, call);
      assert forall c :: c in init ==> c in cs;
    } else {
      assert cs[|cs| - 1] in cs;
    }
  }

  /** Until a run stops, every owned comment whose text changed is updated and every new one is created. */
  lemma {:induction false} PushesComplete(cs: seq<Comment>, known: seq<Known>, number: nat, strict: bool, i: nat)
    requires i < |cs| && Pushes(cs, known, number, strict).1.None?
    ensures PushOf(cs[i], known, number, strict).Send? ==>
      PushOf(cs[i], known, number, strict).call in Pushes(cs, known, number, strict).0
  {
    var init := cs[..|cs| - 1];
    var prev := Pushes(init, known, number, strict);
    if i < |cs| - 1 {
      PushesComplete(init, known, number, strict, i);
      assert cs[i] == init[i];
    }
  }

  /**
   * A file that matches what was last synced sends nothing: same closed-ness,
   * same body, and later comments that are exactly the known ones (distinct
   * ids, same texts, in order).
   */
  lemma {:induction false} SyncedSendsNothing(number: nat, local: OpenIssue.Issue, originalClosed: bool, originalBody: string, known: seq<Known>, strict: bool)
    requires IssueTypes.IsClosed(local.meta.closeState) == originalClosed && OpenIssue.Body(local) == originalBody
    requires forall a, b :: 0 <= a < b < |known| ==> known[a].id != known[b].id
    requires var later := OpenIssue.Later(local);
      |later| == |known| && forall i :: 0 <= i < |known| ==> later[i].id == Some(known[i].id) && later[i].body == known[i].body
    ensures Plan(number, local, originalClosed, originalBody, known, strict) == Outcome([], Ok(false))
  {
    var later := OpenIssue.Later(local);
    assert TargetIds(later) == KnownIds(known) by {
      forall id | id in KnownIds(known) ensures id in TargetIds(later) {
        var i :| 0 <= i < |known| && known[i].id == id;
        assert later[i] in later;
      }
      forall id | id in TargetIds(later) ensures id in KnownIds(known) {
        var i :| 0 <= i < |later| && later[i].id == Some(id);
        assert known[i] in known;
      }
    }
    NoDeletes(known, TargetIds(later));
    MatchingPushes(later, known, number, strict, |later|);
    assert later[..|later|] == later;
  }

  lemma {:induction false} NoDeletes(known: seq<Known>, target: set<nat>)
    requires KnownIds(known) <= target
    ensures Deletes(known, target) == []
  {
    if known != [] {
      assert KnownIds(known[..|known| - 1]) <= KnownIds(known) by {
        forall k | k in known[..|known| - 1] ensures k in known { }
      }
      NoDeletes(known[..|known| - 1], target);
      assert known[|known| - 1] in known;
    }
  }

  lemma {:induction false} MatchingPushes(later: seq<Comment>, known: seq<Known>, number: nat, strict: bool, k: nat)
    requires k <= |later| == |known|
    requires forall a, b :: 0 <= a < b < |known| ==> known[a].id != known[b].id
    requires forall i :: 0 <= i < |known| ==> later[i].id == Some(known[i].id) && later[i].body == known[i].body
    ensures Pushes(later[..k], known, number, strict) == ([], None)
  {
    if k > 0 {
      assert later[..k][..k - 1] == later[..k - 1];
      MatchingPushes(later, known, number, strict, k - 1);
      KnownBodyOf(known, k - 1);
      assert known[k - 1] in known;
    }
  }
}
