/**
 * The in-memory GitHub of src/mock_github.rs: per-repository tables of
 * issues, comments and sub-issue relations, three counters that hand out
 * issue ids, issue numbers and comment ids, the repositories the user may
 * write to, and a log of the calls made. The tables are pure values here,
 * with the lookups and updates the client makes as functions; the client is
 * a class whose methods reassign its fields.
 */
module MockGithub {
  import opened Wrappers
  import Strings
  import Github

  datatype RepoKey = RepoKey(owner: string, repo: string)

  /** `MockIssueData`. */
  datatype IssueData = IssueData(number: nat, id: nat, title: string, body: string, state: string,
                                 labels: seq<string>, ownerLogin: string)

  /** `MockCommentData`. */
  datatype CommentData = CommentData(id: nat, issueNumber: nat, body: string, ownerLogin: string)

  /** `CreatedIssue`. */
  datatype CreatedIssue = CreatedIssue(id: nat, number: nat, htmlUrl: string)

  /** Why a call failed. */
  datatype MockError =
    | RepoNotFound(owner: string, repo: string)
    | IssueNotFound(number: nat)
    | CommentNotFound(id: nat)
    | ChildNotFound(id: nat)

  /** One entry of the call log; bodies are logged as a placeholder, so they are not kept. */
  datatype Call =
    | FetchAuthenticatedUser
    | FetchIssue(owner: string, repo: string, number: nat)
    | FetchComments(owner: string, repo: string, number: nat)
    | FetchSubIssues(owner: string, repo: string, number: nat)
    | UpdateIssueBody(owner: string, repo: string, number: nat)
    | UpdateIssueState(owner: string, repo: string, number: nat, state: string)
    | UpdateComment(owner: string, repo: string, id: nat)
    | CreateComment(owner: string, repo: string, number: nat)
    | DeleteComment(owner: string, repo: string, id: nat)
    | CheckCollaboratorAccess(owner: string, repo: string)
    | CreateIssue(owner: string, repo: string, title: string)
    | AddSubIssue(owner: string, repo: string, parent: nat, childId: nat)
    | FindIssueByTitle(owner: string, repo: string, title: string)
    | IssueExists(owner: string, repo: string, number: nat)

  type Issues = map<RepoKey, map<nat, IssueData>>
  type Comments = map<RepoKey, map<nat, CommentData>>
  type Relations = map<RepoKey, map<nat, seq<nat>>>

  const OPEN: string := "open"
  const FIRST_ISSUE_ID: nat := 1000
  const FIRST_ISSUE_NUMBER: nat := 1
  const FIRST_COMMENT_ID: nat := 5000

  // ---------------------------------------------------------------------
  // Issues

  /** Every stored issue sits under its own number. */
  predicate WellKeyed(issues: Issues) {
    forall key, n :: key in issues && n in issues[key] ==> issues[key][n].number == n
  }

  /** Every stored issue's id is below the next id to be handed out. */
  predicate IdsBelow(issues: Issues, bound: nat) {
    forall key, n :: key in issues && n in issues[key] ==> issues[key][n].id < bound
  }

  /** The issues of one repository; none when it has no table yet. */
  function RepoIssues(issues: Issues, key: RepoKey): map<nat, IssueData> {
    if key in issues then issues[key] else map[]
  }

  /** `get(&key)` then `get(&number)`: the issue, or which of the two lookups failed. */
  function LookupIssue(issues: Issues, key: RepoKey, n: nat): (r: Result<IssueData, MockError>)
    ensures r.Ok? <==> n in RepoIssues(issues, key)
    ensures r.Ok? ==> r.value == issues[key][n]
    ensures key !in issues ==> r == Err(RepoNotFound(key.owner, key.repo))
  {
    if key !in issues then Err(RepoNotFound(key.owner, key.repo))
    else if n !in issues[key] then Err(IssueNotFound(n))
    else Ok(issues[key][n])
  }

  /**
   * `entry(key).or_default().insert(number, issue)`: the issue is stored
   * under its number, the repository's other issues and every other
   * repository are kept, and issues stay under their own numbers.
   */
  function InsertIssue(issues: Issues, key: RepoKey, d: IssueData): (r: Issues)
    ensures d.number in RepoIssues(r, key) && r[key][d.number] == d
    ensures forall m :: m != d.number ==>
      (m in RepoIssues(r, key) <==> m in RepoIssues(issues, key)) &&
      (m in RepoIssues(issues, key) ==> r[key][m] == issues[key][m])
    ensures forall k :: k != key ==> RepoIssues(r, k) == RepoIssues(issues, k)
    ensures WellKeyed(issues) ==> WellKeyed(r)
  {
    issues[key := RepoIssues(issues, key)[d.number := d]]
  }

  /** `get_mut` of a stored issue, then an assignment to it. */
  function SetIssue(issues: Issues, key: RepoKey, n: nat, d: IssueData): Issues
    requires n in RepoIssues(issues, key)
  {
    var table: map<nat, IssueData> := issues[key][n := d];
    issues[key := table]
  }

  /** An empty text reads back as no body. */
  function BodyOption(s: string): (r: Option<string>)
    ensures r.None? <==> s == []
    ensures r.Some? ==> r.value == s
  {
    if s == [] then None else Some(s)
  }

  /**
   * `convert_issue_data`: every field but the internal id is carried over,
   * and an empty body becomes no body.
   */
  function AsIssue(d: IssueData): (r: Github.GithubIssue)
    ensures r.number == d.number && r.title == d.title && r.labels == d.labels
    ensures r.login == d.ownerLogin && r.state == d.state
    ensures r.body.None? <==> d.body == []
    ensures r.body.Some? ==> r.body.value == d.body
  {
    Github.GithubIssue(d.number, d.title, BodyOption(d.body), d.labels, d.ownerLogin, d.state)
  }

  /** Two stored issues convert alike exactly when they differ at most in their ids. */
  lemma AsIssueForgetsOnlyId(d1: IssueData, d2: IssueData)
    ensures AsIssue(d1) == AsIssue(d2) <==> d1.(id := d2.id) == d2
  {
  }

  /** An inserted issue is found under its number; everything else is found as before. */
  lemma LookupAfterInsert(issues: Issues, key: RepoKey, d: IssueData, k: RepoKey, n: nat)
    ensures k == key && n == d.number ==> LookupIssue(InsertIssue(issues, key, d), k, n) == Ok(d)
    ensures k == key && n != d.number ==>
      LookupIssue(InsertIssue(issues, key, d), k, n) ==
        (if n in RepoIssues(issues, key) then Ok(issues[key][n]) else Err(IssueNotFound(n)))
    ensures k != key ==> LookupIssue(InsertIssue(issues, key, d), k, n) == LookupIssue(issues, k, n)
  {
  }

  /** An updated issue reads back as the new record; every other lookup is unchanged. */
  lemma LookupAfterSet(issues: Issues, key: RepoKey, n: nat, d: IssueData, k: RepoKey, m: nat)
    requires n in RepoIssues(issues, key)
    ensures LookupIssue(SetIssue(issues, key, n, d), k, m) ==
            if k == key && m == n then Ok(d) else LookupIssue(issues, k, m)
  {
  }

  /** Fetching after `update_issue_body` gives the new body, none for an empty one, and the rest of the issue as it was. */
  lemma BodyReadBack(issues: Issues, key: RepoKey, n: nat, body: string)
    requires n in RepoIssues(issues, key)
    ensures var d := issues[key][n];
            LookupIssue(SetIssue(issues, key, n, d.(body := body)), key, n).Ok? &&
            AsIssue(LookupIssue(SetIssue(issues, key, n, d.(body := body)), key, n).value) ==
              AsIssue(d).(body := if body == [] then None else Some(body))
  {
    LookupAfterSet(issues, key, n, issues[key][n].(body := body), key, n);
  }

  /** Fetching after `update_issue_state` gives the new state and the rest of the issue as it was. */
  lemma StateReadBack(issues: Issues, key: RepoKey, n: nat, state: string)
    requires n in RepoIssues(issues, key)
    ensures var d := issues[key][n];
            LookupIssue(SetIssue(issues, key, n, d.(state := state)), key, n) == Ok(d.(state := state)) &&
            AsIssue(d.(state := state)) == AsIssue(d).(state := state)
  {
    LookupAfterSet(issues, key, n, issues[key][n].(state := state), key, n);
  }

  // ---------------------------------------------------------------------
  // Comments

  /** Every stored comment sits under its own id. */
  predicate CommentsKeyed(comments: Comments) {
    forall key, id :: key in comments && id in comments[key] ==> comments[key][id].id == id
  }

  function RepoComments(comments: Comments, key: RepoKey): map<nat, CommentData> {
    if key in comments then comments[key] else map[]
  }

  /** `entry(key).or_default().insert(id, comment)`. */
  function InsertComment(comments: Comments, key: RepoKey, c: CommentData): Comments {
    comments[key := RepoComments(comments, key)[c.id := c]]
  }

  /**
   * `delete_comment`: the id is removed from the repository's table when
   * there is one; every other comment and every other repository is kept.
   */
  function RemoveComment(comments: Comments, key: RepoKey, id: nat): (r: Comments)
    ensures id !in RepoComments(r, key)
    ensures forall c :: c != id ==>
      (c in RepoComments(r, key) <==> c in RepoComments(comments, key)) &&
      (c in RepoComments(comments, key) ==> r[key][c] == comments[key][c])
    ensures forall k :: k != key ==> RepoComments(r, k) == RepoComments(comments, k)
    ensures CommentsKeyed(comments) ==> CommentsKeyed(r)
  {
    if key in comments then comments[key := comments[key] - {id}] else comments
  }

  /** The ids of the comments on issue `n`: what `fetch_comments` returns, in whatever order. */
  function CommentIdsOn(rc: map<nat, CommentData>, n: nat): (r: set<nat>)
    ensures forall id :: id in r <==> id in rc && rc[id].issueNumber == n
  {
    set id | id in rc && rc[id].issueNumber == n
  }

  /** `convert` of a stored comment. */
  function AsComment(c: CommentData): Github.GithubComment {
    Github.GithubComment(c.id, BodyOption(c.body), c.ownerLogin)
  }

  /** A created comment is listed on its issue, next to the ones already there. */
  lemma CreatedCommentListed(comments: Comments, key: RepoKey, c: CommentData)
    ensures CommentIdsOn(RepoComments(InsertComment(comments, key, c), key), c.issueNumber) ==
            CommentIdsOn(RepoComments(comments, key), c.issueNumber) + {c.id}
  {
  }

  /** A deleted comment is no longer listed on any issue, and nothing else changes. */
  lemma DeletedCommentGone(comments: Comments, key: RepoKey, id: nat, n: nat)
    ensures CommentIdsOn(RepoComments(RemoveComment(comments, key, id), key), n) ==
            CommentIdsOn(RepoComments(comments, key), n) - {id}
    ensures forall k :: k != key ==> RepoComments(RemoveComment(comments, key, id), k) == RepoComments(comments, k)
  {
  }

  /** Deleting a comment that is not there changes nothing. */
  lemma DeleteAbsentIsNoop(comments: Comments, key: RepoKey, id: nat)
    requires id !in RepoComments(comments, key)
    ensures RemoveComment(comments, key, id) == comments
  {
    if key in comments {
      assert comments[key] - {id} == comments[key];
    }
  }

  // ---------------------------------------------------------------------
  // Sub-issue relations

  /** The child numbers recorded under a parent, in the order they were added. */
  function Children(relations: Relations, key: RepoKey, parent: nat): seq<nat> {
    if key in relations && parent in relations[key] then relations[key][parent] else []
  }

  /** `entry(key).or_default().entry(parent).or_default().push(child)`. */
  function AppendChild(relations: Relations, key: RepoKey, parent: nat, child: nat): (r: Relations)
    ensures Children(r, key, parent) == Children(relations, key, parent) + [child]
    ensures forall k, p :: k != key || p != parent ==> Children(r, k, p) == Children(relations, k, p)
  {
    var table: map<nat, seq<nat>> := if key in relations then relations[key] else map[];
    var table': map<nat, seq<nat>> := table[parent := Children(relations, key, parent) + [child]];
    relations[key := table']
  }

  /** `fetch_sub_issues`: the children's issues in relation order, skipping numbers with no stored issue. */
  function SubIssuesOf(numbers: seq<nat>, repoIssues: map<nat, IssueData>): (r: seq<Github.GithubIssue>)
    ensures |r| <= |numbers|
    ensures forall x :: x in r ==> exists n :: n in numbers && n in repoIssues && x == AsIssue(repoIssues[n])
  {
    if numbers == [] then []
    else
      var init := numbers[..|numbers| - 1];
      var prev := SubIssuesOf(init, repoIssues);
      var n := numbers[|numbers| - 1];
      assert forall m :: m in init ==> m in numbers;
      if n in repoIssues then prev + [AsIssue(repoIssues[n])] else prev
  }

  /** The sub-issues of a joined list are those of each part, in order. */
  lemma {:induction false} SubIssuesAppend(a: seq<nat>, b: seq<nat>, repoIssues: map<nat, IssueData>)
    ensures SubIssuesOf(a + b, repoIssues) == SubIssuesOf(a, repoIssues) + SubIssuesOf(b, repoIssues)
  {
    if b != [] {
      assert (a + b)[..|a + b| - 1] == a + b[..|b| - 1];
      SubIssuesAppend(a, b[..|b| - 1], repoIssues);
    } else {
      assert a + b == a;
    }
  }

  /** When every child has an issue, there is one result per child, in relation order. */
  lemma {:induction false} AllChildrenFetched(numbers: seq<nat>, repoIssues: map<nat, IssueData>)
    requires forall k :: 0 <= k < |numbers| ==> numbers[k] in repoIssues
    ensures |SubIssuesOf(numbers, repoIssues)| == |numbers|
    ensures forall k :: 0 <= k < |numbers| ==> SubIssuesOf(numbers, repoIssues)[k] == AsIssue(repoIssues[numbers[k]])
  {
    if numbers != [] {
      var init := numbers[..|numbers| - 1];
      AllChildrenFetched(init, repoIssues);
      var prev := SubIssuesOf(init, repoIssues);
      assert SubIssuesOf(numbers, repoIssues) == prev + [AsIssue(repoIssues[numbers[|numbers| - 1]])];
      assert forall k :: 0 <= k < |init| ==> init[k] == numbers[k];
    }
  }

  /** A child with no stored issue adds nothing. */
  lemma MissingChildSkipped(numbers: seq<nat>, n: nat, repoIssues: map<nat, IssueData>)
    requires n !in repoIssues
    ensures SubIssuesOf(numbers + [n], repoIssues) == SubIssuesOf(numbers, repoIssues)
  {
    Strings.FrontOfSnoc(numbers, n);
  }

  /** A child added to a parent is fetched last among its sub-issues. */
  lemma AddedChildFetchedLast(relations: Relations, key: RepoKey, parent: nat, child: nat, repoIssues: map<nat, IssueData>)
    requires child in repoIssues
    ensures SubIssuesOf(Children(AppendChild(relations, key, parent, child), key, parent), repoIssues) ==
            SubIssuesOf(Children(relations, key, parent), repoIssues) + [AsIssue(repoIssues[child])]
  {
    var old_ := Children(relations, key, parent);
    Strings.FrontOfSnoc(old_, child);
  }

  // ---------------------------------------------------------------------
  // The client

  /** `MockGitHubClient`, used one call at a time. */
  class MockGithubClient {
    const userLogin: string
    var nextIssueId: nat
    var nextIssueNumber: nat
    var nextCommentId: nat
    var issues: Issues
    var comments: Comments
    var subIssues: Relations
    var collaboratorRepos: seq<RepoKey>
    var callLog: seq<Call>

    /** What every call keeps: issues under their numbers with ids below the counter, comments under their ids. */
    predicate Valid()
      reads this
    {
      WellKeyed(issues) && IdsBelow(issues, nextIssueId) && CommentsKeyed(comments)
    }

    /** Nothing but the call log changed. */
    twostate predicate StoreUnchanged()
      reads this
    {
      issues == old(issues) && comments == old(comments) && subIssues == old(subIssues) &&
      collaboratorRepos == old(collaboratorRepos) && nextIssueId == old(nextIssueId) &&
      nextIssueNumber == old(nextIssueNumber) && nextCommentId == old(nextCommentId)
    }

    /** `new`: empty tables, ids from 1000, numbers from 1, comment ids from 5000. */
    constructor(userLogin: string)
      ensures this.userLogin == userLogin && Valid()
      ensures nextIssueId == FIRST_ISSUE_ID && nextIssueNumber == FIRST_ISSUE_NUMBER && nextCommentId == FIRST_COMMENT_ID
      ensures issues == map[] && comments == map[] && subIssues == map[] && collaboratorRepos == [] && callLog == []
    {
      this.userLogin := userLogin;
      nextIssueId := FIRST_ISSUE_ID;
      nextIssueNumber := FIRST_ISSUE_NUMBER;
      nextCommentId := FIRST_COMMENT_ID;
      issues := map[];
      comments := map[];
      subIssues := map[];
      collaboratorRepos := [];
      callLog := [];
    }

    /** `add_issue`: stores an issue under the given number with the next id. */
    method AddIssue(owner: string, repo: string, number: nat, title: string, body: string, state: string,
                    labels: seq<string>, ownerLogin: string)
      requires Valid()
      modifies this
      ensures Valid()
      ensures issues == InsertIssue(old(issues), RepoKey(owner, repo),
                                    IssueData(number, old(nextIssueId), title, body, state, labels, ownerLogin))
      ensures nextIssueId == old(nextIssueId) + 1
      ensures comments == old(comments) && subIssues == old(subIssues) && collaboratorRepos == old(collaboratorRepos)
      ensures nextIssueNumber == old(nextIssueNumber) && nextCommentId == old(nextCommentId) && callLog == old(callLog)
    {
      var d := IssueData(number, nextIssueId, title, body, state, labels, ownerLogin);
      nextIssueId := nextIssueId + 1;
      issues := InsertIssue(issues, RepoKey(owner, repo), d);
    }

    /** `add_comment`: stores a comment under the given id. */
    method AddComment(owner: string, repo: string, issueNumber: nat, commentId: nat, body: string, ownerLogin: string)
      requires Valid()
      modifies this
      ensures Valid()
      ensures comments == InsertComment(old(comments), RepoKey(owner, repo), CommentData(commentId, issueNumber, body, ownerLogin))
      ensures issues == old(issues) && subIssues == old(subIssues) && collaboratorRepos == old(collaboratorRepos)
      ensures nextIssueId == old(nextIssueId) && nextIssueNumber == old(nextIssueNumber)
      ensures nextCommentId == old(nextCommentId) && callLog == old(callLog)
    {
      comments := InsertComment(comments, RepoKey(owner, repo), CommentData(commentId, issueNumber, body, ownerLogin));
    }

    /** `add_sub_issue_relation`: records a child number under a parent. */
    method AddSubIssueRelation(owner: string, repo: string, parent: nat, child: nat)
      requires Valid()
      modifies this
      ensures Valid()
      ensures subIssues == AppendChild(old(subIssues), RepoKey(owner, repo), parent, child)
      ensures issues == old(issues) && comments == old(comments) && collaboratorRepos == old(collaboratorRepos)
      ensures nextIssueId == old(nextIssueId) && nextIssueNumber == old(nextIssueNumber)
      ensures nextCommentId == old(nextCommentId) && callLog == old(callLog)
    {
      subIssues := AppendChild(subIssues, RepoKey(owner, repo), parent, child);
    }

    /** `grant_collaborator_access`: the repository is listed once. */
    method GrantCollaboratorAccess(owner: string, repo: string)
      requires Valid()
      modifies this
      ensures Valid()
      ensures RepoKey(owner, repo) in collaboratorRepos
      ensures collaboratorRepos == if RepoKey(owner, repo) in old(collaboratorRepos) then old(collaboratorRepos)
                                   else old(collaboratorRepos) + [RepoKey(owner, repo)]
      ensures issues == old(issues) && comments == old(comments) && subIssues == old(subIssues)
      ensures nextIssueId == old(nextIssueId) && nextIssueNumber == old(nextIssueNumber)
      ensures nextCommentId == old(nextCommentId) && callLog == old(callLog)
    {
      var key := RepoKey(owner, repo);
      if key !in collaboratorRepos {
        collaboratorRepos := collaboratorRepos + [key];
      }
    }

    /** `clear_call_log`. */
    method ClearCallLog()
      modifies this
      ensures callLog == [] && StoreUnchanged()
    {
      callLog := [];
    }

    method FetchAuthenticatedUserCall() returns (login: string)
      modifies this
      ensures login == userLogin
      ensures callLog == old(callLog) + [FetchAuthenticatedUser] && StoreUnchanged()
    {
      callLog := callLog + [FetchAuthenticatedUser];
      login := userLogin;
    }

    /** `fetch_issue`: the stored issue, or an error naming the missing repository or number. */
    method FetchIssueCall(owner: string, repo: string, number: nat) returns (r: Result<Github.GithubIssue, MockError>)
      modifies this
      ensures var found := LookupIssue(issues, RepoKey(owner, repo), number);
              if found.Ok? then r == Ok(AsIssue(found.value)) else r == Err(found.error)
      ensures callLog == old(callLog) + [FetchIssue(owner, repo, number)] && StoreUnchanged()
    {
      callLog := callLog + [FetchIssue(owner, repo, number)];
      var found := LookupIssue(issues, RepoKey(owner, repo), number);
      if found.Ok? {
        r := Ok(AsIssue(found.value));
      } else {
        r := Err(found.error);
      }
    }

    /** `fetch_comments`: one entry per comment stored on that issue, in the table's order. */
    method FetchCommentsCall(owner: string, repo: string, number: nat) returns (r: seq<Github.GithubComment>)
      requires Valid()
      modifies this
      ensures var rc := RepoComments(comments, RepoKey(owner, repo));
              (forall k :: 0 <= k < |r| ==> r[k].id in CommentIdsOn(rc, number) && r[k] == AsComment(rc[r[k].id])) &&
              (forall id :: id in CommentIdsOn(rc, number) ==> exists k :: 0 <= k < |r| && r[k].id == id) &&
              (forall i, j :: 0 <= i < j < |r| ==> r[i].id != r[j].id)
      ensures callLog == old(callLog) + [FetchComments(owner, repo, number)] && StoreUnchanged()
    {
      callLog := callLog + [FetchComments(owner, repo, number)];
      r := ListComments(RepoComments(comments, RepoKey(owner, repo)), number);
    }

    /** `fetch_sub_issues`: the recorded children's issues, in relation order. */
    method FetchSubIssuesCall(owner: string, repo: string, number: nat) returns (r: seq<Github.GithubIssue>)
      modifies this
      ensures r == SubIssuesOf(Children(subIssues, RepoKey(owner, repo), number), RepoIssues(issues, RepoKey(owner, repo)))
      ensures callLog == old(callLog) + [FetchSubIssues(owner, repo, number)] && StoreUnchanged()
    {
      callLog := callLog + [FetchSubIssues(owner, repo, number)];
      var key := RepoKey(owner, repo);
      var numbers := Children(subIssues, key, number);
      var repoIssues := RepoIssues(issues, key);
      r := [];
      for i := 0 to |numbers|
        invariant r == SubIssuesOf(numbers[..i], repoIssues)
      {
        assert numbers[..i + 1][..i] == numbers[..i];
        if numbers[i] in repoIssues {
          r := r + [AsIssue(repoIssues[numbers[i]])];
        }
      }
      assert numbers[..|numbers|] == numbers;
    }

    /** `update_issue_body`: an unknown repository or number is an error and changes nothing. */
    method UpdateIssueBodyCall(owner: string, repo: string, number: nat, body: string) returns (r: Result<(), MockError>)
      requires Valid()
      modifies this
      ensures Valid()
      ensures var found := old(LookupIssue(issues, RepoKey(owner, repo), number));
              if found.Ok? then r.Ok? && issues == SetIssue(old(issues), RepoKey(owner, repo), number, found.value.(body := body))
              else r == Err(found.error) && issues == old(issues)
      ensures comments == old(comments) && subIssues == old(subIssues) && collaboratorRepos == old(collaboratorRepos)
      ensures nextIssueId == old(nextIssueId) && nextIssueNumber == old(nextIssueNumber) && nextCommentId == old(nextCommentId)
      ensures callLog == old(callLog) + [UpdateIssueBody(owner, repo, number)]
    {
      callLog := callLog + [UpdateIssueBody(owner, repo, number)];
      var key := RepoKey(owner, repo);
      var found := LookupIssue(issues, key, number);
      if found.Err? {
        return Err(found.error);
      }
      issues := SetIssue(issues, key, number, found.value.(body := body));
      r := Ok(());
    }

    /** `update_issue_state`: an unknown repository or number is an error and changes nothing. */
    method UpdateIssueStateCall(owner: string, repo: string, number: nat, state: string) returns (r: Result<(), MockError>)
      requires Valid()
      modifies this
      ensures Valid()
      ensures var found := old(LookupIssue(issues, RepoKey(owner, repo), number));
              if found.Ok? then r.Ok? && issues == SetIssue(old(issues), RepoKey(owner, repo), number, found.value.(state := state))
              else r == Err(found.error) && issues == old(issues)
      ensures comments == old(comments) && subIssues == old(subIssues) && collaboratorRepos == old(collaboratorRepos)
      ensures nextIssueId == old(nextIssueId) && nextIssueNumber == old(nextIssueNumber) && nextCommentId == old(nextCommentId)
      ensures callLog == old(callLog) + [UpdateIssueState(owner, repo, number, state)]
    {
      callLog := callLog + [UpdateIssueState(owner, repo, number, state)];
      var key := RepoKey(owner, repo);
      var found := LookupIssue(issues, key, number);
      if found.Err? {
        return Err(found.error);
      }
      issues := SetIssue(issues, key, number, found.value.(state := state));
      r := Ok(());
    }

    /** `update_comment`: an unknown repository or comment id is an error and changes nothing. */
    method UpdateCommentCall(owner: string, repo: string, id: nat, body: string) returns (r: Result<(), MockError>)
      requires Valid()
      modifies this
      ensures Valid()
      ensures var key := RepoKey(owner, repo);
              if key !in old(comments) then r == Err(RepoNotFound(owner, repo)) && comments == old(comments)
              else if id !in old(comments)[key] then r == Err(CommentNotFound(id)) && comments == old(comments)
              else r.Ok? && comments == old(comments)[key := old(comments)[key][id := old(comments)[key][id].(body := body)]]
      ensures issues == old(issues) && subIssues == old(subIssues) && collaboratorRepos == old(collaboratorRepos)
      ensures nextIssueId == old(nextIssueId) && nextIssueNumber == old(nextIssueNumber) && nextCommentId == old(nextCommentId)
      ensures callLog == old(callLog) + [UpdateComment(owner, repo, id)]
    {
      callLog := callLog + [UpdateComment(owner, repo, id)];
      var key := RepoKey(owner, repo);
      if key !in comments {
        return Err(RepoNotFound(owner, repo));
      }
      if id !in comments[key] {
        return Err(CommentNotFound(id));
      }
      comments := comments[key := comments[key][id := comments[key][id].(body := body)]];
      r := Ok(());
    }

    /** `create_comment`: a comment owned by the user, under the next comment id. */
    method CreateCommentCall(owner: string, repo: string, number: nat, body: string)
      requires Valid()
      modifies this
      ensures Valid()
      ensures comments == InsertComment(old(comments), RepoKey(owner, repo), CommentData(old(nextCommentId), number, body, userLogin))
      ensures nextCommentId == old(nextCommentId) + 1
      ensures issues == old(issues) && subIssues == old(subIssues) && collaboratorRepos == old(collaboratorRepos)
      ensures nextIssueId == old(nextIssueId) && nextIssueNumber == old(nextIssueNumber)
      ensures callLog == old(callLog) + [CreateComment(owner, repo, number)]
    {
      callLog := callLog + [CreateComment(owner, repo, number)];
      var id := nextCommentId;
      nextCommentId := nextCommentId + 1;
      comments := InsertComment(comments, RepoKey(owner, repo), CommentData(id, number, body, userLogin));
    }

    /** `delete_comment`: never an error, a no-op when the comment is not there. */
    method DeleteCommentCall(owner: string, repo: string, id: nat)
      requires Valid()
      modifies this
      ensures Valid()
      ensures comments == RemoveComment(old(comments), RepoKey(owner, repo), id)
      ensures issues == old(issues) && subIssues == old(subIssues) && collaboratorRepos == old(collaboratorRepos)
      ensures nextIssueId == old(nextIssueId) && nextIssueNumber == old(nextIssueNumber) && nextCommentId == old(nextCommentId)
      ensures callLog == old(callLog) + [DeleteComment(owner, repo, id)]
    {
      callLog := callLog + [DeleteComment(owner, repo, id)];
      comments := RemoveComment(comments, RepoKey(owner, repo), id);
    }

    /** `check_collaborator_access`. */
    method CheckCollaboratorAccessCall(owner: string, repo: string) returns (r: bool)
      modifies this
      ensures r <==> RepoKey(owner, repo) in collaboratorRepos
      ensures callLog == old(callLog) + [CheckCollaboratorAccess(owner, repo)] && StoreUnchanged()
    {
      callLog := callLog + [CheckCollaboratorAccess(owner, repo)];
      r := RepoKey(owner, repo) in collaboratorRepos;
    }

    /**
     * `create_issue`: an open issue owned by the user, with the next id and
     * the next number; its id is unlike every stored issue's.
     */
    method CreateIssueCall(owner: string, repo: string, title: string, body: string) returns (c: CreatedIssue)
      requires Valid()
      modifies this
      ensures Valid()
      ensures c == CreatedIssue(old(nextIssueId), old(nextIssueNumber), Github.IssueUrl(owner, repo, old(nextIssueNumber)))
      ensures forall key, n :: key in old(issues) && n in old(issues)[key] ==> old(issues)[key][n].id != c.id
      ensures issues == InsertIssue(old(issues), RepoKey(owner, repo), IssueData(c.number, c.id, title, body, OPEN, [], userLogin))
      ensures LookupIssue(issues, RepoKey(owner, repo), c.number) == Ok(IssueData(c.number, c.id, title, body, OPEN, [], userLogin))
      ensures nextIssueId == old(nextIssueId) + 1 && nextIssueNumber == old(nextIssueNumber) + 1
      ensures comments == old(comments) && subIssues == old(subIssues) && collaboratorRepos == old(collaboratorRepos)
      ensures nextCommentId == old(nextCommentId)
      ensures callLog == old(callLog) + [CreateIssue(owner, repo, title)]
    {
      callLog := callLog + [CreateIssue(owner, repo, title)];
      var id := nextIssueId;
      nextIssueId := nextIssueId + 1;
      var number := nextIssueNumber;
      nextIssueNumber := nextIssueNumber + 1;
      var d := IssueData(number, id, title, body, OPEN, [], userLogin);
      LookupAfterInsert(issues, RepoKey(owner, repo), d, RepoKey(owner, repo), number);
      issues := InsertIssue(issues, RepoKey(owner, repo), d);
      c := CreatedIssue(id, number, Github.IssueUrl(owner, repo, number));
    }

    /**
     * `add_sub_issue`: the child is found by its id among the repository's
     * issues and its number is appended under the parent.
     */
    method AddSubIssueCall(owner: string, repo: string, parent: nat, childId: nat) returns (r: Result<(), MockError>)
      requires Valid()
      modifies this
      ensures Valid()
      ensures var key := RepoKey(owner, repo);
              if key !in old(issues) then r == Err(RepoNotFound(owner, repo)) && subIssues == old(subIssues)
              else if forall n :: n in old(issues)[key] ==> old(issues)[key][n].id != childId then
                r == Err(ChildNotFound(childId)) && subIssues == old(subIssues)
              else r.Ok? && exists n :: n in old(issues)[key] && old(issues)[key][n].id == childId &&
                                       subIssues == AppendChild(old(subIssues), key, parent, n)
      ensures issues == old(issues) && comments == old(comments) && collaboratorRepos == old(collaboratorRepos)
      ensures nextIssueId == old(nextIssueId) && nextIssueNumber == old(nextIssueNumber) && nextCommentId == old(nextCommentId)
      ensures callLog == old(callLog) + [AddSubIssue(owner, repo, parent, childId)]
    {
      callLog := callLog + [AddSubIssue(owner, repo, parent, childId)];
      var key := RepoKey(owner, repo);
      if key !in issues {
        return Err(RepoNotFound(owner, repo));
      }
      var child := FindById(issues[key], childId);
      if child.None? {
        return Err(ChildNotFound(childId));
      }
      subIssues := AppendChild(subIssues, key, parent, child.value);
      r := Ok(());
    }

    /** `find_issue_by_title`: the number of some issue of the repository with that title. */
    method FindIssueByTitleCall(owner: string, repo: string, title: string) returns (r: Option<nat>)
      requires Valid()
      modifies this
      ensures var ri := RepoIssues(issues, RepoKey(owner, repo));
              if forall n :: n in ri ==> ri[n].title != title then r.None?
              else r.Some? && r.value in ri && ri[r.value].title == title
      ensures callLog == old(callLog) + [FindIssueByTitle(owner, repo, title)] && StoreUnchanged()
    {
      callLog := callLog + [FindIssueByTitle(owner, repo, title)];
      r := FindByTitle(RepoIssues(issues, RepoKey(owner, repo)), title);
    }

    /** `issue_exists`. */
    method IssueExistsCall(owner: string, repo: string, number: nat) returns (r: bool)
      modifies this
      ensures r <==> number in RepoIssues(issues, RepoKey(owner, repo))
      ensures callLog == old(callLog) + [IssueExists(owner, repo, number)] && StoreUnchanged()
    {
      callLog := callLog + [IssueExists(owner, repo, number)];
      var key := RepoKey(owner, repo);
      r := key in issues && number in issues[key];
    }
  }

  // ---------------------------------------------------------------------
  // The scans over a table's values

  /** The comments on issue `n`, one per stored comment, in the order the table is walked. */
  method ListComments(rc: map<nat, CommentData>, n: nat) returns (r: seq<Github.GithubComment>)
    requires forall id :: id in rc ==> rc[id].id == id
    ensures forall k :: 0 <= k < |r| ==> r[k].id in CommentIdsOn(rc, n) && r[k] == AsComment(rc[r[k].id])
    ensures forall id :: id in CommentIdsOn(rc, n) ==> exists k :: 0 <= k < |r| && r[k].id == id
    ensures forall i, j :: 0 <= i < j < |r| ==> r[i].id != r[j].id
  {
    r := [];
    var todo := rc.Keys;
    while todo != {}
      invariant todo <= rc.Keys
      invariant forall k :: 0 <= k < |r| ==> r[k].id in CommentIdsOn(rc, n) && r[k].id !in todo && r[k] == AsComment(rc[r[k].id])
      invariant forall id :: id in CommentIdsOn(rc, n) && id !in todo ==> exists k :: 0 <= k < |r| && r[k].id == id
      invariant forall i, j :: 0 <= i < j < |r| ==> r[i].id != r[j].id
      decreases |todo|
    {
      var id :| id in todo;
      if rc[id].issueNumber == n {
        var prev := r;
        r := r + [AsComment(rc[id])];
        assert r[|r| - 1].id == id;
        forall m | m in CommentIdsOn(rc, n) && m !in todo - {id}
          ensures exists k :: 0 <= k < |r| && r[k].id == m
        {
          if m == id {
            assert r[|r| - 1].id == m;
          } else {
            var k :| 0 <= k < |prev| && prev[k].id == m;
            assert r[k].id == m;
          }
        }
      }
      todo := todo - {id};
    }
  }

  /** The number of an issue with the given id, walking the table in its own order. */
  method FindById(ri: map<nat, IssueData>, id: nat) returns (r: Option<nat>)
    requires forall n :: n in ri ==> ri[n].number == n
    ensures r.None? <==> forall n :: n in ri ==> ri[n].id != id
    ensures r.Some? ==> r.value in ri && ri[r.value].id == id
  {
    var todo := ri.Keys;
    while todo != {}
      invariant todo <= ri.Keys
      invariant forall n :: n in ri && n !in todo ==> ri[n].id != id
      decreases |todo|
    {
      var n :| n in todo;
      if ri[n].id == id {
        return Some(ri[n].number);
      }
      todo := todo - {n};
    }
    r := None;
  }

  /** The number of an issue with the given title, walking the table in its own order. */
  method FindByTitle(ri: map<nat, IssueData>, title: string) returns (r: Option<nat>)
    requires forall n :: n in ri ==> ri[n].number == n
    ensures r.None? <==> forall n :: n in ri ==> ri[n].title != title
    ensures r.Some? ==> r.value in ri && ri[r.value].title == title
  {
    var todo := ri.Keys;
    while todo != {}
      invariant todo <= ri.Keys
      invariant forall n :: n in ri && n !in todo ==> ri[n].title != title
      decreases |todo|
    {
      var n :| n in todo;
      if ri[n].title == title {
        return Some(ri[n].number);
      }
      todo := todo - {n};
    }
    r := None;
  }
}
