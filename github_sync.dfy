/**
 * src/open_interactions/github_sync.rs: building an issue tree from GitHub
 * records and from the stored original state, and the levelled actions a
 * tree needs. The issue shape is the one of `OpenIssue` (URL in the
 * metadata, comments with ids, blockers); `from_meta` and the action walk
 * are the same as in src/open/issue.rs and are `OpenIssue.FromMeta` and
 * `OpenIssueActions`. Only `from_github` differs: every sub-issue keeps a
 * body comment, even an empty one.
 */
module GithubSync {
  import opened Wrappers
  import OpenIssue
  import IssueTypes
  import IssueBlocker
  import Github

  type Issue = OpenIssue.Issue

  /** A fetched sub-issue as a leaf child with exactly one body comment. */
  function SyncChild(sub: Github.GithubIssue, owner: string, repo: string, user: string): Issue {
    var owned := sub.login == user;
    OpenIssue.Issue(
      OpenIssue.Meta(sub.title, Some(Github.IssueUrl(owner, repo, sub.number)), OpenIssue.StateOf(sub.state), owned),
      sub.labels,
      [OpenIssue.Comment(None, OpenIssue.Text(sub.body), owned)],
      [],
      IssueBlocker.Root())
  }

  function SyncChildren(subs: seq<Github.GithubIssue>, owner: string, repo: string, user: string): (r: seq<Issue>)
    ensures |r| == |subs|
    ensures forall i :: 0 <= i < |subs| ==> r[i] == SyncChild(subs[i], owner, repo, user)
  {
    if subs == [] then []
    else SyncChildren(subs[..|subs| - 1], owner, repo, user) + [SyncChild(subs[|subs| - 1], owner, repo, user)]
  }

  /**
   * `from_github`: the issue at its canonical URL, owned when the current
   * user opened it, closed exactly when GitHub says "closed", its body
   * first and then one comment per fetched comment in order, and one leaf
   * child per sub-issue in order, each holding exactly its body.
   */
  function FromGithub(issue: Github.GithubIssue, comments: seq<Github.GithubComment>, subs: seq<Github.GithubIssue>,
                      owner: string, repo: string, user: string): (r: Issue)
    ensures r.meta.url == Some(Github.IssueUrl(owner, repo, issue.number)) && r.meta.title == issue.title
    ensures r.meta.owned <==> issue.login == user
    ensures IssueTypes.IsClosed(r.meta.closeState) <==> issue.state == IssueTypes.CLOSED_STATE
    ensures r.labels == issue.labels && IssueBlocker.IsEmpty(r.blockers)
    ensures |r.comments| == |comments| + 1 && r.comments[0] == OpenIssue.Comment(None, OpenIssue.Text(issue.body), issue.login == user)
    ensures forall i :: 0 <= i < |comments| ==>
      r.comments[i + 1] == OpenIssue.Comment(Some(comments[i].id), OpenIssue.Text(comments[i].body), comments[i].login == user)
    ensures |r.children| == |subs|
    ensures forall i :: 0 <= i < |subs| ==>
      && r.children[i].meta.url == Some(Github.IssueUrl(owner, repo, subs[i].number))
      && r.children[i].comments == [OpenIssue.Comment(None, OpenIssue.Text(subs[i].body), subs[i].login == user)]
      && r.children[i].children == []
  {
    var owned := issue.login == user;
    OpenIssue.Issue(
      OpenIssue.Meta(issue.title, Some(Github.IssueUrl(owner, repo, issue.number)), OpenIssue.StateOf(issue.state), owned),
      issue.labels,
      [OpenIssue.Comment(None, OpenIssue.Text(issue.body), owned)] + OpenIssue.GithubComments(comments, user),
      SyncChildren(subs, owner, repo, user),
      IssueBlocker.Root())
  }

  /**
   * The two generations of `from_github` differ only in the sub-issues
   * whose body is empty: here they keep an empty body comment, in
   * src/open/issue.rs they have none.
   */
  lemma FromGithubGenerations(issue: Github.GithubIssue, comments: seq<Github.GithubComment>, subs: seq<Github.GithubIssue>,
                              owner: string, repo: string, user: string)
    ensures var a := FromGithub(issue, comments, subs, owner, repo, user);
      var b := OpenIssue.FromGithub(issue, comments, subs, owner, repo, user);
      && a.(children := b.children) == b
      && (forall i :: 0 <= i < |subs| ==>
            (a.children[i] == b.children[i] <==> OpenIssue.Text(subs[i].body) != []))
  {
  }

  /** Divergence detection cannot tell the two generations apart. */
  lemma FromGithubSameKey(issue: Github.GithubIssue, comments: seq<Github.GithubComment>, subs: seq<Github.GithubIssue>,
                          owner: string, repo: string, user: string)
    ensures OpenIssue.Key(FromGithub(issue, comments, subs, owner, repo, user)) ==
            OpenIssue.Key(OpenIssue.FromGithub(issue, comments, subs, owner, repo, user))
  {
    var a := FromGithub(issue, comments, subs, owner, repo, user);
    var b := OpenIssue.FromGithub(issue, comments, subs, owner, repo, user);
    assert OpenIssue.ChildKeys(a.children) == OpenIssue.ChildKeys(b.children);
  }

  /**
   * The issue `from_meta` rebuilds from the state stored at a fetch is
   * equal, as divergence detection compares, to the issue `from_github`
   * built from that fetch.
   */
  lemma FromMetaMatchesFetch(entry: OpenIssue.MetaEntry, issue: Github.GithubIssue, comments: seq<Github.GithubComment>,
                             subs: seq<Github.GithubIssue>, owner: string, repo: string, user: string)
    requires entry.issueNumber == issue.number && entry.originalIssueBody == issue.body
    requires entry.originalCloseState == OpenIssue.StateOf(issue.state)
    requires entry.originalComments == Github.OriginalComments(comments)
    requires |entry.originalSubIssues| == |subs|
    requires forall i :: 0 <= i < |subs| ==>
      entry.originalSubIssues[i].number == subs[i].number && entry.originalSubIssues[i].state == subs[i].state
    ensures OpenIssue.Key(OpenIssue.FromMeta(entry, owner, repo)) == OpenIssue.Key(FromGithub(issue, comments, subs, owner, repo, user))
  {
    OpenIssue.FromMetaMatchesFromGithub(entry, issue, comments, subs, owner, repo, user);
    FromGithubSameKey(issue, comments, subs, owner, repo, user);
  }
}
