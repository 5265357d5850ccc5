/**
 * src/open/files.rs: the earlier generation of the file layout. Issues
 * always have a number, and a sub-issue's file sits in its one parent's
 * directory. Everything else in that file is word for word the same as in
 * src/open_interactions/files.rs and is `IssueFiles`.
 */
module OpenFiles {
  import opened Wrappers
  import opened Strings
  import opened Extensions
  import opened Sanitize
  import IssueFiles

  type Path = seq<string>

  /** `format_issue_filename`: `{number}_-_{title}.ext`, or `{number}.ext` for an empty sanitised title, then `.bak` when closed. */
  function FormatIssueFilename(number: nat, title: string, ext: Extension, closed: bool): string {
    var sanitized := SanitizeTitle(title);
    var base :=
      if sanitized == [] then NatToString(number) + (IssueFiles.DOT + Name(ext))
      else NatToString(number) + (IssueFiles.SEP + (sanitized + (IssueFiles.DOT + Name(ext))));
    if closed then base + IssueFiles.BAK else base
  }

  /** The two generations name a numbered issue's file the same way. */
  lemma SameFileName(number: nat, title: string, ext: Extension, closed: bool)
    ensures FormatIssueFilename(number, title, ext, closed) == IssueFiles.FormatIssueFilename(Some(number), title, ext, closed)
  {
    var s := SanitizeTitle(title);
    if s != [] {
      assert NatToString(number) + (IssueFiles.SEP + (s + (IssueFiles.DOT + Name(ext)))) ==
             (NatToString(number) + (IssueFiles.SEP + s)) + (IssueFiles.DOT + Name(ext));
    }
  }

  /** The parent's directory: `{number}_-_{title}`. */
  function ParentDir(parent: (nat, string)): string {
    NatToString(parent.0) + (IssueFiles.SEP + SanitizeTitle(parent.1))
  }

  /** `get_issue_file_path`: `base/owner/repo[/parent]/file`. */
  function IssueFilePath(base: Path, owner: string, repo: string, number: nat, title: string, ext: Extension, closed: bool,
                         parent: Option<(nat, string)>): Path {
    var project := base + [owner, repo];
    var filename := FormatIssueFilename(number, title, ext, closed);
    match parent
      case None => project + [filename]
      case Some(p) => project + [ParentDir(p)] + [filename]
  }

  function AsAncestors(parent: Option<(nat, string)>): seq<IssueFiles.Ancestor> {
    match parent
      case None => []
      case Some((n, t)) => [IssueFiles.Ancestor(n, t)]
  }

  /** The earlier layout is the later one with at most one ancestor. */
  lemma SamePath(base: Path, owner: string, repo: string, number: nat, title: string, ext: Extension, closed: bool,
                 parent: Option<(nat, string)>)
    ensures IssueFilePath(base, owner, repo, number, title, ext, closed, parent) ==
            IssueFiles.IssueFilePath(base, owner, repo, Some(number), title, ext, closed, AsAncestors(parent))
  {
    SameFileName(number, title, ext, closed);
    var a := AsAncestors(parent);
    assert IssueFiles.DirNames(a) == (if parent.None? then [] else [ParentDir(parent.value)]);
  }

  /** Owner and repository are read back from every path of the earlier layout too. */
  lemma OwnerRepoRoundTrip(base: Path, owner: string, repo: string, number: nat, title: string, ext: Extension, closed: bool,
                           parent: Option<(nat, string)>)
    ensures IssueFiles.ExtractOwnerRepo(base, IssueFilePath(base, owner, repo, number, title, ext, closed, parent)) == Ok((owner, repo))
  {
    SamePath(base, owner, repo, number, title, ext, closed, parent);
    IssueFiles.OwnerRepoRoundTrip(base, owner, repo, Some(number), title, ext, closed, AsAncestors(parent));
  }

  /** `find_sub_issue_file`: the lookup of the later generation in the parent's directory. */
  method FindSubIssueFile(base: Path, owner: string, repo: string, parentNumber: nat, parentTitle: string, number: nat,
                          listing: Option<seq<IssueFiles.Entry>>) returns (r: Option<Path>)
    ensures r == IssueFiles.FindSubIssueFileSpec(base + [owner, repo] + [ParentDir((parentNumber, parentTitle))], number, listing)
  {
    var a := [IssueFiles.Ancestor(parentNumber, parentTitle)];
    r := IssueFiles.FindSubIssueFile(base, owner, repo, a, number, listing);
    assert IssueFiles.DirNames(a) == [ParentDir((parentNumber, parentTitle))];
  }
}
