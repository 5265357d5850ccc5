/**
 * src/open_interactions/files.rs: where issue files live. A path is the
 * sequence of its components; the issues directory is the parameter
 * `base`. An issue's file sits under `base/owner/repo`, inside one
 * `{number}_-_{title}` directory per ancestor, and is named after its
 * number and sanitised title, with `.bak` appended when it is closed.
 */
module IssueFiles {
  import opened Wrappers
  import opened Strings
  import opened Extensions
  import opened Sanitize

  type Path = seq<string>

  /** What names an ancestor's directory: its number and title. */
  datatype Ancestor = Ancestor(number: nat, title: string)

  /** A directory entry as listed: its name, and whether it is a plain file. */
  datatype Entry = Entry(name: string, isFile: bool)

  datatype PathError = NotInIssuesDir | NoOwner | NoRepo

  const SEP: string := "_-_"
  const DOT: string := "."
  const BAK: string := ".bak"
  const UNTITLED: string := "untitled"
  const TAB: string := "\t"
  const NEWLINE: string := "\n"

  // ---------------------------------------------------------------------
  // File and directory names

  /**
   * The name before the extension: `{number}_-_{title}`, `{number}` when
   * the sanitised title is empty, `{title}` without a number, and
   * `untitled` with neither.
   */
  function Stem(number: Option<nat>, sanitized: string): string {
    match number
      case Some(n) => if sanitized == [] then NatToString(n) else NatToString(n) + (SEP + sanitized)
      case None => if sanitized == [] then UNTITLED else sanitized
  }

  /** The stem, the extension, and `.bak` when closed. */
  function FileName(number: Option<nat>, sanitized: string, ext: Extension, closed: bool): string {
    var base := Stem(number, sanitized) + (DOT + Name(ext));
    if closed then base + BAK else base
  }

  /** `format_issue_filename`: the name ends in `.bak` exactly when the issue is closed. */
  function FormatIssueFilename(number: Option<nat>, title: string, ext: Extension, closed: bool): (r: string)
    ensures EndsWith(r, BAK) <==> closed
  {
    ClosedIffBak(number, SanitizeTitle(title), ext, closed);
    FileName(number, SanitizeTitle(title), ext, closed)
  }

  /** `format_issue_dir_name`. */
  function DirName(a: Ancestor): string {
    NatToString(a.number) + (SEP + SanitizeTitle(a.title))
  }

  lemma EndsWithConcat(a: string, b: string)
    ensures EndsWith(a + b, b)
  {
    assert (a + b)[|a|..] == b;
  }

  lemma StartsWithConcat(a: string, b: string)
    ensures StartsWith(a + b, a)
  {
    assert (a + b)[..|a|] == a;
  }

  /** The name after the stem. */
  function Suffix(ext: Extension, closed: bool): string {
    if closed then DOT + (Name(ext) + BAK) else DOT + Name(ext)
  }

  lemma FileNameSplit(number: Option<nat>, s: string, ext: Extension, closed: bool)
    ensures FileName(number, s, ext, closed) == Stem(number, s) + Suffix(ext, closed)
  {
  }

  lemma ClosedIffBak(number: Option<nat>, s: string, ext: Extension, closed: bool)
    ensures EndsWith(FileName(number, s, ext, closed), BAK) <==> closed
  {
    var stem := Stem(number, s);
    FileNameSplit(number, s, ext, closed);
    var name := stem + Suffix(ext, closed);
    if closed {
      assert name == (stem + (DOT + Name(ext))) + BAK;
      EndsWithConcat(stem + (DOT + Name(ext)), BAK);
    } else {
      assert name[|name| - 1] == Name(ext)[|Name(ext)| - 1];
      assert BAK[3] == 'k';
    }
  }

  /** The longest run of leading digits stops where the digits of `d` stop. */
  lemma {:induction false} LeadingDigitsConcat(d: string, rest: string)
    requires AllDigits(d) && (rest == [] || !IsDigit(rest[0]))
    ensures LeadingDigits(d + rest) == d
  {
    if d != [] {
      assert (d + rest)[1..] == d[1..] + rest;
      LeadingDigitsConcat(d[1..], rest);
      assert d == [d[0]] + d[1..];
    } else {
      assert d + rest == rest;
    }
  }

  /** What follows the number in a numbered file name. */
  function NumberedTail(s: string, ext: Extension, closed: bool): string {
    (if s == [] then [] else SEP + s) + Suffix(ext, closed)
  }

  lemma NumberedSplit(n: nat, s: string, ext: Extension, closed: bool)
    ensures FileName(Some(n), s, ext, closed) == NatToString(n) + NumberedTail(s, ext, closed)
  {
    FileNameSplit(Some(n), s, ext, closed);
  }

  /** After the number comes `_` or `.`. */
  lemma NumberedShape(n: nat, s: string, ext: Extension, closed: bool)
    ensures var name := FileName(Some(n), s, ext, closed);
      |name| > |NatToString(n)| && name[..|NatToString(n)|] == NatToString(n)
      && name[|NatToString(n)|] == (if s == [] then '.' else '_')
  {
    NumberedSplit(n, s, ext, closed);
    TailFirst(s, ext, closed);
    PartsOf(NatToString(n), NumberedTail(s, ext, closed));
  }

  /** The separator after the number, and what follows it. */
  function TailRest(s: string, ext: Extension, closed: bool): string {
    if s == [] then Name(ext) + (if closed then BAK else []) else s + Suffix(ext, closed)
  }

  lemma TailShape(s: string, ext: Extension, closed: bool)
    ensures NumberedTail(s, ext, closed) == (if s == [] then DOT else SEP) + TailRest(s, ext, closed)
  {
    if s == [] {
      assert [] + Suffix(ext, closed) == Suffix(ext, closed);
      if !closed {
        assert Name(ext) + [] == Name(ext);
      }
    } else {
      AppendAssoc(SEP, s, Suffix(ext, closed));
    }
  }

  lemma StartsAssoc(d: string, x: string, y: string)
    ensures StartsWith(d + (x + y), d + x)
  {
    assert d + (x + y) == (d + x) + y;
    assert ((d + x) + y)[..|d + x|] == d + x;
  }

  lemma TailFirst(s: string, ext: Extension, closed: bool)
    ensures NumberedTail(s, ext, closed) != [] && NumberedTail(s, ext, closed)[0] == (if s == [] then '.' else '_')
  {
  }

  lemma PartsOf(d: string, tail: string)
    requires tail != []
    ensures |d + tail| > |d| && (d + tail)[..|d|] == d && (d + tail)[|d|] == tail[0]
  {
  }

  /** The number of a numbered issue is read back from the leading digits of its file name. */
  lemma NumberRecovered(n: nat, title: string, ext: Extension, closed: bool)
    ensures LeadingDigits(FormatIssueFilename(Some(n), title, ext, closed)) == NatToString(n)
  {
    NumberedShape(n, SanitizeTitle(title), ext, closed);
    LeadingOfShape(FormatIssueFilename(Some(n), title, ext, closed), NatToString(n));
  }

  lemma LeadingOfShape(name: string, d: string)
    requires AllDigits(d) && |name| > |d| && name[..|d|] == d && !IsDigit(name[|d|])
    ensures LeadingDigits(name) == d
  {
    assert name == d + name[|d|..];
    LeadingDigitsConcat(d, name[|d|..]);
  }

  /** Numbered issues with different numbers never share a file name. */
  lemma DistinctNumbersDistinctNames(m: nat, n: nat, t1: string, t2: string, e1: Extension, e2: Extension, c1: bool, c2: bool)
    requires m != n
    ensures FormatIssueFilename(Some(m), t1, e1, c1) != FormatIssueFilename(Some(n), t2, e2, c2)
  {
    NumberRecovered(m, t1, e1, c1);
    NumberRecovered(n, t2, e2, c2);
  }

  /** The names the issue search accepts: markdown or typst files, closed or not. */
  predicate IsIssueFileName(name: string) {
    || EndsWith(name, DOT + Name(Md)) || EndsWith(name, DOT + Name(Typ))
    || EndsWith(name, DOT + Name(Md) + BAK) || EndsWith(name, DOT + Name(Typ) + BAK)
  }

  /** Every file name the naming scheme writes is one the issue search looks at. */
  lemma FileNamesSearchable(number: Option<nat>, title: string, ext: Extension, closed: bool)
    ensures IsIssueFileName(FormatIssueFilename(number, title, ext, closed))
  {
    var stem := Stem(number, SanitizeTitle(title));
    FileNameSplit(number, SanitizeTitle(title), ext, closed);
    EndsWithConcat(stem, Suffix(ext, closed));
    assert DOT + Name(ext) + BAK == DOT + (Name(ext) + BAK);
  }

  // ---------------------------------------------------------------------
  // Paths

  /** `get_project_dir`: where the project's meta data lives. */
  function ProjectDir(base: Path, owner: string, repo: string): Path {
    base + [owner, repo]
  }

  /** The directories of the ancestors, root first. */
  function DirNames(ancestors: seq<Ancestor>): (r: seq<string>)
    ensures |r| == |ancestors|
    ensures forall i :: 0 <= i < |ancestors| ==> r[i] == DirName(ancestors[i])
  {
    if ancestors == [] then []
    else DirNames(ancestors[..|ancestors| - 1]) + [DirName(ancestors[|ancestors| - 1])]
  }

  /**
   * Where `get_issue_file_path` puts an issue: below the issues directory,
   * the owner, the repository, one directory per ancestor root first, and
   * the issue's file name last.
   */
  function IssueFilePath(base: Path, owner: string, repo: string, number: Option<nat>, title: string, ext: Extension,
                         closed: bool, ancestors: seq<Ancestor>): (r: Path)
    ensures |r| == |base| + 3 + |ancestors| && r[..|base|] == base
    ensures r[|base|] == owner && r[|base| + 1] == repo
    ensures forall i :: 0 <= i < |ancestors| ==> r[|base| + 2 + i] == DirName(ancestors[i])
    ensures r[|r| - 1] == FormatIssueFilename(number, title, ext, closed)
  {
    ProjectDir(base, owner, repo) + DirNames(ancestors) + [FormatIssueFilename(number, title, ext, closed)]
  }

  /** The project directory joined with one directory per ancestor, in order. */
  method AncestorDir(base: Path, owner: string, repo: string, ancestors: seq<Ancestor>) returns (path: Path)
    ensures path == ProjectDir(base, owner, repo) + DirNames(ancestors)
  {
    path := base + [owner] + [repo];
    for i := 0 to |ancestors|
      invariant path == ProjectDir(base, owner, repo) + DirNames(ancestors[..i])
    {
      DirNamesStep(ancestors, i);
      AppendAssoc(ProjectDir(base, owner, repo), DirNames(ancestors[..i]), [DirName(ancestors[i])]);
      path := path + [DirName(ancestors[i])];
    }
    assert ancestors[..|ancestors|] == ancestors;
  }

  lemma DirNamesStep(ancestors: seq<Ancestor>, i: nat)
    requires i < |ancestors|
    ensures DirNames(ancestors[..i + 1]) == DirNames(ancestors[..i]) + [DirName(ancestors[i])]
  {
    assert ancestors[..i + 1][..i] == ancestors[..i];
  }

  /** `get_issue_file_path`. */
  method GetIssueFilePath(base: Path, owner: string, repo: string, number: Option<nat>, title: string, ext: Extension,
                          closed: bool, ancestors: seq<Ancestor>) returns (path: Path)
    ensures path == IssueFilePath(base, owner, repo, number, title, ext, closed, ancestors)
    ensures |path| == |base| + 3 + |ancestors|
  {
    path := AncestorDir(base, owner, repo, ancestors);
    path := path + [FormatIssueFilename(number, title, ext, closed)];
  }

  /** `extract_owner_repo_from_path`: the first two components below the issues directory. */
  function ExtractOwnerRepo(base: Path, path: Path): (r: Result<(string, string), PathError>)
    ensures r.Ok? <==> |path| >= |base| + 2 && path[..|base|] == base
    ensures r.Ok? ==> r.value == (path[|base|], path[|base| + 1])
    ensures r == Err(NotInIssuesDir) <==> !(|base| <= |path| && path[..|base|] == base)
  {
    if !(|base| <= |path| && path[..|base|] == base) then Err(NotInIssuesDir)
    else
      var rel := path[|base|..];
      if |rel| == 0 then Err(NoOwner)
      else if |rel| == 1 then Err(NoRepo)
      else Ok((rel[0], rel[1]))
  }

  /** Anything under a project directory belongs to that owner and repository. */
  lemma OwnerRepoOfProject(base: Path, owner: string, repo: string, rest: Path)
    ensures ExtractOwnerRepo(base, ProjectDir(base, owner, repo) + rest) == Ok((owner, repo))
  {
    var p := ProjectDir(base, owner, repo) + rest;
    assert p[..|base|] == base;
    assert p[|base|] == owner && p[|base| + 1] == repo;
  }

  /** The owner and repository are read back from every issue file path. */
  lemma OwnerRepoRoundTrip(base: Path, owner: string, repo: string, number: Option<nat>, title: string, ext: Extension,
                           closed: bool, ancestors: seq<Ancestor>)
    ensures ExtractOwnerRepo(base, IssueFilePath(base, owner, repo, number, title, ext, closed, ancestors)) == Ok((owner, repo))
  {
    var rest := DirNames(ancestors) + [FormatIssueFilename(number, title, ext, closed)];
    assert IssueFilePath(base, owner, repo, number, title, ext, closed, ancestors) == ProjectDir(base, owner, repo) + rest;
    OwnerRepoOfProject(base, owner, repo, rest);
  }

  // ---------------------------------------------------------------------
  // Finding a sub-issue's file

  /** The index of the first plain file whose name `accept` takes. */
  function FirstFileFrom(entries: seq<Entry>, accept: string -> bool, k: nat): (r: Option<nat>)
    requires k <= |entries|
    decreases |entries| - k
    ensures r.Some? ==> k <= r.value < |entries| && entries[r.value].isFile && accept(entries[r.value].name)
    ensures r.Some? ==> forall j :: k <= j < r.value ==> !(entries[j].isFile && accept(entries[j].name))
    ensures r.None? ==> forall j :: k <= j < |entries| ==> !(entries[j].isFile && accept(entries[j].name))
  {
    if k == |entries| then None
    else if entries[k].isFile && accept(entries[k].name) then Some(k)
    else FirstFileFrom(entries, accept, k + 1)
  }

  /** The prefix `find_sub_issue_file` looks for: `{number}_-_`. */
  function SubIssuePrefix(number: nat): string {
    NatToString(number) + SEP
  }

  /**
   * `find_sub_issue_file`, given the listing of the directory (`None` when it
   * is missing or unreadable): a file found is a listed plain file of `dir`
   * named `{number}_-_…`, and nothing is found only when no listed plain file
   * has that name.
   */
  function FindSubIssueFileSpec(dir: Path, number: nat, listing: Option<seq<Entry>>): (r: Option<Path>)
    ensures listing.None? ==> r.None?
    ensures r.Some? ==>
      && listing.Some? && |r.value| == |dir| + 1 && r.value[..|dir|] == dir
      && StartsWith(r.value[|dir|], SubIssuePrefix(number)) && Entry(r.value[|dir|], true) in listing.value
    ensures r.None? && listing.Some? ==>
      forall j :: 0 <= j < |listing.value| ==> !(listing.value[j].isFile && StartsWith(listing.value[j].name, SubIssuePrefix(number)))
  {
    match listing
      case None => None
      case Some(entries) =>
        match FirstFileFrom(entries, name => StartsWith(name, SubIssuePrefix(number)), 0)
          case None => None
          case Some(i) => Some(dir + [entries[i].name])
  }

  /** `find_sub_issue_file`: the first plain file of the ancestors' directory named `{number}_-_…`. */
  method FindSubIssueFile(base: Path, owner: string, repo: string, ancestors: seq<Ancestor>, number: nat,
                          listing: Option<seq<Entry>>) returns (r: Option<Path>)
    ensures r == FindSubIssueFileSpec(ProjectDir(base, owner, repo) + DirNames(ancestors), number, listing)
  {
    var dir := AncestorDir(base, owner, repo, ancestors);
    if listing.None? {
      return None;
    }
    var entries := listing.value;
    var prefix := SubIssuePrefix(number);
    ghost var accept := name => StartsWith(name, SubIssuePrefix(number));
    var k := 0;
    while k < |entries|
      invariant k <= |entries|
      invariant FirstFileFrom(entries, accept, 0) == FirstFileFrom(entries, accept, k)
    {
      if entries[k].isFile && StartsWith(entries[k].name, prefix) {
        assert FirstFileFrom(entries, accept, k) == Some(k);
        return Some(dir + [entries[k].name]);
      }
      k := k + 1;
    }
    return None;
  }

  /** A numbered file name starts with `{number}_-_` exactly when its sanitised title is not empty. */
  lemma SubIssuePrefixIff(n: nat, title: string, ext: Extension, closed: bool)
    ensures StartsWith(FormatIssueFilename(Some(n), title, ext, closed), SubIssuePrefix(n)) <==> SanitizeTitle(title) != []
  {
    var s := SanitizeTitle(title);
    var d := NatToString(n);
    var name := FormatIssueFilename(Some(n), title, ext, closed);
    if s != [] {
      NumberedSplit(n, s, ext, closed);
      TailShape(s, ext, closed);
      StartsAssoc(d, SEP, TailRest(s, ext, closed));
    } else {
      NumberedShape(n, s, ext, closed);
      PartsOf(d, SEP);
      DiffersAt(name, SubIssuePrefix(n), |d|);
    }
  }

  /**
   * As written, the file of a sub-issue whose title sanitises to nothing,
   * named `{number}.ext`, is not found even when it is the only file there.
   */
  lemma EmptyTitleFileNotFound(dir: Path, n: nat, title: string, ext: Extension, closed: bool)
    requires SanitizeTitle(title) == []
    ensures FindSubIssueFileSpec(dir, n, Some([Entry(FormatIssueFilename(Some(n), title, ext, closed), true)])) == None
  {
    SubIssuePrefixIff(n, title, ext, closed);
  }

  /** The names a numbered issue's file can have: `{number}_-_…` or `{number}.…`. */
  predicate IsFileOf(name: string, number: nat) {
    StartsWith(name, NatToString(number) + SEP) || StartsWith(name, NatToString(number) + DOT)
  }

  /** The lookup that also accepts the `{number}.ext` form. */
  function FindSubIssueFileFixed(dir: Path, number: nat, listing: Option<seq<Entry>>): Option<Path> {
    match listing
      case None => None
      case Some(entries) =>
        match FirstFileFrom(entries, name => IsFileOf(name, number), 0)
          case None => None
          case Some(i) => Some(dir + [entries[i].name])
  }

  lemma LeadingOfPrefixed(d: string, x: string, name: string)
    requires AllDigits(d) && x != [] && !IsDigit(x[0]) && StartsWith(name, d + x)
    ensures LeadingDigits(name) == d
  {
    assert name == d + name[|d|..];
    assert name[|d|] == x[0];
    LeadingDigitsConcat(d, name[|d|..]);
  }

  /** A file the naming scheme writes for issue `m` is a file of issue `n` exactly when `m == n`. */
  lemma FileOfIff(m: nat, n: nat, title: string, ext: Extension, closed: bool)
    ensures IsFileOf(FormatIssueFilename(Some(m), title, ext, closed), n) <==> m == n
  {
    var name := FormatIssueFilename(Some(m), title, ext, closed);
    NumberRecovered(m, title, ext, closed);
    if IsFileOf(name, n) {
      if StartsWith(name, NatToString(n) + SEP) {
        LeadingOfPrefixed(NatToString(n), SEP, name);
      } else {
        LeadingOfPrefixed(NatToString(n), DOT, name);
      }
    }
    if m == n {
      OwnFileOf(n, SanitizeTitle(title), ext, closed);
    }
  }

  lemma OwnFileOf(n: nat, s: string, ext: Extension, closed: bool)
    ensures IsFileOf(FileName(Some(n), s, ext, closed), n)
  {
    NumberedSplit(n, s, ext, closed);
    TailShape(s, ext, closed);
    StartsAssoc(NatToString(n), if s == [] then DOT else SEP, TailRest(s, ext, closed));
  }

  /** The corrected lookup finds an issue's file whatever its title, and only files of that issue's number. */
  lemma FixedFindsWrittenFile(dir: Path, entries: seq<Entry>, k: nat, n: nat, title: string, ext: Extension, closed: bool)
    requires k < |entries| && entries[k] == Entry(FormatIssueFilename(Some(n), title, ext, closed), true)
    ensures FindSubIssueFileFixed(dir, n, Some(entries)).Some?
    ensures var r := FindSubIssueFileFixed(dir, n, Some(entries));
      exists i :: 0 <= i <= k && r.value == dir + [entries[i].name] && IsFileOf(entries[i].name, n)
  {
    FileOfIff(n, n, title, ext, closed);
    var accept := name => IsFileOf(name, n);
    var f := FirstFileFrom(entries, accept, 0);
    assert accept(entries[k].name);
    assert f.Some?;
    assert f.value <= k;
  }

  // ---------------------------------------------------------------------
  // A sub-issue's body

  function StripTab(line: string): string {
    if StartsWith(line, TAB) then line[1..] else line
  }

  function AddTab(line: string): string {
    TAB + line
  }

  /**
   * `read_sub_issue_body_from_file`, given the file's contents (`None` when
   * it cannot be read): the lines after the title, each with one leading
   * tab removed, joined and trimmed; nothing when that is empty.
   */
  function ReadSubIssueBody(contents: Option<string>): (r: Option<string>)
    ensures r.Some? ==> r.value != [] && IsTrimmed(r.value)
  {
    match contents
      case None => None
      case Some(c) =>
        var lines := Lines(c);
        if lines == [] then None
        else
          var body := Trim(Join(MapSeq(lines[1..], StripTab), NEWLINE));
          TrimIsTrimmed(Join(MapSeq(lines[1..], StripTab), NEWLINE));
          if body == [] then None else Some(body)
  }

  lemma {:induction false} JoinCons(x: string, xs: seq<string>, sep: string)
    requires xs != []
    ensures Join([x] + xs, sep) == x + sep + Join(xs, sep)
  {
    assert ([x] + xs)[1..] == xs;
  }

  /**
   * A file written as a title line followed by the body's lines indented
   * one tab reads back as that body, whenever the body is non-empty and
   * trimmed.
   */
  lemma ReadBodyRoundTrip(title: string, body: seq<string>)
    requires '\n' !in title && body != []
    requires forall i :: 0 <= i < |body| ==> '\n' !in body[i]
    requires Join(body, NEWLINE) != [] && IsTrimmed(Join(body, NEWLINE))
    ensures ReadSubIssueBody(Some(title + NEWLINE + Join(MapSeq(body, AddTab), NEWLINE))) == Some(Join(body, NEWLINE))
  {
    var tabbed := MapSeq(body, AddTab);
    TabbedLines(title, body);
    StripTabbed(body);
    TrimmedIsFixed(Join(body, NEWLINE));
  }

  /** The lines of the written file are the title and the tabbed body lines. */
  lemma TabbedLines(title: string, body: seq<string>)
    requires '\n' !in title && body != []
    requires forall i :: 0 <= i < |body| ==> '\n' !in body[i]
    ensures Lines(title + NEWLINE + Join(MapSeq(body, AddTab), NEWLINE))[1..] == MapSeq(body, AddTab)
  {
    var tabbed := MapSeq(body, AddTab);
    var all := [title] + tabbed;
    JoinCons(title, tabbed, NEWLINE);
    forall i | 0 <= i < |all| ensures '\n' !in all[i] {
      if i > 0 {
        assert all[i] == TAB + body[i - 1];
      }
    }
    LinesJoin(all);
    assert all[1..] == tabbed;
  }

  /** Removing the tab that was added gives every body line back. */
  lemma StripTabbed(body: seq<string>)
    ensures MapSeq(MapSeq(body, AddTab), StripTab) == body
  {
    var tabbed := MapSeq(body, AddTab);
    forall i | 0 <= i < |tabbed| ensures StripTab(tabbed[i]) == body[i] {
      assert tabbed[i] == TAB + body[i];
      StartsWithConcat(TAB, body[i]);
    }
  }

  // ---------------------------------------------------------------------
  // The search filter

  /**
   * The per-file test of `search_issue_files`: an issue file whose name or
   * path contains the pattern, compared in lower case (an empty pattern
   * matches every issue file).
   */
  predicate SearchMatches(name: string, path: string, pattern: string) {
    var p := Lower(pattern);
    IsIssueFileName(name) && (p == [] || Contains(Lower(name), p) || Contains(Lower(path), p))
  }

  /** With an empty pattern the search lists exactly the issue files. */
  lemma EmptyPatternListsIssueFiles(name: string, path: string)
    ensures SearchMatches(name, path, []) <==> IsIssueFileName(name)
  {
    assert Lower([]) == [];
  }

  /** Every file the naming scheme writes is found by a search for its own name. */
  lemma SearchFindsWrittenFile(number: Option<nat>, title: string, ext: Extension, closed: bool, path: string)
    requires FormatIssueFilename(number, title, ext, closed) != []
    ensures SearchMatches(FormatIssueFilename(number, title, ext, closed), path, FormatIssueFilename(number, title, ext, closed))
  {
    var name := FormatIssueFilename(number, title, ext, closed);
    FileNamesSearchable(number, title, ext, closed);
    assert OccursAt(Lower(name), Lower(name), 0);
    assert IndexOf(Lower(name), Lower(name)).Some?;
  }
}
