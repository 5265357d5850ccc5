/**
 * The decision rules of src/blocker/io.rs: which project files are urgent,
 * the workspace a relative path names, the ownership hierarchy shown in
 * front of the current blocker, which commands carry the urgent flag, the
 * resolution of a project pattern, and the lock that keeps the current
 * project on an urgent file. The file system is not part of this model:
 * whether a file exists, the projects a search finds and the choice made
 * in the fuzzy finder are parameters.
 */
module BlockerIo {
  import opened Wrappers
  import opened Strings
  import Indentation

  // ---------------------------------------------------------------------
  // Paths

  const URGENT_MD: string := "/urgent.md"
  const URGENT_TYP: string := "/urgent.typ"
  const MD_EXT: string := ".md"
  const TYP_EXT: string := ".typ"

  /** `is_urgent_file`: a workspace's urgent.md or urgent.typ. */
  predicate IsUrgentFile(path: string) {
    EndsWith(path, URGENT_MD) || EndsWith(path, URGENT_TYP)
  }

  /** Every workspace has its urgent files. */
  lemma WorkspaceUrgentFiles(workspace: string)
    ensures IsUrgentFile(workspace + URGENT_MD) && IsUrgentFile(workspace + URGENT_TYP)
  {
    assert (workspace + URGENT_MD)[|workspace|..] == URGENT_MD;
    assert (workspace + URGENT_TYP)[|workspace|..] == URGENT_TYP;
  }

  /** An urgent file always lies inside a workspace: a root-level urgent.md is not urgent. */
  lemma UrgentHasSlash(path: string)
    requires IsUrgentFile(path)
    ensures '/' in path
  {
    if EndsWith(path, URGENT_MD) {
      assert path[|path| - |URGENT_MD|] == '/';
    } else {
      assert path[|path| - |URGENT_TYP|] == '/';
    }
  }

  /** The path components, without the empty and "." ones that `Path` skips. */
  function Components(path: string): (r: seq<string>)
    ensures forall k :: 0 <= k < |r| ==> r[k] != [] && '/' !in r[k]
  {
    Named(Split(path, '/'))
  }

  function Named(parts: seq<string>): (r: seq<string>)
    requires forall k :: 0 <= k < |parts| ==> '/' !in parts[k]
    ensures forall k :: 0 <= k < |r| ==> r[k] != [] && '/' !in r[k]
  {
    if parts == [] then []
    else
      var init := Named(parts[..|parts| - 1]);
      var last := parts[|parts| - 1];
      if last == [] || last == "." then init else init + [last]
  }

  /** `Path::file_name`: the last component, unless it is "..". */
  function FileName(path: string): (r: Option<string>)
    ensures r.Some? ==> r.value != [] && '/' !in r.value
  {
    var cs := Components(path);
    if cs == [] || cs[|cs| - 1] == ".." then None else Some(cs[|cs| - 1])
  }

  /** The index of the last '.' in `s`. */
  function LastDot(s: string): (r: Option<nat>)
    ensures r.Some? ==> r.value < |s| && s[r.value] == '.' && '.' !in s[r.value + 1..]
    ensures r.None? ==> '.' !in s
  {
    if s == [] then None
    else if s[|s| - 1] == '.' then Some(|s| - 1)
    else
      var r := LastDot(s[..|s| - 1]);
      assert s == s[..|s| - 1] + [s[|s| - 1]];
      r
  }

  /**
   * `Path::file_stem`: the file name without its last extension; a name
   * whose only dot is its first character is kept whole.
   */
  function FileStem(path: string): (r: Option<string>)
    ensures r.Some? <==> FileName(path).Some?
    ensures r.Some? ==> r.value != [] && StartsWith(FileName(path).value, r.value)
  {
    match FileName(path)
      case None => None
      case Some(name) =>
        match LastDot(name)
          case Some(i) => if i == 0 then Some(name) else Some(name[..i])
          case None => Some(name)
  }

  /** `build_ownership_hierarchy`: the project's file stem when fully qualified, else nothing. */
  function OwnershipHierarchy(path: string, fullyQualified: bool): (r: seq<string>)
    ensures !fullyQualified ==> r == []
    ensures fullyQualified && FileStem(path).Some? ==> r == [FileStem(path).value]
    ensures |r| <= 1
  {
    if fullyQualified && FileStem(path).Some? then [FileStem(path).value] else []
  }

  /** The hierarchy of "workspace/project.md" is the project's name. */
  lemma HierarchyOfProjectFile(workspace: string, name: string)
    requires workspace != [] && '/' !in workspace && workspace != "."
    requires name != [] && '/' !in name && '.' !in name
    ensures OwnershipHierarchy(workspace + "/" + name + MD_EXT, true) == [name]
  {
    var file := name + MD_EXT;
    assert workspace + "/" + name + MD_EXT == workspace + "/" + file;
    assert FileName(workspace + "/" + file) == Some(file) by {
      TwoComponents(workspace, file);
    }
    assert LastDot(file) == Some(|name|) by {
      LastDotOfExt(name);
    }
    assert file[..|name|] == name;
  }

  lemma TwoComponents(workspace: string, file: string)
    requires workspace != [] && '/' !in workspace && workspace != "."
    requires file != [] && '/' !in file && file != "." && file != ".."
    ensures Components(workspace + "/" + file) == [workspace, file]
  {
    var path := workspace + "/" + file;
    assert Split(path, '/') == [workspace, file] by {
      assert path == Join([workspace, file], "/");
      SplitJoin([workspace, file], '/');
    }
    var parts := [workspace, file];
    assert parts[..1] == [workspace] && [workspace][..0] == [];
    assert Named(parts[..1]) == [workspace];
  }

  lemma {:induction false} LastDotOfExt(name: string)
    requires '.' !in name
    ensures LastDot(name + MD_EXT) == Some(|name|)
  {
    var a := name + ['.'];
    var b := a + ['m'];
    var c := b + ['d'];
    assert c == name + MD_EXT;
    assert LastDot(a) == Some(|name|);
    assert b[..|b| - 1] == a;
    assert LastDot(b) == LastDot(a);
    assert c[..|c| - 1] == b;
  }

  // ---------------------------------------------------------------------
  // Workspaces

  /** The number of '/' in the path. */
  function Slashes(path: string): nat {
    Indentation.Count(path, '/')
  }

  /** `parse_workspace_from_path`: at most one slash, whose left side is the workspace. */
  function ParseWorkspace(path: string): (r: Result<Option<string>, nat>)
    ensures r.Err? <==> Slashes(path) >= 2
    ensures r.Err? ==> r.error == Slashes(path)
    ensures r == Ok(None) <==> Slashes(path) == 0
  {
    var n := Slashes(path);
    if n == 0 then Ok(None)
    else if n == 1 then Ok(Some(Split(path, '/')[0]))
    else Err(n)
  }

  lemma {:induction false} CountJoin(a: string, b: string, c: char)
    ensures Indentation.Count(a + b, c) == Indentation.Count(a, c) + Indentation.Count(b, c)
    decreases |b|
  {
    if b != [] {
      assert (a + b)[..|a + b| - 1] == a + b[..|b| - 1];
      CountJoin(a, b[..|b| - 1], c);
    } else {
      assert a + b == a;
    }
  }

  lemma {:induction false} CountAbsent(s: string, c: char)
    requires c !in s
    ensures Indentation.Count(s, c) == 0
  {
    if s != [] {
      CountAbsent(s[..|s| - 1], c);
    }
  }

  /** A path "workspace/project" names its workspace. */
  lemma WorkspaceOfPath(workspace: string, project: string)
    requires '/' !in workspace && '/' !in project
    ensures ParseWorkspace(workspace + "/" + project) == Ok(Some(workspace))
  {
    var path := workspace + "/" + project;
    CountJoin(workspace + "/", project, '/');
    CountJoin(workspace, "/", '/');
    CountAbsent(workspace, '/');
    CountAbsent(project, '/');
    assert Indentation.Count("/", '/') == 1 by {
      assert "/"[..0] == [];
    }
    assert path == Join([workspace, project], "/");
    SplitJoin([workspace, project], '/');
  }

  /** A path without a slash names no workspace. */
  lemma NoWorkspace(path: string)
    requires '/' !in path
    ensures ParseWorkspace(path) == Ok(None)
  {
    CountAbsent(path, '/');
  }

  // ---------------------------------------------------------------------
  // Commands

  /** The blocker subcommands, with the fields the rules read. */
  datatype Command =
    | Add(name: string, project: Option<string>, urgent: bool, touch: bool)
    | Pop
    | List
    | Current(fullyQualified: bool)
    | Open(pattern: Option<string>, touch: bool, setAfter: bool, urgent: bool)
    | Set(setPattern: string, touch: bool)
    | Resume
    | Halt

  /** `command_has_urgent_flag`. */
  predicate HasUrgentFlag(command: Command) {
    match command
      case Add(_, _, urgent, _) => urgent
      case Open(_, _, _, urgent) => urgent
      case _ => false
  }

  /** Only `add` and `open` carry the urgent flag, and they carry it exactly when it is set. */
  lemma UrgentFlagIff(command: Command)
    ensures HasUrgentFlag(command) <==> (command.Add? || command.Open?) && command.urgent
  {
  }

  /**
   * `check_urgent_creation_allowed`, with the urgent file found on disk as
   * a parameter: creating one fails exactly when a different one exists.
   */
  function CheckUrgentCreation(existing: Option<string>, target: string): (r: Result<(), string>)
    ensures r.Err? <==> existing.Some? && existing.value != target
    ensures r.Err? ==> r.error == existing.value
  {
    if existing.Some? && existing.value != target then Err(existing.value) else Ok(())
  }

  // ---------------------------------------------------------------------
  // Resolving a project pattern

  datatype ResolveError = NoProjectsFound(pattern: string) | NoProjectSelected

  predicate HasProjectExt(pattern: string) {
    EndsWith(pattern, MD_EXT) || EndsWith(pattern, TYP_EXT)
  }

  /** The pattern the search runs with: without a ".md" or ".typ" suffix. */
  function SearchPattern(pattern: string): (r: string)
    ensures HasProjectExt(pattern) ==> |r| < |pattern|
    ensures !HasProjectExt(pattern) ==> r == pattern
  {
    if EndsWith(pattern, MD_EXT) then pattern[..|pattern| - |MD_EXT|]
    else if EndsWith(pattern, TYP_EXT) then pattern[..|pattern| - |TYP_EXT|]
    else pattern
  }

  /** The first match whose file name is the pattern. */
  function ExactMatch(matches: seq<string>, pattern: string): (r: Option<string>)
    ensures r.Some? ==> r.value in matches && FileName(r.value) == Some(pattern)
    ensures r.None? ==> forall k :: 0 <= k < |matches| ==> FileName(matches[k]) != Some(pattern)
  {
    if matches == [] then None
    else if FileName(matches[0]) == Some(pattern) then Some(matches[0])
    else ExactMatch(matches[1..], pattern)
  }

  /**
   * `resolve_project_path`. `matches` is what the search finds for
   * `SearchPattern(pattern)`, and `chosen` what the fuzzy finder returns
   * when there are several.
   */
  function ResolveProjectPath(pattern: string, touch: bool, matches: seq<string>, chosen: Option<string>): (r: Result<string, ResolveError>)
    ensures '/' in pattern ==> r == Ok(pattern)
    ensures '/' !in pattern && matches == [] && touch ==>
      r == Ok(if HasProjectExt(pattern) then pattern else pattern + MD_EXT)
    ensures '/' !in pattern && matches == [] && !touch ==> r == Err(NoProjectsFound(pattern))
    ensures '/' !in pattern && r.Ok? ==>
      r.value in matches || (matches == [] && touch) || (|matches| > 1 && chosen == Some(r.value))
  {
    if '/' in pattern then Ok(pattern)
    else
      var exact := if HasProjectExt(pattern) then ExactMatch(matches, pattern) else None;
      if exact.Some? then Ok(exact.value)
      else if |matches| == 0 then
        if touch then Ok(if HasProjectExt(pattern) then pattern else pattern + MD_EXT)
        else Err(NoProjectsFound(pattern))
      else if |matches| == 1 then Ok(matches[0])
      else match chosen
        case Some(c) => Ok(c)
        case None => Err(NoProjectSelected)
  }

  /** A pattern with an extension that names a match's file picks that match. */
  lemma ExactMatchWins(pattern: string, touch: bool, matches: seq<string>, chosen: Option<string>, k: nat)
    requires '/' !in pattern && HasProjectExt(pattern)
    requires k < |matches| && FileName(matches[k]) == Some(pattern)
    ensures var r := ResolveProjectPath(pattern, touch, matches, chosen);
      r.Ok? && r.value in matches && FileName(r.value) == Some(pattern)
  {
  }

  /** A touched pattern without a match becomes a new project file with an extension. */
  lemma TouchedPatternHasExt(pattern: string, chosen: Option<string>)
    requires '/' !in pattern
    ensures var r := ResolveProjectPath(pattern, true, [], chosen);
      r.Ok? && HasProjectExt(r.value)
  {
    if !HasProjectExt(pattern) {
      assert (pattern + MD_EXT)[|pattern|..] == MD_EXT;
    }
  }

  // ---------------------------------------------------------------------
  // The current project

  /**
   * The current project and the project saved before switching to an
   * urgent one: the two cache files `set_current_project` reads and writes.
   */
  class ProjectState {
    var current: Option<string>
    var preUrgent: Option<string>

    /** The saved pre-urgent project is never itself urgent. */
    ghost predicate Valid()
      reads this
    {
      preUrgent.Some? ==> !IsUrgentFile(preUrgent.value)
    }

    constructor()
      ensures current == None && preUrgent == None && Valid()
    {
      current := None;
      preUrgent := None;
    }

    /** Switching would leave an urgent project that still exists for a non-urgent one. */
    predicate LockedAgainst(resolved: string, urgentFileExists: bool)
      reads this
    {
      current.Some? && IsUrgentFile(current.value) && !IsUrgentFile(resolved) && urgentFileExists
    }

    /**
     * The state part of `set_current_project`. `urgentFileExists` says
     * whether the current project's file still exists. The result is the
     * path's error when it has two slashes or more, `false` when the switch
     * is refused, and `true` when the project was set.
     */
    method SetCurrentProject(resolved: string, urgentFileExists: bool) returns (r: Result<bool, nat>)
      requires Valid()
      modifies this
      ensures Valid()
      ensures ParseWorkspace(resolved).Err? ==> r.Err? && current == old(current) && preUrgent == old(preUrgent)
      ensures ParseWorkspace(resolved).Ok? && old(LockedAgainst(resolved, urgentFileExists)) ==>
        r == Ok(false) && current == old(current) && preUrgent == old(preUrgent)
      ensures ParseWorkspace(resolved).Ok? && !old(LockedAgainst(resolved, urgentFileExists)) ==>
        && r == Ok(true)
        && current == Some(resolved)
        && preUrgent == (if IsUrgentFile(resolved) && old(current).Some? && !IsUrgentFile(old(current).value)
                         then old(current) else old(preUrgent))
    {
      var ws := ParseWorkspace(resolved);
      if ws.Err? {
        return Err(ws.error);
      }
      if current.Some? && IsUrgentFile(current.value) && !IsUrgentFile(resolved) && urgentFileExists {
        return Ok(false);
      }
      if IsUrgentFile(resolved) && current.Some? && !IsUrgentFile(current.value) {
        preUrgent := current;
      }
      current := Some(resolved);
      return Ok(true);
    }
  }
}
