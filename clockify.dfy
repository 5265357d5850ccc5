/**
 * The name resolution of src/clockify.rs: deciding whether a text is
 * already a Clockify id, and picking a project, task, tag or workspace from
 * a fetched listing by name. The listings, and whether fetching an id
 * directly succeeded, are parameters; the HTTP requests are not part of
 * this model.
 */
module Clockify {
  import opened Wrappers
  import opened Strings

  /** A listed project, task or workspace: its id and its name. */
  datatype Named = Named(id: string, name: string)

  /** A listed tag; archived ones are dropped by `fetch_tags`. */
  datatype Tag = Tag(id: string, name: string, archived: bool)

  datatype ResolveError =
    | ProjectNotFound(input: string)
    | TaskNotFound(project: string, input: string)
    | TagIdNotFound(id: string)
    | TagNotFound(name: string)
    | WorkspaceNotFound(input: string)

  const DASH: char := '-'
  const COMMA: char := ','
  const HEX_ID_LENGTH: nat := 24
  /** The lengths of the five dash-separated groups of a UUID. */
  const UUID_GROUPS: seq<nat> := [8, 4, 4, 4, 12]

  // ---------------------------------------------------------------------
  // Ids

  predicate IsHexDigit(c: char) {
    '0' <= c <= '9' || 'a' <= c <= 'f' || 'A' <= c <= 'F'
  }

  /** Twenty-four hex digits. */
  predicate IsHex24(s: string) {
    |s| == HEX_ID_LENGTH && forall i :: 0 <= i < |s| ==> IsHexDigit(s[i])
  }

  /** Five dash-separated groups of 8, 4, 4, 4 and 12 characters, whatever the characters. */
  predicate IsUuidShape(s: string) {
    var parts := Split(s, DASH);
    |parts| == 5 && forall k :: 0 <= k < 5 ==> |parts[k]| == UUID_GROUPS[k]
  }

  /** `looks_like_id`. */
  predicate LooksLikeId(s: string) {
    IsHex24(s) || IsUuidShape(s)
  }

  /** Five groups joined by dashes are as long as the groups plus the four dashes. */
  lemma JoinFiveLength(parts: seq<string>)
    requires |parts| == 5
    ensures |Join(parts, [DASH])| == |parts[0]| + |parts[1]| + |parts[2]| + |parts[3]| + |parts[4]| + 4
  {
    var sep := [DASH];
    assert Join(parts[4..], sep) == parts[4];
    assert parts[3..][1..] == parts[4..];
    assert Join(parts[3..], sep) == parts[3] + sep + parts[4];
    assert parts[2..][1..] == parts[3..];
    assert Join(parts[2..], sep) == parts[2] + sep + Join(parts[3..], sep);
    assert parts[1..][1..] == parts[2..];
    assert Join(parts[1..], sep) == parts[1] + sep + Join(parts[2..], sep);
  }

  /** An id-like text is 24 or 36 characters long. */
  lemma IdLength(s: string)
    requires LooksLikeId(s)
    ensures |s| == HEX_ID_LENGTH || |s| == 36
  {
    if !IsHex24(s) {
      JoinFiveLength(Split(s, DASH));
    }
  }

  /** So a text of any other length, such as most names, is never taken for an id. */
  lemma OtherLengthIsName(s: string)
    requires |s| != HEX_ID_LENGTH && |s| != 36
    ensures !LooksLikeId(s)
  {
    if LooksLikeId(s) {
      IdLength(s);
    }
  }

  /** Five dash-free groups of the UUID lengths, joined by dashes, look like an id, hex or not. */
  lemma UuidShapeAccepted(parts: seq<string>)
    requires |parts| == 5
    requires forall k :: 0 <= k < 5 ==> DASH !in parts[k] && |parts[k]| == UUID_GROUPS[k]
    ensures LooksLikeId(Join(parts, [DASH]))
  {
    SplitJoin(parts, DASH);
  }

  /** A hex id is accepted whatever the case of its letters. */
  lemma HexIdAccepted(s: string)
    requires |s| == HEX_ID_LENGTH && forall i :: 0 <= i < |s| ==> IsHexDigit(s[i])
    ensures LooksLikeId(s)
  {
  }

  // ---------------------------------------------------------------------
  // Matching by name

  /** `iter().position(p)`: the first index whose item satisfies `p`. */
  function FindFirst(items: seq<Named>, p: Named -> bool): (r: Option<nat>)
    ensures r.Some? ==> r.value < |items| && p(items[r.value]) && forall j :: 0 <= j < r.value ==> !p(items[j])
    ensures r.None? ==> forall j :: 0 <= j < |items| ==> !p(items[j])
  {
    if items == [] then None
    else if p(items[0]) then Some(0)
    else match FindFirst(items[1..], p)
      case None => None
      case Some(i) => Some(i + 1)
  }

  /** The id of the first item satisfying `p`. */
  function FirstId(items: seq<Named>, p: Named -> bool): (r: Option<string>)
    ensures r.Some? ==> exists j :: 0 <= j < |items| && p(items[j]) && items[j].id == r.value
    ensures r.None? <==> forall j :: 0 <= j < |items| ==> !p(items[j])
  {
    match FindFirst(items, p)
      case None => None
      case Some(i) => Some(items[i].id)
  }

  predicate SameName(input: string, n: Named) { n.name == input }
  predicate SameNameIgnoringCase(input: string, n: Named) { EqIgnoreCase(n.name, input) }
  predicate NameContainsIgnoringCase(input: string, n: Named) { Contains(Lower(n.name), Lower(input)) }
  predicate LooseTaskName(input: string, n: Named) { EqIgnoreCase(n.name, input) || Contains(n.name, input) }

  /**
   * The project and workspace search: the first exact name, else the first
   * name equal ignoring ASCII case, else the first name containing the
   * input ignoring case.
   */
  function MatchByName(items: seq<Named>, input: string): Option<string> {
    match FirstId(items, n => SameName(input, n))
      case Some(id) => Some(id)
      case None =>
        match FirstId(items, n => SameNameIgnoringCase(input, n))
          case Some(id) => Some(id)
          case None => FirstId(items, n => NameContainsIgnoringCase(input, n))
  }

  /** The task and tag search: the first exact name, else the first name equal ignoring case or containing the input. */
  function MatchLoosely(items: seq<Named>, input: string): Option<string> {
    match FirstId(items, n => SameName(input, n))
      case Some(id) => Some(id)
      case None => FirstId(items, n => LooseTaskName(input, n))
  }

  /** The first exact name wins, wherever looser matches stand. */
  lemma ExactNameFirst(items: seq<Named>, input: string, k: nat)
    requires k < |items| && items[k].name == input
    requires forall j :: 0 <= j < k ==> items[j].name != input
    ensures MatchByName(items, input) == Some(items[k].id)
    ensures MatchLoosely(items, input) == Some(items[k].id)
  {
    var p := (n: Named) => SameName(input, n);
    var i := FindFirst(items, p);
    assert p(items[k]);
    assert i.Some?;
    assert i.value == k;
  }

  /** Without an exact name the first name equal ignoring case wins. */
  lemma IgnoringCaseSecond(items: seq<Named>, input: string, k: nat)
    requires forall j :: 0 <= j < |items| ==> items[j].name != input
    requires k < |items| && EqIgnoreCase(items[k].name, input)
    requires forall j :: 0 <= j < k ==> !EqIgnoreCase(items[j].name, input)
    ensures MatchByName(items, input) == Some(items[k].id)
  {
    var p := (n: Named) => SameName(input, n);
    var q := (n: Named) => SameNameIgnoringCase(input, n);
    assert FindFirst(items, p).None?;
    var i := FindFirst(items, q);
    assert q(items[k]);
    assert i.Some? && i.value == k;
  }

  /** Every text contains itself. */
  lemma ContainsSelf(s: string)
    ensures Contains(s, s)
  {
    ContainsAt(s, s, 0);
  }

  /** The project search fails exactly when no name contains the input, ignoring case. */
  lemma NotFoundIff(items: seq<Named>, input: string)
    ensures MatchByName(items, input).None? <==>
            forall j :: 0 <= j < |items| ==> !Contains(Lower(items[j].name), Lower(input))
  {
    forall j | 0 <= j < |items| && EqIgnoreCase(items[j].name, input)
      ensures Contains(Lower(items[j].name), Lower(input))
    {
      ContainsSelf(Lower(input));
    }
  }

  /** The task search fails exactly when no name equals the input ignoring case or contains it. */
  lemma LooseNotFoundIff(items: seq<Named>, input: string)
    ensures MatchLoosely(items, input).None? <==>
            forall j :: 0 <= j < |items| ==> !EqIgnoreCase(items[j].name, input) && !Contains(items[j].name, input)
  {
    forall j | 0 <= j < |items| && items[j].name == input
      ensures EqIgnoreCase(items[j].name, input)
    {
    }
  }

  // ---------------------------------------------------------------------
  // Resolution

  /**
   * `resolve_project`: an id-like input whose direct fetch succeeded
   * (`byId`) is kept; otherwise the name search runs over the search
   * results, and over the first page of all projects when the search
   * returned none.
   */
  function ResolveProject(input: string, byId: bool, searched: seq<Named>, firstPage: seq<Named>): (r: Result<string, ResolveError>)
    ensures r.Err? ==> r.error == ProjectNotFound(input)
    ensures r.Ok? && r.value != input ==> HasId(searched, r.value) || (searched == [] && HasId(firstPage, r.value))
  {
    if LooksLikeId(input) && byId then Ok(input)
    else match MatchByName(searched, input)
      case Some(id) => Ok(id)
      case None =>
        if searched == [] then
          match MatchByName(firstPage, input)
            case Some(id) => Ok(id)
            case None => Err(ProjectNotFound(input))
        else Err(ProjectNotFound(input))
  }

  /** `resolve_task`: as for projects, with the looser task search and no fallback listing. */
  function ResolveTask(projectId: string, input: string, byId: bool, tasks: seq<Named>): (r: Result<string, ResolveError>)
    ensures r.Err? ==> r.error == TaskNotFound(projectId, input)
    ensures r.Ok? && r.value != input ==> HasId(tasks, r.value)
  {
    if LooksLikeId(input) && byId then Ok(input)
    else match MatchLoosely(tasks, input)
      case Some(id) => Ok(id)
      case None => Err(TaskNotFound(projectId, input))
  }

  /** `resolve_workspace`: an id-like input is returned as it is, without any lookup. */
  function ResolveWorkspace(input: string, workspaces: seq<Named>): (r: Result<string, ResolveError>)
    ensures LooksLikeId(input) ==> r == Ok(input)
    ensures r.Err? <==> !LooksLikeId(input) && MatchByName(workspaces, input).None?
  {
    if LooksLikeId(input) then Ok(input)
    else match MatchByName(workspaces, input)
      case Some(id) => Ok(id)
      case None => Err(WorkspaceNotFound(input))
  }

  /** The search results are used alone when they are not empty, even when the first page would match. */
  lemma FallbackOnlyWhenEmpty(input: string, byId: bool, searched: seq<Named>, firstPage: seq<Named>)
    requires searched != []
    ensures ResolveProject(input, byId, searched, firstPage) == ResolveProject(input, byId, searched, [])
  {
  }

  /** An id-like project whose direct fetch failed is searched for by name like any other input. */
  lemma FailedIdSearchedByName(input: string, searched: seq<Named>, firstPage: seq<Named>)
    ensures ResolveProject(input, false, searched, firstPage) ==
            match MatchByName(searched, input)
              case Some(id) => Ok(id)
              case None =>
                if searched == [] && MatchByName(firstPage, input).Some? then Ok(MatchByName(firstPage, input).value)
                else Err(ProjectNotFound(input))
  {
  }

  // ---------------------------------------------------------------------
  // Tags

  /** One piece as `resolve_tags` keeps it: trimmed, or dropped when that leaves nothing. */
  function KeptPiece(w: string): (r: seq<string>)
    ensures |r| <= 1
    ensures r == [] <==> Trim(w) == []
    ensures r != [] ==> r[0] == Trim(w) && IsTrimmed(r[0])
  {
    TrimIsTrimmed(w);
    if Trim(w) == [] then [] else [Trim(w)]
  }

  /** The pieces, trimmed, without the empty ones. */
  function TrimmedNonEmpty(parts: seq<string>): (r: seq<string>)
    ensures |r| <= |parts|
    ensures forall k :: 0 <= k < |r| ==> r[k] != [] && IsTrimmed(r[k])
  {
    if parts == [] then []
    else KeptPiece(parts[0]) + TrimmedNonEmpty(parts[1..])
  }

  /** Trimming and dropping empty pieces works piece by piece, so the order of the pieces is kept. */
  lemma {:induction false} TrimmedNonEmptyAppend(a: seq<string>, b: seq<string>)
    ensures TrimmedNonEmpty(a + b) == TrimmedNonEmpty(a) + TrimmedNonEmpty(b)
  {
    if a != [] {
      assert (a + b)[1..] == a[1..] + b;
      TrimmedNonEmptyAppend(a[1..], b);
    } else {
      assert a + b == b;
    }
  }

  /** Every piece that is not blank is among the kept ones, trimmed. */
  lemma {:induction false} TrimmedNonEmptyKeeps(parts: seq<string>, j: nat)
    requires j < |parts| && Trim(parts[j]) != []
    ensures Trim(parts[j]) in TrimmedNonEmpty(parts)
  {
    assert parts == parts[..j] + [parts[j]] + parts[j + 1..];
    TrimmedNonEmptyAppend(parts[..j] + [parts[j]], parts[j + 1..]);
    TrimmedNonEmptyAppend(parts[..j], [parts[j]]);
    assert TrimmedNonEmpty([parts[j]]) == KeptPiece(parts[j]) + TrimmedNonEmpty([]);
  }

  /** Every kept piece is some piece, trimmed. */
  lemma {:induction false} TrimmedNonEmptyFrom(parts: seq<string>, k: nat)
    requires k < |TrimmedNonEmpty(parts)|
    ensures exists j :: 0 <= j < |parts| && TrimmedNonEmpty(parts)[k] == Trim(parts[j])
  {
    var p := KeptPiece(parts[0]);
    if k < |p| {
      assert TrimmedNonEmpty(parts)[k] == Trim(parts[0]);
    } else {
      TrimmedNonEmptyFrom(parts[1..], k - |p|);
      var j :| 0 <= j < |parts[1..]| && TrimmedNonEmpty(parts[1..])[k - |p|] == Trim(parts[1..][j]);
      assert TrimmedNonEmpty(parts)[k] == Trim(parts[j + 1]);
    }
  }

  /** The tags asked for: the comma-separated pieces, trimmed, without empty ones. */
  function Wanted(input: string): seq<string> {
    TrimmedNonEmpty(Split(input, COMMA))
  }

  /** The texts satisfying `p`, in order. */
  function Keep(ws: seq<string>, p: string -> bool): (r: seq<string>)
    ensures |r| <= |ws|
    ensures forall k :: 0 <= k < |r| ==> p(r[k]) && r[k] in ws
    ensures forall w :: w in ws && p(w) ==> w in r
  {
    if ws == [] then []
    else
      var prev := Keep(ws[..|ws| - 1], p);
      var w := ws[|ws| - 1];
      assert forall x :: x in ws[..|ws| - 1] ==> x in ws;
      assert forall x :: x in ws ==> x in ws[..|ws| - 1] || x == w by {
        assert ws == ws[..|ws| - 1] + [w];
      }
      if p(w) then prev + [w] else prev
  }

  /** Keeping works element by element, so the kept texts stay in the order they came. */
  lemma {:induction false} KeepAppend(a: seq<string>, b: seq<string>, p: string -> bool)
    ensures Keep(a + b, p) == Keep(a, p) + Keep(b, p)
  {
    if b == [] {
      assert a + b == a;
    } else {
      assert (a + b)[..|a + b| - 1] == a + b[..|b| - 1];
      KeepAppend(a, b[..|b| - 1], p);
    }
  }

  /** One text is kept exactly when it satisfies `p`. */
  lemma KeepOne(w: string, p: string -> bool)
    ensures Keep([w], p) == if p(w) then [w] else []
  {
    assert [w][..0] == [];
  }

  /** `fetch_tags` keeps the tags that are not archived. */
  function ActiveTags(tags: seq<Tag>): (r: seq<Named>)
    ensures |r| <= |tags|
    ensures forall j :: 0 <= j < |tags| && !tags[j].archived ==> Named(tags[j].id, tags[j].name) in r
  {
    if tags == [] then []
    else
      var prev := ActiveTags(tags[..|tags| - 1]);
      var t := tags[|tags| - 1];
      assert forall j :: 0 <= j < |tags| - 1 ==> tags[j] == tags[..|tags| - 1][j];
      if t.archived then prev else prev + [Named(t.id, t.name)]
  }

  /** Every listed tag is an unarchived tag, with its id and name. */
  lemma {:induction false} ActiveTagsFrom(tags: seq<Tag>, k: nat)
    requires k < |ActiveTags(tags)|
    ensures exists j :: 0 <= j < |tags| && !tags[j].archived && ActiveTags(tags)[k] == Named(tags[j].id, tags[j].name)
  {
    var init := tags[..|tags| - 1];
    var t := tags[|tags| - 1];
    if k < |ActiveTags(init)| {
      ActiveTagsFrom(init, k);
      var j :| 0 <= j < |init| && !init[j].archived && ActiveTags(init)[k] == Named(init[j].id, init[j].name);
      assert tags[j] == init[j];
    } else {
      assert ActiveTags(tags)[k] == Named(t.id, t.name);
    }
  }

  /** The filter works tag by tag, so the unarchived tags stay in their order. */
  lemma {:induction false} ActiveTagsAppend(a: seq<Tag>, b: seq<Tag>)
    ensures ActiveTags(a + b) == ActiveTags(a) + ActiveTags(b)
  {
    if b == [] {
      assert a + b == a;
    } else {
      assert (a + b)[..|a + b| - 1] == a + b[..|b| - 1];
      ActiveTagsAppend(a, b[..|b| - 1]);
    }
  }

  /** One tag is listed exactly when it is not archived. */
  lemma ActiveTagsOne(t: Tag)
    ensures ActiveTags([t]) == if t.archived then [] else [Named(t.id, t.name)]
  {
    assert [t][..0] == [];
  }

  predicate HasId(all: seq<Named>, id: string) {
    exists j :: 0 <= j < |all| && all[j].id == id
  }

  /** The first id-like tag that no listed tag has, in the order they were asked for. */
  function MissingId(ids: seq<string>, all: seq<Named>): (r: Option<string>)
    ensures r.None? <==> forall k :: 0 <= k < |ids| ==> HasId(all, ids[k])
    ensures r.Some? ==> r.value in ids && !HasId(all, r.value)
  {
    if ids == [] then None
    else if !HasId(all, ids[0]) then Some(ids[0])
    else
      var rest := MissingId(ids[1..], all);
      assert forall x :: x in ids[1..] ==> x in ids;
      rest
  }

  /** The ids of the named tags in order, or the first name with no match. */
  function ResolveNames(names: seq<string>, all: seq<Named>): (r: Result<seq<string>, ResolveError>)
    ensures r.Ok? ==> |r.value| == |names| && forall k :: 0 <= k < |r.value| ==> HasId(all, r.value[k])
    ensures r.Err? ==> r.error.TagNotFound? && r.error.name in names && MatchLoosely(all, r.error.name).None?
  {
    if names == [] then Ok([])
    else match MatchLoosely(all, names[0])
      case None => Err(TagNotFound(names[0]))
      case Some(id) =>
        match ResolveNames(names[1..], all)
          case Err(e) =>
            assert forall x :: x in names[1..] ==> x in names;
            Err(e)
          case Ok(rest) => Ok([id] + rest)
  }

  /**
   * `resolve_tags`: no tags for an input with no names in it; otherwise the
   * id-like tags must all be listed, and are followed by the ids the other
   * names resolve to.
   */
  function ResolveTagsSpec(input: string, tags: seq<Tag>): Result<seq<string>, ResolveError> {
    var wanted := Wanted(input);
    if wanted == [] then Ok([])
    else
      var ids := Keep(wanted, LooksLikeId);
      var names := Keep(wanted, w => !LooksLikeId(w));
      var all := ActiveTags(tags);
      match MissingId(ids, all)
        case Some(id) => Err(TagIdNotFound(id))
        case None =>
          match ResolveNames(names, all)
            case Err(e) => Err(e)
            case Ok(found) => Ok(ids + found)
  }

  /** `resolve_tags`, with its sorting loop and its two checking loops. */
  method ResolveTags(input: string, tags: seq<Tag>) returns (r: Result<seq<string>, ResolveError>)
    ensures r == ResolveTagsSpec(input, tags)
  {
    var wanted := Wanted(input);
    if wanted == [] {
      return Ok([]);
    }
    var ids, names := SortWanted(wanted);
    var all := ActiveTags(tags);
    if ids != [] {
      var missing := CheckIds(ids, all);
      if missing.Some? {
        return Err(TagIdNotFound(missing.value));
      }
    } else {
      assert MissingId(ids, all).None?;
    }
    var found := ResolveNamed(names, all);
    match found {
      case Err(e) => r := Err(e);
      case Ok(f) => r := Ok(ids + f);
    }
  }

  /** The first loop: id-like tags to one list, the others to the other, each in order. */
  method SortWanted(wanted: seq<string>) returns (ids: seq<string>, names: seq<string>)
    ensures ids == Keep(wanted, LooksLikeId)
    ensures names == Keep(wanted, w => !LooksLikeId(w))
  {
    ids, names := [], [];
    for i := 0 to |wanted|
      invariant ids == Keep(wanted[..i], LooksLikeId)
      invariant names == Keep(wanted[..i], w => !LooksLikeId(w))
    {
      assert wanted[..i + 1][..i] == wanted[..i];
      if LooksLikeId(wanted[i]) {
        ids := ids + [wanted[i]];
      } else {
        names := names + [wanted[i]];
      }
    }
    assert wanted[..|wanted|] == wanted;
  }

  /** The second loop: the first id that no listed tag has. */
  method CheckIds(ids: seq<string>, all: seq<Named>) returns (missing: Option<string>)
    ensures missing == MissingId(ids, all)
  {
    for i := 0 to |ids|
      invariant MissingId(ids, all) == MissingId(ids[i..], all)
    {
      var present := false;
      for j := 0 to |all|
        invariant present <==> exists k :: 0 <= k < j && all[k].id == ids[i]
      {
        if all[j].id == ids[i] {
          present := true;
        }
      }
      if !present {
        return Some(ids[i]);
      }
      assert ids[i..][1..] == ids[i + 1..];
    }
    assert ids[|ids|..] == [];
    missing := None;
  }

  /** The third loop: each name's id in turn, stopping at the first name with no match. */
  method ResolveNamed(names: seq<string>, all: seq<Named>) returns (r: Result<seq<string>, ResolveError>)
    ensures r == ResolveNames(names, all)
  {
    var found: seq<string> := [];
    assert names[0..] == names;
    assert ResolveAfter([], ResolveNames(names, all)) == ResolveNames(names, all) by {
      if ResolveNames(names, all).Ok? {
        assert [] + ResolveNames(names, all).value == ResolveNames(names, all).value;
      }
    }
    for i := 0 to |names|
      invariant ResolveNames(names, all) == ResolveAfter(found, ResolveNames(names[i..], all))
    {
      var id := MatchLoosely(all, names[i]);
      assert names[i..][0] == names[i];
      if id.None? {
        return Err(TagNotFound(names[i]));
      }
      ResolveAfterStep(found, names[i..], all);
      assert names[i..][1..] == names[i + 1..];
      found := found + [id.value];
    }
    assert names[|names|..] == [] && found + [] == found;
    r := Ok(found);
  }

  /** The ids found so far, in front of what the remaining names give. */
  function ResolveAfter(found: seq<string>, rest: Result<seq<string>, ResolveError>): Result<seq<string>, ResolveError> {
    match rest
      case Err(e) => Err(e)
      case Ok(more) => Ok(found + more)
  }

  /** One more resolved name moves from the remaining names to the ids found. */
  lemma ResolveAfterStep(found: seq<string>, names: seq<string>, all: seq<Named>)
    requires names != [] && MatchLoosely(all, names[0]).Some?
    ensures ResolveAfter(found, ResolveNames(names, all)) ==
            ResolveAfter(found + [MatchLoosely(all, names[0]).value], ResolveNames(names[1..], all))
  {
    var rest := ResolveNames(names[1..], all);
    if rest.Ok? {
      AppendAssoc(found, [MatchLoosely(all, names[0]).value], rest.value);
    }
  }

  /** Whitespace-only pieces leave nothing behind. */
  lemma {:induction false} BlankPiecesDropped(parts: seq<string>)
    requires forall k :: 0 <= k < |parts| ==> AllWhitespace(parts[k])
    ensures TrimmedNonEmpty(parts) == []
  {
    if parts != [] {
      TrimIsTrimmed(parts[0]);
      assert KeptPiece(parts[0]) == [];
      BlankPiecesDropped(parts[1..]);
    }
  }

  /** Every character of a piece is a character of the joined text. */
  lemma {:induction false} JoinHasPieceChars(parts: seq<string>, sep: string, k: nat, x: char)
    requires k < |parts| && x in parts[k]
    ensures x in Join(parts, sep)
  {
    if |parts| > 1 {
      if k > 0 {
        JoinHasPieceChars(parts[1..], sep, k - 1, x);
      }
    }
  }

  /** An input of only commas and whitespace asks for no tags, whatever is listed. */
  lemma NoNamesNoTags(input: string, tags: seq<Tag>)
    requires forall i :: 0 <= i < |input| ==> input[i] == COMMA || IsWhitespace(input[i])
    ensures ResolveTagsSpec(input, tags) == Ok([])
  {
    var parts := Split(input, COMMA);
    forall k | 0 <= k < |parts|
      ensures AllWhitespace(parts[k])
    {
      forall i | 0 <= i < |parts[k]|
        ensures IsWhitespace(parts[k][i])
      {
        JoinHasPieceChars(parts, [COMMA], k, parts[k][i]);
      }
    }
    BlankPiecesDropped(parts);
  }

  /** A successful resolution of some names: every id-like tag is listed, every name matched, ids first. */
  lemma ResolvedParts(input: string, tags: seq<Tag>)
    requires ResolveTagsSpec(input, tags).Ok? && Wanted(input) != []
    ensures var ids := Keep(Wanted(input), LooksLikeId);
            var found := ResolveNames(Keep(Wanted(input), w => !LooksLikeId(w)), ActiveTags(tags));
            && MissingId(ids, ActiveTags(tags)).None? && found.Ok?
            && ResolveTagsSpec(input, tags).value == ids + found.value
  {
  }

  /** A successful resolution gives one id per tag asked for, the id-like ones first and unchanged. */
  lemma OneIdPerTag(input: string, tags: seq<Tag>)
    requires ResolveTagsSpec(input, tags).Ok?
    ensures var ids := Keep(Wanted(input), LooksLikeId);
            var r := ResolveTagsSpec(input, tags).value;
            |r| == |ids| + |Keep(Wanted(input), w => !LooksLikeId(w))| && ids <= r
  {
    if Wanted(input) != [] {
      ResolvedParts(input, tags);
    }
  }

  /** Every id a resolution returns is the id of a tag that is not archived. */
  lemma ResolvedIdsListed(input: string, tags: seq<Tag>)
    requires ResolveTagsSpec(input, tags).Ok?
    ensures var r := ResolveTagsSpec(input, tags).value;
            forall k :: 0 <= k < |r| ==> HasId(ActiveTags(tags), r[k])
  {
    if Wanted(input) != [] {
      ResolvedParts(input, tags);
      var all := ActiveTags(tags);
      ListedConcat(all, Keep(Wanted(input), LooksLikeId),
                   ResolveNames(Keep(Wanted(input), w => !LooksLikeId(w)), all).value);
    }
  }

  /** Two lists of listed ids make one. */
  lemma ListedConcat(all: seq<Named>, a: seq<string>, b: seq<string>)
    requires forall k :: 0 <= k < |a| ==> HasId(all, a[k])
    requires forall k :: 0 <= k < |b| ==> HasId(all, b[k])
    ensures forall k :: 0 <= k < |a + b| ==> HasId(all, (a + b)[k])
  {
    forall k | 0 <= k < |a + b| ensures HasId(all, (a + b)[k]) {
      if k < |a| {
        assert (a + b)[k] == a[k];
      } else {
        assert (a + b)[k] == b[k - |a|];
      }
    }
  }

  /** An id-like tag that no listed tag has is an error, before any name is looked up. */
  lemma UnknownIdRejected(input: string, tags: seq<Tag>, k: nat)
    requires k < |Keep(Wanted(input), LooksLikeId)|
    requires !HasId(ActiveTags(tags), Keep(Wanted(input), LooksLikeId)[k])
    ensures ResolveTagsSpec(input, tags).Err? && ResolveTagsSpec(input, tags).error.TagIdNotFound?
  {
    var ids := Keep(Wanted(input), LooksLikeId);
    assert Wanted(input) != [];
    assert MissingId(ids, ActiveTags(tags)).Some?;
  }
}
