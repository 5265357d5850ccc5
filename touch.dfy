/**
 * `parse_touch_path` of src/open_interactions/touch.rs and src/open/touch.rs
 * (the two are the same function): `owner/repo/issue[.md|.typ]`, or a chain
 * `owner/repo/parent/…/child[.md|.typ]` for sub-issues.
 */
module Touch {
  import opened Wrappers
  import opened Strings
  import opened Extensions

  datatype TouchPath = TouchPath(owner: string, repo: string, issueChain: seq<string>, extension: Option<Extension>)

  datatype TouchError = TooFewComponents(count: nat)

  const SLASH: char := '/'
  const DOT: char := '.'

  /** The component `Path::components` yields for a leading `/`. */
  const ROOT: string := "/"
  /** The component it yields for a leading `.` (`CurDir`). */
  const CUR_DIR: string := "."

  /** A piece between slashes that is a normal component: not empty and not `.`. */
  predicate IsNormal(p: string) {
    p != [] && p != CUR_DIR
  }

  /** The pieces that are normal components, in order. */
  function NormalParts(parts: seq<string>): (r: seq<string>)
    ensures forall k :: 0 <= k < |r| ==> IsNormal(r[k]) && r[k] in parts
    ensures (forall k :: 0 <= k < |parts| ==> IsNormal(parts[k])) ==> r == parts
  {
    if parts == [] then []
    else if !IsNormal(parts[0]) then NormalParts(parts[1..])
    else [parts[0]] + NormalParts(parts[1..])
  }

  /** Dropping the empty and `.` pieces works piece by piece. */
  lemma {:induction false} NormalPartsAppend(a: seq<string>, b: seq<string>)
    ensures NormalParts(a + b) == NormalParts(a) + NormalParts(b)
  {
    if a != [] {
      assert (a + b)[1..] == a[1..] + b;
      NormalPartsAppend(a[1..], b);
    } else {
      assert a + b == b;
    }
  }

  /**
   * `PathBuf::iter` on a path with `/` separators: `/` for a leading slash;
   * `.` for a leading `.` piece of a relative path; then the pieces between
   * slashes, with the empty ones (from `//` or a trailing `/`) and the `.`
   * ones dropped.
   */
  function Components(path: string): (r: seq<string>)
    ensures forall k :: 0 <= k < |r| ==> r[k] != []
    ensures forall k :: 0 <= k < |r| && SLASH in r[k] ==> k == 0 && r[k] == ROOT
    ensures forall k :: 0 < k < |r| ==> r[k] != CUR_DIR
    ensures |r| > 0 && r[0] == ROOT <==> StartsWith(path, ROOT)
  {
    var parts := Split(path, SLASH);
    var lead := if StartsWith(path, ROOT) then [ROOT] else if parts[0] == CUR_DIR then [CUR_DIR] else [];
    var rest := NormalParts(parts);
    assert forall k :: 0 <= k < |rest| ==> SLASH !in rest[k] by {
      forall k | 0 <= k < |rest| ensures SLASH !in rest[k] {
        var j :| 0 <= j < |parts| && parts[j] == rest[k];
      }
    }
    assert ROOT[0] == SLASH;
    lead + rest
  }

  /** Joining normal, slash-free components (the first may be `.`) and splitting again gives them back. */
  lemma {:induction false} ComponentsOfJoin(parts: seq<string>)
    requires |parts| >= 1
    requires forall k :: 0 <= k < |parts| ==> parts[k] != [] && SLASH !in parts[k]
    requires forall k :: 0 < k < |parts| ==> parts[k] != CUR_DIR
    ensures Components(Join(parts, [SLASH])) == parts
  {
    var path := Join(parts, [SLASH]);
    SplitJoin(parts, SLASH);
    JoinFirst(parts);
    assert !StartsWith(path, ROOT) by { assert path[0] == parts[0][0]; }
    ComponentsRelative(path);
    LeadingCurDirKept(parts);
    if parts[0] == CUR_DIR {
      assert [CUR_DIR] + parts[1..] == parts;
    }
  }

  /** The components of a relative path: a leading `.` piece, then the normal pieces. */
  lemma ComponentsRelative(path: string)
    requires !StartsWith(path, ROOT)
    ensures var parts := Split(path, SLASH);
      Components(path) == (if parts[0] == CUR_DIR then [CUR_DIR] else []) + NormalParts(parts)
  {
  }

  /** Pieces that are all normal but for a leading `.` keep all but that `.`. */
  lemma LeadingCurDirKept(parts: seq<string>)
    requires |parts| >= 1 && parts[0] != []
    requires forall k :: 0 < k < |parts| ==> IsNormal(parts[k])
    ensures NormalParts(parts) == if parts[0] == CUR_DIR then parts[1..] else parts
  {
    var rest := parts[1..];
    assert forall k :: 0 <= k < |rest| ==> IsNormal(rest[k]);
    AllNormalKept(rest);
    if parts[0] == CUR_DIR {
      calc {
        NormalParts(parts);
      == { assert parts == [CUR_DIR] + rest; }
        NormalParts([CUR_DIR] + rest);
      == { NormalPartsAppend([CUR_DIR], rest); CurDirDropped(); }
        rest;
      }
    } else {
      assert forall k :: 0 <= k < |parts| ==> IsNormal(parts[k]);
      AllNormalKept(parts);
    }
  }

  lemma AllNormalKept(s: seq<string>)
    requires forall k :: 0 <= k < |s| ==> IsNormal(s[k])
    ensures NormalParts(s) == s
  {
  }

  /** A join starts with its first piece. */
  lemma {:induction false} JoinFirst(parts: seq<string>)
    requires |parts| >= 1 && parts[0] != []
    ensures |Join(parts, [SLASH])| > 0 && Join(parts, [SLASH])[0] == parts[0][0]
  {
    if |parts| > 1 {
      assert Join(parts, [SLASH]) == parts[0] + [SLASH] + Join(parts[1..], [SLASH]);
    }
  }

  /** An absolute path yields `/` as its first component, before the pieces that follow it. */
  lemma {:induction false} AbsoluteComponents(parts: seq<string>)
    requires |parts| >= 1
    requires forall k :: 0 <= k < |parts| ==> IsNormal(parts[k]) && SLASH !in parts[k]
    ensures Components(ROOT + Join(parts, [SLASH])) == [ROOT] + parts
  {
    var path := ROOT + Join(parts, [SLASH]);
    assert path == [] + [SLASH] + Join(parts, [SLASH]);
    FindCharAfter([], SLASH, Join(parts, [SLASH]));
    assert path[1..] == Join(parts, [SLASH]);
    SplitJoin(parts, SLASH);
    assert Split(path, SLASH) == [[]] + parts;
    NormalPartsAppend([[]], parts);
    assert StartsWith(path, ROOT);
  }

  /** A `.` piece after the first is dropped: `a/./b` has the components of `a/b`. */
  lemma {:induction false} InteriorCurDirDropped(parts: seq<string>, k: nat)
    requires 0 < k <= |parts|
    requires forall j :: 0 <= j < |parts| ==> IsNormal(parts[j]) && SLASH !in parts[j]
    ensures Components(Join(parts[..k] + [CUR_DIR] + parts[k..], [SLASH])) == parts
  {
    var q := parts[..k] + [CUR_DIR] + parts[k..];
    InsertedClean(parts, k);
    var path := Join(q, [SLASH]);
    SplitJoin(q, SLASH);
    JoinFirst(q);
    assert !StartsWith(path, ROOT) by { assert path[0] == parts[0][0]; }
    InsertedNormal(parts, k);
  }

  lemma InsertedClean(parts: seq<string>, k: nat)
    requires 0 < k <= |parts|
    requires forall j :: 0 <= j < |parts| ==> IsNormal(parts[j]) && SLASH !in parts[j]
    ensures var q := parts[..k] + [CUR_DIR] + parts[k..];
      |q| >= 1 && q[0] == parts[0] && forall j :: 0 <= j < |q| ==> q[j] != [] && SLASH !in q[j]
  {
    var q := parts[..k] + [CUR_DIR] + parts[k..];
    forall j | 0 <= j < |q| ensures q[j] != [] && SLASH !in q[j] {
      if j < k { assert q[j] == parts[j]; }
      else if j > k { assert q[j] == parts[j - 1]; }
    }
  }

  /** Both sides of a cut through normal pieces are kept whole. */
  lemma NormalSliceKept(parts: seq<string>, i: nat)
    requires i <= |parts|
    requires forall k :: 0 <= k < |parts| ==> IsNormal(parts[k])
    ensures NormalParts(parts[..i]) == parts[..i]
    ensures NormalParts(parts[i..]) == parts[i..]
  {
    assert forall k :: 0 <= k < i ==> IsNormal(parts[..i][k]);
    assert forall k :: 0 <= k < |parts| - i ==> IsNormal(parts[i..][k]);
  }

  /** A lone `.` piece is dropped. */
  lemma CurDirDropped()
    ensures NormalParts([CUR_DIR]) == []
  {
    assert !IsNormal([CUR_DIR][0]);
    assert [CUR_DIR][1..] == [];
  }

  lemma InsertedNormal(parts: seq<string>, k: nat)
    requires 0 < k <= |parts|
    requires forall j :: 0 <= j < |parts| ==> IsNormal(parts[j])
    ensures NormalParts(parts[..k] + [CUR_DIR] + parts[k..]) == parts
  {
    var a, b := parts[..k], parts[k..];
    calc {
      NormalParts(a + [CUR_DIR] + b);
    == { NormalPartsAppend(a + [CUR_DIR], b); }
      NormalParts(a + [CUR_DIR]) + NormalParts(b);
    == { NormalPartsAppend(a, [CUR_DIR]); CurDirDropped(); }
      NormalParts(a) + NormalParts(b);
    == { NormalSliceKept(parts, k); }
      a + b;
    == { assert a + b == parts; }
      parts;
    }
  }

  /** Index of the last `c` in `s`. */
  function RFindChar(s: string, c: char): (r: Option<nat>)
    ensures r.Some? ==> r.value < |s| && s[r.value] == c && forall j :: r.value < j < |s| ==> s[j] != c
    ensures r.None? ==> forall j :: 0 <= j < |s| ==> s[j] != c
  {
    if s == [] then None
    else if s[|s| - 1] == c then Some(|s| - 1)
    else RFindChar(s[..|s| - 1], c)
  }

  /**
   * `Path::extension` of the file name, then kept only when it is `md` or
   * `typ`: the text after the last dot, when that dot is not the first
   * character.
   */
  function ExtensionOf(name: string): (r: Option<Extension>)
    ensures DOT !in name ==> r.None?
    ensures r.Some? ==>
      && |name| >= |Name(r.value)| + 2
      && name[|name| - |Name(r.value)| - 1] == DOT
      && name[|name| - |Name(r.value)|..] == Name(r.value)
  {
    match RFindChar(name, DOT)
      case None => None
      case Some(k) =>
        if k == 0 then None
        else if name[k + 1..] == Name(Md) then Some(Md)
        else if name[k + 1..] == Name(Typ) then Some(Typ)
        else None
  }

  /** `rsplit_once('.')`: everything before the last dot, or the whole name when there is none. */
  function StripExtension(name: string): string {
    match RFindChar(name, DOT)
      case None => name
      case Some(k) => name[..k]
  }

  /**
   * `parse_touch_path`: at least three components; the first two are owner
   * and repository, the rest is the issue chain in order, and a recognised
   * extension is cut from the last element only.
   */
  function ParseTouchPath(path: string): (r: Result<TouchPath, TouchError>)
    ensures r.Err? <==> |Components(path)| < 3
    ensures r.Err? ==> r.error == TooFewComponents(|Components(path)|)
    ensures r.Ok? ==>
      var c := Components(path);
      var chain := r.value.issueChain;
      r.value.owner == c[0] && r.value.repo == c[1] &&
      |chain| == |c| - 2 && chain[..|chain| - 1] == c[2..|c| - 1] &&
      r.value.extension == ExtensionOf(c[|c| - 1])
  {
    var c := Components(path);
    if |c| < 3 then Err(TooFewComponents(|c|)) else Ok(OfComponents(c))
  }

  /** The touch path of at least three components. */
  function OfComponents(c: seq<string>): (t: TouchPath)
    requires |c| >= 3
    ensures t.owner == c[0] && t.repo == c[1] && t.extension == ExtensionOf(c[|c| - 1])
    ensures |t.issueChain| == |c| - 2 && t.issueChain[..|c| - 3] == c[2..|c| - 1]
  {
    var extension := ExtensionOf(c[|c| - 1]);
    var chain := c[2..];
    var chain' := if extension.Some? then chain[..|chain| - 1] + [StripExtension(chain[|chain| - 1])] else chain;
    TouchPath(c[0], c[1], chain', extension)
  }

  /** A recognised extension is exactly what was cut from the last component. */
  lemma ExtensionCut(path: string)
    requires ParseTouchPath(path).Ok? && ParseTouchPath(path).value.extension.Some?
    ensures var t := ParseTouchPath(path).value;
            var c := Components(path);
            c[|c| - 1] == t.issueChain[|t.issueChain| - 1] + [DOT] + Name(t.extension.value)
  {
    var c := Components(path);
    var name := c[|c| - 1];
    var k := RFindChar(name, DOT).value;
    assert name == name[..k] + [DOT] + name[k + 1..];
  }

  /** Without a recognised extension the last component is kept whole (an `issue.txt` stays `issue.txt`). */
  lemma NoExtensionKept(path: string)
    requires ParseTouchPath(path).Ok? && ParseTouchPath(path).value.extension.None?
    ensures ParseTouchPath(path).value.issueChain == Components(path)[2..]
  {
  }

  /** A suffix after the last dot that is neither `md` nor `typ` is no extension. */
  lemma UnknownExtension(stem: string, ext: string)
    requires stem != [] && DOT !in ext && ext != Name(Md) && ext != Name(Typ)
    ensures ExtensionOf(stem + [DOT] + ext).None?
  {
    LastDotOf(stem, ext);
    assert (stem + [DOT] + ext)[|stem| + 1..] == ext;
  }

  lemma {:induction false} LastDotOf(stem: string, ext: string)
    requires DOT !in ext
    ensures RFindChar(stem + [DOT] + ext, DOT) == Some(|stem|)
  {
    var s := stem + [DOT] + ext;
    if ext != [] {
      assert s[..|s| - 1] == stem + [DOT] + ext[..|ext| - 1];
      LastDotOf(stem, ext[..|ext| - 1]);
    }
  }

  lemma NoDotInName(e: Extension)
    ensures DOT !in Name(e)
  {
    match e
      case Md => assert Name(e) == ['m', 'd'];
      case Typ => assert Name(e) == ['t', 'y', 'p'];
  }

  /** Parsing a join of at least three clean components. */
  lemma ParseOfJoin(parts: seq<string>)
    requires |parts| >= 3
    requires forall k :: 0 <= k < |parts| ==> parts[k] != [] && SLASH !in parts[k]
    requires forall k :: 0 < k < |parts| ==> parts[k] != CUR_DIR
    ensures ParseTouchPath(Join(parts, [SLASH])) == Ok(OfComponents(parts))
  {
    ComponentsOfJoin(parts);
  }

  /**
   * A path written as `owner/repo/t1/…/stem.ext` parses back to its
   * components, with the extension cut from the last title only.
   */
  lemma RoundTripWithExtension(parts: seq<string>, stem: string, e: Extension)
    requires |parts| >= 3
    requires forall k :: 0 <= k < |parts| ==> parts[k] != [] && SLASH !in parts[k]
    requires forall k :: 0 < k < |parts| ==> parts[k] != CUR_DIR
    requires stem != [] && parts[|parts| - 1] == stem + [DOT] + Name(e)
    ensures ParseTouchPath(Join(parts, [SLASH])) == Ok(TouchPath(parts[0], parts[1], parts[2..|parts| - 1] + [stem], Some(e)))
  {
    ParseOfJoin(parts);
    WithExtension(stem, e);
    assert parts[2..][..|parts| - 3] == parts[2..|parts| - 1];
  }

  /** `stem.md` and `stem.typ` are recognised, and cutting the extension leaves the stem. */
  lemma WithExtension(stem: string, e: Extension)
    requires stem != []
    ensures ExtensionOf(stem + [DOT] + Name(e)) == Some(e)
    ensures StripExtension(stem + [DOT] + Name(e)) == stem
  {
    var last := stem + [DOT] + Name(e);
    NoDotInName(e);
    LastDotOf(stem, Name(e));
    assert last[|stem| + 1..] == Name(e);
    assert last[..|stem|] == stem;
  }

  /** An absolute path takes the root `/` as its owner and its first piece as its repository. */
  lemma {:induction false} AbsolutePathOwnerIsRoot(parts: seq<string>)
    requires |parts| >= 2
    requires forall k :: 0 <= k < |parts| ==> IsNormal(parts[k]) && SLASH !in parts[k]
    ensures var r := ParseTouchPath(ROOT + Join(parts, [SLASH]));
      r.Ok? && r.value.owner == ROOT && r.value.repo == parts[0]
  {
    AbsoluteComponents(parts);
  }

  /** A path whose last component carries no recognised extension parses back to its components, without one. */
  lemma RoundTripWithoutExtension(parts: seq<string>)
    requires |parts| >= 3
    requires forall k :: 0 <= k < |parts| ==> parts[k] != [] && SLASH !in parts[k]
    requires forall k :: 0 < k < |parts| ==> parts[k] != CUR_DIR
    requires ExtensionOf(parts[|parts| - 1]).None?
    ensures ParseTouchPath(Join(parts, [SLASH])) == Ok(TouchPath(parts[0], parts[1], parts[2..], None))
  {
    ParseOfJoin(parts);
  }

  /** An unknown suffix is part of the title: `owner/repo/issue.txt` has the chain `["issue.txt"]` and no extension. */
  lemma UnknownSuffixIsTitle()
    ensures ParseTouchPath("owner/repo/issue.txt") == Ok(TouchPath("owner", "repo", ["issue.txt"], None))
  {
    var parts := ["owner", "repo", "issue.txt"];
    IssueTxtParts();
    IssueTxtJoin();
    RoundTripWithoutExtension(parts);
  }

  lemma IssueTxtParts()
    ensures var parts := ["owner", "repo", "issue.txt"];
      && (forall k :: 0 <= k < |parts| ==> parts[k] != [] && SLASH !in parts[k])
      && (forall k :: 0 < k < |parts| ==> parts[k] != CUR_DIR)
      && ExtensionOf(parts[2]).None?
  {
    assert "issue.txt" == "issue" + [DOT] + "txt";
    UnknownExtension("issue", "txt");
  }

  lemma IssueTxtJoin()
    ensures Join(["owner", "repo", "issue.txt"], [SLASH]) == "owner/repo/issue.txt"
  {
    JoinThree("owner", "repo", "issue.txt");
    assert "owner" + [SLASH] + ("repo" + [SLASH] + "issue.txt") == "owner/repo/issue.txt";
  }

  lemma JoinThree(a: string, b: string, c: string)
    ensures Join([a, b, c], [SLASH]) == a + [SLASH] + (b + [SLASH] + c)
  {
    assert [a, b, c][1..] == [b, c];
    assert [b, c][1..] == [c];
    assert Join([c], [SLASH]) == c;
    assert Join([b, c], [SLASH]) == b + [SLASH] + c;
  }
}
