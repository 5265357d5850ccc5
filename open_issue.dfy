/**
 * src/open/issue.rs: the issue file as the editor opens it. An issue is a
 * title line, a body, further comments, a blockers section and sub-issues;
 * this module holds the data, the title-line grammar in both directions,
 * the full body sent to GitHub, construction from GitHub data and from the
 * stored original state, the semantic equality used to detect divergence,
 * and lookup of a sub-issue by path. Serialisation, parsing of a whole file
 * and action collection are `OpenIssueSerialize`, `OpenIssueParse` and
 * `OpenIssueActions`.
 */
module OpenIssue {
  import opened Wrappers
  import opened Strings
  import opened IssueError
  import IssueTypes
  import IssueBlocker
  import MarkerText
  import Github

  type CloseState = IssueTypes.CloseState

  /** `IssueMeta`: the title line's information. */
  datatype Meta = Meta(title: string, url: Option<string>, closeState: CloseState, owned: bool)

  /** `Comment`; the first comment of an issue is its body. */
  datatype Comment = Comment(id: Option<nat>, body: string, owned: bool)

  /** `Issue`. */
  datatype Issue = Issue(
    meta: Meta,
    labels: seq<string>,
    comments: seq<Comment>,
    children: seq<Issue>,
    blockers: IssueBlocker.BlockerSequence)

  const BLOCKERS_HEADING: string := "# Blockers\n"
  const NEWLINE: string := "\n"

  /** The body text: the first comment's body, or nothing. */
  function BaseBody(issue: Issue): string {
    if issue.comments == [] then [] else issue.comments[0].body
  }

  /**
   * `Issue::body`: the body sent to GitHub. Without blockers it is the
   * first comment's body; otherwise the blockers section follows it under
   * a `# Blockers` heading and ends with a line break.
   */
  function Body(issue: Issue): (r: string)
    ensures StartsWith(r, BaseBody(issue))
    ensures r == BaseBody(issue) <==> IssueBlocker.IsEmpty(issue.blockers)
    ensures !IssueBlocker.IsEmpty(issue.blockers) ==>
      r[|BaseBody(issue)|..] == BLOCKERS_HEADING + IssueBlocker.Serialize(issue.blockers) + NEWLINE
  {
    var base := BaseBody(issue);
    if IssueBlocker.IsEmpty(issue.blockers) then base
    else
      var r := base + BLOCKERS_HEADING + IssueBlocker.Serialize(issue.blockers) + NEWLINE;
      assert r == base + (BLOCKERS_HEADING + IssueBlocker.Serialize(issue.blockers) + NEWLINE);
      assert r[..|base|] == base;
      r
  }

  // ---------------------------------------------------------------------
  // The checkbox prefix

  /**
   * `Issue::parse_checkbox_prefix`: `- [CONTENT] ` with a recognised close
   * state, and the text after it; any other line gives nothing.
   */
  function ParseCheckboxPrefix(line: string): (r: Option<(CloseState, string)>)
    ensures r.Some? <==> IssueTypes.ParseCheckboxPrefix(line).CheckboxOk?
    ensures r.Some? ==> IssueTypes.ValidState(r.value.0) && EndsWith(line, r.value.1)
    ensures !StartsWith(line, IssueTypes.BOX_OPEN) ==> r.None?
  {
    match IssueTypes.ParseCheckboxPrefix(line)
      case CheckboxOk(s, rest) =>
        assert IssueTypes.FromCheckbox(line[3..][..IndexOf(line[3..], IssueTypes.BOX_CLOSE).value]) == Some(s);
        Some((s, rest))
      case _ => None
  }

  /** The checkbox the serialiser writes reads back with the text after it. */
  lemma CheckboxPrefixRoundTrip(s: CloseState, rest: string)
    requires IssueTypes.ValidState(s)
    ensures ParseCheckboxPrefix(IssueTypes.BOX_OPEN + IssueTypes.ToCheckbox(s) + IssueTypes.BOX_CLOSE + rest) == Some((s, rest))
  {
    IssueTypes.CheckboxPrefixRoundTrip(s, rest);
  }

  // ---------------------------------------------------------------------
  // Title lines

  const IMMUTABLE: string := "immutable "
  const SPACE: string := " "
  const LABEL_SEP: string := ", "
  const LABELS_OPEN: string := "["

  /** The bracketed label list the serialiser writes, or nothing. */
  function LabelsPart(labels: seq<string>): string {
    if labels == [] then [] else LABELS_OPEN + Join(labels, LABEL_SEP) + IssueTypes.BOX_CLOSE
  }

  /** The text between `<!--` and `-->` of a title line. */
  function MarkerInner(meta: Meta): string {
    var url := if meta.url.Some? then meta.url.value else [];
    if meta.owned then SPACE + url + SPACE else IMMUTABLE + url + SPACE
  }

  /**
   * The title line `serialize_at_depth` writes, without its indentation:
   * `- [c] [l1, l2] Title <!-- url -->`, or `<!--immutable url -->` for an
   * issue the user does not own.
   */
  function TitleLine(meta: Meta, labels: seq<string>): string {
    IssueTypes.BOX_OPEN + IssueTypes.ToCheckbox(meta.closeState) + IssueTypes.BOX_CLOSE
      + (LabelsPart(labels) + (meta.title + (SPACE + (IssueTypes.MARKER_OPEN + (MarkerInner(meta) + IssueTypes.MARKER_CLOSE)))))
  }

  /**
   * The title, URL and ownership read from the text after the labels: the
   * first `<!--` must be followed by a `-->` that begins after it ends.
   */
  function ReadMarker(rest: string, span: Span): (r: Result<(string, string, bool), ParseError>)
    ensures IndexOf(rest, IssueTypes.MARKER_OPEN).None? <==> r == Err(MissingUrlMarker(span))
    ensures r.Err? ==> r.error == MissingUrlMarker(span) || r.error == MalformedUrlMarker(span)
    ensures r.Ok? ==> IsTrimmed(r.value.0) && IsTrimmed(r.value.1)
  {
    match IndexOf(rest, IssueTypes.MARKER_OPEN)
      case None => Err(MissingUrlMarker(span))
      case Some(ms) =>
        match IndexOf(rest, IssueTypes.MARKER_CLOSE)
          case None => Err(MalformedUrlMarker(span))
          case Some(me) =>
            if !IssueTypes.MarkerBounds(ms, me) then Err(MalformedUrlMarker(span))
            else Ok(Ownership(rest[..ms], rest[ms + 4..me]))
  }

  /** The trimmed title and the URL and ownership read from the trimmed marker text. */
  function Ownership(before: string, marker: string): (r: (string, string, bool))
    ensures IsTrimmed(r.0) && IsTrimmed(r.1)
  {
    var title := Trim(before);
    var inner := Trim(marker);
    TrimIsTrimmed(before);
    TrimIsTrimmed(marker);
    match StripPrefix(inner, IMMUTABLE)
      case Some(u) =>
        TrimIsTrimmed(u);
        (title, Trim(u), false)
      case None => (title, inner, true)
  }

  /**
   * `Issue::parse_title_line`, with the marker bounds test corrected to
   * require the closing `-->` to begin after the opening `<!--` ends.
   */
  function ParseTitleLine(line: string, lineNum: nat, ctx: ParseContext): (r: Result<(Meta, seq<string>), ParseError>)
    ensures ParseCheckboxPrefix(line).None? <==> r == Err(InvalidTitle(LineSpan(ctx, lineNum), line))
    ensures r.Err? ==> (r.error.InvalidTitle? || r.error == MissingUrlMarker(LineSpan(ctx, lineNum))
      || r.error == MalformedUrlMarker(LineSpan(ctx, lineNum)))
    ensures r.Ok? ==> ParseCheckboxPrefix(line).Some? && r.value.0.closeState == ParseCheckboxPrefix(line).value.0
    ensures r.Ok? ==> IsTrimmed(r.value.0.title) && r.value.0.url.Some? && IsTrimmed(r.value.0.url.value)
    ensures r.Ok? ==> forall k :: 0 <= k < |r.value.1| ==> r.value.1[k] != []
    ensures IssueTypes.TitleSliceOutOfOrder(line) ==> r == Err(MalformedUrlMarker(LineSpan(ctx, lineNum)))
  {
    var span := LineSpan(ctx, lineNum);
    match ParseCheckboxPrefix(line)
      case None => Err(InvalidTitle(span, line))
      case Some((state, rest0)) =>
        var (labels, rest) := IssueTypes.SplitLabels(rest0);
        assert forall k :: 0 <= k < |labels| ==> labels[k] != [] by { SplitLabelsNonEmpty(rest0); }
        match ReadMarker(rest, span)
          case Err(e) => Err(e)
          case Ok((title, url, owned)) => Ok((Meta(title, Some(url), state, owned), labels))
  }

  lemma SplitLabelsNonEmpty(rest0: string)
    ensures var labels := IssueTypes.SplitLabels(rest0).0; forall k :: 0 <= k < |labels| ==> labels[k] != []
  {
  }

  /** What the serialiser must be given for its title line to read back unchanged. */
  predicate Printable(meta: Meta, labels: seq<string>) {
    && IssueTypes.ValidState(meta.closeState)
    && IsTrimmed(meta.title) && '<' !in meta.title && '>' !in meta.title
    && (labels == [] ==> meta.title == [] || meta.title[0] != '[')
    && meta.url.Some? && IsTrimmed(meta.url.value) && '>' !in meta.url.value
    && (meta.owned ==> !StartsWith(meta.url.value, IMMUTABLE))
    && (!meta.owned ==> meta.url.value != [])
    && PrintableLabels(labels)
  }

  /** Labels that survive the `[a, b] ` list: trimmed, non-empty, without `,` or `]`. */
  predicate PrintableLabels(labels: seq<string>) {
    forall k :: 0 <= k < |labels| ==> PrintableLabel(labels[k])
  }

  predicate PrintableLabel(l: string) {
    l != [] && IsTrimmed(l) && ',' !in l && ']' !in l
  }

  /** Every title line the serialiser writes parses back to the same metadata and labels. */
  lemma TitleLineRoundTrip(meta: Meta, labels: seq<string>, lineNum: nat, ctx: ParseContext)
    requires Printable(meta, labels)
    ensures ParseTitleLine(TitleLine(meta, labels), lineNum, ctx) == Ok((meta, labels))
  {
    var tail := meta.title + (SPACE + (IssueTypes.MARKER_OPEN + (MarkerInner(meta) + IssueTypes.MARKER_CLOSE)));
    var rest0 := LabelsPart(labels) + tail;
    assert TitleLine(meta, labels) == IssueTypes.BOX_OPEN + IssueTypes.ToCheckbox(meta.closeState) + IssueTypes.BOX_CLOSE + rest0;
    CheckboxPrefixRoundTrip(meta.closeState, rest0);
    assert labels == [] ==> tail[0] != '[' by {
      if meta.title == [] { assert tail[0] == ' '; } else { assert tail[0] == meta.title[0]; }
    }
    LabelsRoundTrip(labels, tail);
    MarkerRoundTrip(meta, LineSpan(ctx, lineNum));
  }

  /** The label list written in front of a title reads back, with the title after it. */
  lemma LabelsRoundTrip(labels: seq<string>, tail: string)
    requires PrintableLabels(labels)
    requires labels == [] ==> tail == [] || tail[0] != '['
    ensures IssueTypes.SplitLabels(LabelsPart(labels) + tail) == (labels, tail)
  {
    if labels == [] {
      assert LabelsPart(labels) + tail == tail;
    } else {
      var j := Join(labels, LABEL_SEP);
      var s := LabelsPart(labels) + tail;
      assert ']' !in j by { JoinNoChar(labels, ']'); }
      assert s == (LABELS_OPEN + j) + (IssueTypes.BOX_CLOSE + tail);
      assert ']' !in LABELS_OPEN + j;
      IssueTypes.FirstAt(LABELS_OPEN + j, IssueTypes.BOX_CLOSE, IssueTypes.BOX_CLOSE + tail);
      var b := |j| + 1;
      assert s[1..b] == j;
      assert s[b + 2..] == tail;
      assert s[0] == '[';
      IssueTypes.SplitLabelsAt(s, b);
      LabelListOfJoin(labels);
    }
  }

  /** A joined list of labels holds no character that none of them holds. */
  lemma {:induction false} JoinNoChar(labels: seq<string>, c: char)
    requires c != ',' && c != ' '
    requires forall k :: 0 <= k < |labels| ==> c !in labels[k]
    ensures c !in Join(labels, LABEL_SEP)
  {
    if |labels| > 1 {
      JoinNoChar(labels[1..], c);
      assert Join(labels, LABEL_SEP) == labels[0] + LABEL_SEP + Join(labels[1..], LABEL_SEP);
    }
  }

  /** The labels with a space in front of each. */
  function Spaced(ls: seq<string>): (r: seq<string>)
    ensures |r| == |ls|
    ensures forall k :: 0 <= k < |ls| ==> r[k] == SPACE + ls[k]
  {
    if ls == [] then [] else [SPACE + ls[0]] + Spaced(ls[1..])
  }

  /** Joining with `, ` is joining with `,` after putting a space in front of all but the first. */
  lemma {:induction false} JoinSpaced(ls: seq<string>)
    requires |ls| >= 1
    ensures Join(ls, LABEL_SEP) == Join([ls[0]] + Spaced(ls[1..]), ",")
  {
    if |ls| > 1 {
      JoinSpaced(ls[1..]);
      assert ls[1..][1..] == ls[2..];
      var rest := Spaced(ls[2..]);
      assert Spaced(ls[1..]) == [SPACE + ls[1]] + rest;
      assert ([ls[0]] + Spaced(ls[1..]))[1..] == [SPACE + ls[1]] + rest;
      JoinPadFirst(ls[1], rest);
      assert Join(ls, LABEL_SEP) == ls[0] + LABEL_SEP + Join(ls[1..], LABEL_SEP);
    } else {
      assert Spaced(ls[1..]) == [];
    }
  }

  lemma JoinPadFirst(a: string, rest: seq<string>)
    ensures Join([SPACE + a] + rest, ",") == SPACE + Join([a] + rest, ",")
  {
    if rest != [] {
      assert ([SPACE + a] + rest)[1..] == rest;
      assert ([a] + rest)[1..] == rest;
    }
  }

  /** Splitting the joined labels at commas and trimming the pieces gives the labels back. */
  lemma LabelListOfJoin(labels: seq<string>)
    requires |labels| >= 1 && PrintableLabels(labels)
    ensures IssueTypes.LabelList(Split(Join(labels, LABEL_SEP), ',')) == labels
  {
    var parts := [labels[0]] + Spaced(labels[1..]);
    JoinSpaced(labels);
    forall k | 0 <= k < |parts| ensures ',' !in parts[k] && Trim(parts[k]) == labels[k] {
      SpacedPiece(labels, k);
    }
    SplitJoin(parts, ',');
    LabelListTrimmed(parts, labels);
  }

  lemma SpacedPiece(labels: seq<string>, k: nat)
    requires 0 <= k < |labels| && PrintableLabels(labels)
    ensures var p := ([labels[0]] + Spaced(labels[1..]))[k]; ',' !in p && Trim(p) == labels[k]
  {
    assert PrintableLabel(labels[k]);
    if k == 0 {
      TrimmedIsFixed(labels[0]);
    } else {
      SpacedAt(labels, k);
      SpacedLabel(labels[k]);
    }
  }

  lemma SpacedAt(labels: seq<string>, k: nat)
    requires 0 < k < |labels|
    ensures ([labels[0]] + Spaced(labels[1..]))[k] == SPACE + labels[k]
  {
    assert ([labels[0]] + Spaced(labels[1..]))[k] == Spaced(labels[1..])[k - 1];
  }

  /** A label with a space in front trims back to the label and holds no comma. */
  lemma SpacedLabel(l: string)
    requires PrintableLabel(l)
    ensures ',' !in SPACE + l && Trim(SPACE + l) == l
  {
    TrimPadded(SPACE, l, []);
    assert SPACE + l + [] == SPACE + l;
  }

  /** `LabelList` of pieces whose trimmed forms are the non-empty labels gives those labels. */
  lemma {:induction false} LabelListTrimmed(parts: seq<string>, labels: seq<string>)
    requires |parts| == |labels|
    requires forall k :: 0 <= k < |parts| ==> Trim(parts[k]) == labels[k] && labels[k] != []
    ensures IssueTypes.LabelList(parts) == labels
  {
    if parts != [] {
      var n := |parts| - 1;
      forall k | 0 <= k < n ensures Trim(parts[..n][k]) == labels[..n][k] && labels[..n][k] != [] {
        assert parts[..n][k] == parts[k] && labels[..n][k] == labels[k];
      }
      LabelListTrimmed(parts[..n], labels[..n]);
      assert Trim(parts[n]) == labels[n] && labels[n] != [];
      SnocSplit(labels);
    }
  }

  /** The marker part of a printable title line reads back to its title, URL and ownership. */
  lemma MarkerRoundTrip(meta: Meta, span: Span)
    requires IsTrimmed(meta.title) && '<' !in meta.title && '>' !in meta.title
    requires meta.url.Some? && IsTrimmed(meta.url.value) && '>' !in meta.url.value
    requires meta.owned ==> !StartsWith(meta.url.value, IMMUTABLE)
    requires !meta.owned ==> meta.url.value != []
    ensures ReadMarker(meta.title + (SPACE + (IssueTypes.MARKER_OPEN + (MarkerInner(meta) + IssueTypes.MARKER_CLOSE))), span)
      == Ok((meta.title, meta.url.value, meta.owned))
  {
    var inner := MarkerInner(meta);
    var rest := meta.title + (SPACE + (IssueTypes.MARKER_OPEN + (inner + IssueTypes.MARKER_CLOSE)));
    var ms := |meta.title| + 1;
    var me := ms + 4 + |inner|;
    assert IndexOf(rest, IssueTypes.MARKER_OPEN) == Some(ms) by { OpenAt(meta.title, inner); }
    assert IndexOf(rest, IssueTypes.MARKER_CLOSE) == Some(me) by { CloseAt(meta.title, inner, meta); }
    assert rest[..ms] == meta.title + SPACE && rest[ms + 4..me] == inner by { MarkerSlices(meta.title, inner); }
    assert Ownership(meta.title + SPACE, inner) == (meta.title, meta.url.value, meta.owned) by { OwnershipOf(meta); }
    ReadMarkerAt(rest, span, ms, me);
  }

  lemma OwnershipOf(meta: Meta)
    requires IsTrimmed(meta.title)
    requires meta.url.Some? && IsTrimmed(meta.url.value)
    requires meta.owned ==> !StartsWith(meta.url.value, IMMUTABLE)
    requires !meta.owned ==> meta.url.value != []
    ensures Ownership(meta.title + SPACE, MarkerInner(meta)) == (meta.title, meta.url.value, meta.owned)
  {
    TitleTrim(meta.title);
    InnerRead(meta);
  }

  lemma ReadMarkerAt(rest: string, span: Span, ms: nat, me: nat)
    requires IndexOf(rest, IssueTypes.MARKER_OPEN) == Some(ms)
    requires IndexOf(rest, IssueTypes.MARKER_CLOSE) == Some(me)
    requires IssueTypes.MarkerBounds(ms, me) && me <= |rest|
    ensures ReadMarker(rest, span) == Ok(Ownership(rest[..ms], rest[ms + 4..me]))
  {
  }

  lemma MarkerSlices(title: string, inner: string)
    ensures var rest := title + (SPACE + (IssueTypes.MARKER_OPEN + (inner + IssueTypes.MARKER_CLOSE)));
      var ms := |title| + 1;
      rest[..ms] == title + SPACE && rest[ms + 4..ms + 4 + |inner|] == inner
  {
  }

  lemma OpenAt(title: string, inner: string)
    requires '<' !in title
    ensures IndexOf(title + (SPACE + (IssueTypes.MARKER_OPEN + (inner + IssueTypes.MARKER_CLOSE))), IssueTypes.MARKER_OPEN) == Some(|title| + 1)
  {
    var rest := title + (SPACE + (IssueTypes.MARKER_OPEN + (inner + IssueTypes.MARKER_CLOSE)));
    assert rest == (title + SPACE) + (IssueTypes.MARKER_OPEN + (inner + IssueTypes.MARKER_CLOSE));
    assert '<' !in title + SPACE;
    IssueTypes.FirstAt(title + SPACE, IssueTypes.MARKER_OPEN, IssueTypes.MARKER_OPEN + (inner + IssueTypes.MARKER_CLOSE));
  }

  lemma CloseAt(title: string, inner: string, meta: Meta)
    requires '>' !in title && inner == MarkerInner(meta)
    requires meta.url.Some? && '>' !in meta.url.value
    ensures IndexOf(title + (SPACE + (IssueTypes.MARKER_OPEN + (inner + IssueTypes.MARKER_CLOSE))), IssueTypes.MARKER_CLOSE)
      == Some(|title| + 5 + |inner|)
  {
    var base := title + SPACE + IssueTypes.MARKER_OPEN + inner;
    assert '>' !in inner;
    assert '>' !in base;
    assert title + (SPACE + (IssueTypes.MARKER_OPEN + (inner + IssueTypes.MARKER_CLOSE))) == base + IssueTypes.MARKER_CLOSE;
    FirstArrow(base, IssueTypes.MARKER_CLOSE);
  }

  /** The first `-->` is the one right after a text without `>`. */
  lemma FirstArrow(base: string, rest: string)
    requires '>' !in base && StartsWith(rest, IssueTypes.MARKER_CLOSE)
    ensures IndexOf(base + rest, IssueTypes.MARKER_CLOSE) == Some(|base|)
  {
    var u := base + rest;
    var p := IssueTypes.MARKER_CLOSE;
    assert u[|base|..|base| + 3] == rest[..3];
    assert OccursAt(u, p, |base|);
    assert rest[0] == '-' && rest[1] == '-';
    forall j | 0 <= j < |base| ensures !OccursAt(u, p, j) {
      assert u[j + 2] != '>' by {
        if j + 2 < |base| {
          assert u[j + 2] == base[j + 2];
        } else {
          assert u[j + 2] == rest[j + 2 - |base|];
        }
      }
      assert u[j..j + 3][2] == u[j + 2];
    }
    var r := IndexOf(u, p);
    assert r.Some?;
  }

  lemma TitleTrim(title: string)
    requires IsTrimmed(title)
    ensures Trim(title + SPACE) == title
  {
    if title == [] {
      assert AllWhitespace(SPACE);
      TrimIsTrimmed(SPACE);
    } else {
      TrimPadded([], title, SPACE);
      assert [] + title + SPACE == title + SPACE;
    }
  }

  /** The text inside the marker gives back the URL and the ownership. */
  lemma InnerRead(meta: Meta)
    requires meta.url.Some? && IsTrimmed(meta.url.value)
    requires meta.owned ==> !StartsWith(meta.url.value, IMMUTABLE)
    requires !meta.owned ==> meta.url.value != []
    ensures var inner := Trim(MarkerInner(meta));
      if meta.owned then inner == meta.url.value && StripPrefix(inner, IMMUTABLE).None?
      else StripPrefix(inner, IMMUTABLE) == Some(meta.url.value) && Trim(meta.url.value) == meta.url.value
  {
    var url := meta.url.value;
    if meta.owned {
      if url == [] {
        assert MarkerInner(meta) == SPACE + SPACE;
        assert AllWhitespace(SPACE + SPACE);
        TrimIsTrimmed(SPACE + SPACE);
      } else {
        TrimPadded(SPACE, url, SPACE);
      }
    } else {
      var s := IMMUTABLE + url;
      assert IsTrimmed(s) by { assert s[0] == 'i'; assert s[|s| - 1] == url[|url| - 1]; }
      TrimPadded([], s, SPACE);
      assert [] + s + SPACE == MarkerInner(meta);
      StripPrefixConcat(IMMUTABLE, url);
      TrimmedIsFixed(url);
    }
  }

  /** A title line whose closing `-->` overlaps its `<!--` is reported as a malformed marker. */
  lemma OverlappingTitleRejected(lineNum: nat, ctx: ParseContext)
    ensures ParseTitleLine(IssueTypes.BOX_OPEN + IssueTypes.ToCheckbox(IssueTypes.Open) + IssueTypes.BOX_CLOSE + IssueTypes.OVERLAP_TITLE, lineNum, ctx)
      == Err(MalformedUrlMarker(LineSpan(ctx, lineNum)))
  {
    IssueTypes.OverlappingMarkerAsWritten();
  }

  // ---------------------------------------------------------------------
  // Sub-issue title lines

  const SUB_MARKER_LEN: nat := 8

  /**
   * `Issue::parse_child_title_line`: `- [c] Title <!--sub url -->` or a new
   * sub-issue `- [c] Title`; any other `<!--` refuses the line, and so does
   * a bare checkbox with a blank title. The closing `-->` is searched for
   * after the sub marker (see `ChildSliceOutOfOrder` for the search as
   * written).
   */
  function ParseChildTitleLine(line: string): (r: Option<Meta>)
    ensures r.Some? ==> ParseCheckboxPrefix(line).Some? && r.value.closeState == ParseCheckboxPrefix(line).value.0
    ensures r.Some? ==> r.value.owned && IsTrimmed(r.value.title)
    ensures r.Some? && r.value.url.None? ==> r.value.title != [] && !Contains(ParseCheckboxPrefix(line).value.1, IssueTypes.MARKER_OPEN)
    ensures r.Some? && r.value.url.Some? ==> IsTrimmed(r.value.url.value) && Contains(ParseCheckboxPrefix(line).value.1, IssueTypes.SUB_OPEN)
  {
    match ParseCheckboxPrefix(line)
      case None => None
      case Some((state, rest)) =>
        match IndexOf(rest, IssueTypes.SUB_OPEN)
          case Some(ms) => SubMeta(state, rest, ms)
          case None =>
            if Contains(rest, IssueTypes.MARKER_OPEN) then None
            else
              var title := Trim(rest);
              TrimIsTrimmed(rest);
              if title != [] then Some(Meta(title, None, state, true)) else None
  }

  /** The metadata of a line whose sub marker starts at `ms` of `rest`. */
  function SubMeta(state: CloseState, rest: string, ms: nat): (r: Option<Meta>)
    requires ms + SUB_MARKER_LEN <= |rest|
    ensures r.Some? ==> r.value.owned && r.value.closeState == state && IsTrimmed(r.value.title)
    ensures r.Some? ==> r.value.url.Some? && IsTrimmed(r.value.url.value)
  {
    var after := rest[ms + SUB_MARKER_LEN..];
    match IndexOf(after, IssueTypes.MARKER_CLOSE)
      case None => None
      case Some(k) =>
        TrimIsTrimmed(rest[..ms]);
        TrimIsTrimmed(after[..k]);
        Some(Meta(Trim(rest[..ms]), Some(Trim(after[..k])), state, true))
  }

  /**
   * The slice `rest[start + 8..end]` the child parser takes as written,
   * with `end` the first `-->` anywhere in the text after the checkbox,
   * would start after it ends.
   */
  predicate ChildSliceOutOfOrder(line: string) {
    match ParseCheckboxPrefix(line)
      case None => false
      case Some((_, rest)) =>
        IndexOf(rest, IssueTypes.SUB_OPEN).Some? && IndexOf(rest, IssueTypes.MARKER_CLOSE).Some?
        && IndexOf(rest, IssueTypes.MARKER_CLOSE).value < IndexOf(rest, IssueTypes.SUB_OPEN).value + SUB_MARKER_LEN
  }

  const ARROW_FIRST: string := "a --> <!--sub x"

  /** A sub-issue line with a `-->` before its sub marker makes the slice as written run backwards. */
  lemma ArrowBeforeSubAsWritten()
    ensures ChildSliceOutOfOrder(IssueTypes.BOX_OPEN + IssueTypes.ToCheckbox(IssueTypes.Open) + IssueTypes.BOX_CLOSE + ARROW_FIRST)
  {
    CheckboxPrefixRoundTrip(IssueTypes.Open, ARROW_FIRST);
    ArrowFirstMarkers();
  }

  lemma ArrowFirstMarkers()
    ensures IndexOf(ARROW_FIRST, IssueTypes.SUB_OPEN) == Some(6)
    ensures IndexOf(ARROW_FIRST, IssueTypes.MARKER_CLOSE) == Some(2)
    ensures IndexOf(ARROW_FIRST[6 + SUB_MARKER_LEN..], IssueTypes.MARKER_CLOSE).None?
  {
    var s := ARROW_FIRST;
    assert s[6..14] == IssueTypes.SUB_OPEN;
    assert OccursAt(s, IssueTypes.SUB_OPEN, 6);
    assert '<' !in s[..6];
    IssueTypes.FirstAt(s[..6], IssueTypes.SUB_OPEN, s[6..]);
    assert s[..6] + s[6..] == s;
    assert s[2..5] == IssueTypes.MARKER_CLOSE;
    assert OccursAt(s, IssueTypes.MARKER_CLOSE, 2);
    MarkerText.NotOccursAtByFirst(s, IssueTypes.MARKER_CLOSE, 0);
    MarkerText.NotOccursAtByFirst(s, IssueTypes.MARKER_CLOSE, 1);
    assert s[14..] == "x";
    IssueTypes.NoFirstChar(s[14..], IssueTypes.MARKER_CLOSE);
  }

  /** With the search after the sub marker, that line is not a sub-issue line. */
  lemma ArrowBeforeSubRejected()
    ensures ParseChildTitleLine(IssueTypes.BOX_OPEN + IssueTypes.ToCheckbox(IssueTypes.Open) + IssueTypes.BOX_CLOSE + ARROW_FIRST).None?
  {
    CheckboxPrefixRoundTrip(IssueTypes.Open, ARROW_FIRST);
    ArrowFirstMarkers();
  }

  /** The sub-issue line the serialiser writes: `- [c] Title <!--sub url -->` or `- [c] Title`. */
  function ChildTitleLine(meta: Meta): string {
    IssueTypes.BOX_OPEN + IssueTypes.ToCheckbox(meta.closeState) + IssueTypes.BOX_CLOSE
      + (meta.title + (if meta.url.Some? then SPACE + (IssueTypes.SUB_OPEN + (meta.url.value + (SPACE + IssueTypes.MARKER_CLOSE))) else []))
  }

  /** What a sub-issue's metadata needs for its line to read back. */
  predicate PrintableChild(meta: Meta) {
    && IssueTypes.ValidState(meta.closeState)
    && IsTrimmed(meta.title) && '<' !in meta.title
    && (meta.url.Some? ==> IsTrimmed(meta.url.value) && '>' !in meta.url.value)
    && (meta.url.None? ==> meta.title != [])
  }

  /**
   * Every sub-issue line the serialiser writes reads back to its metadata;
   * ownership is not written, and reads back as owned.
   */
  lemma ChildTitleLineRoundTrip(meta: Meta)
    requires PrintableChild(meta)
    ensures ParseChildTitleLine(ChildTitleLine(meta)) == Some(meta.(owned := true))
  {
    var rest := meta.title + (if meta.url.Some? then SPACE + (IssueTypes.SUB_OPEN + (meta.url.value + (SPACE + IssueTypes.MARKER_CLOSE))) else []);
    CheckboxPrefixRoundTrip(meta.closeState, rest);
    if meta.url.Some? {
      SubLineRead(meta.title, meta.url.value);
    } else {
      assert rest == meta.title;
      IssueTypes.NoFirstChar(rest, IssueTypes.SUB_OPEN);
      IssueTypes.NoFirstChar(rest, IssueTypes.MARKER_OPEN);
      TrimmedIsFixed(rest);
    }
  }

  lemma SubLineRead(title: string, url: string)
    requires IsTrimmed(title) && '<' !in title && IsTrimmed(url) && '>' !in url
    ensures var rest := title + (SPACE + (IssueTypes.SUB_OPEN + (url + (SPACE + IssueTypes.MARKER_CLOSE))));
      && IndexOf(rest, IssueTypes.SUB_OPEN) == Some(|title| + 1)
      && rest[..|title| + 1] == title + SPACE
      && var after := rest[|title| + 1 + SUB_MARKER_LEN..];
         after == url + (SPACE + IssueTypes.MARKER_CLOSE)
         && IndexOf(after, IssueTypes.MARKER_CLOSE) == Some(|url| + 1)
         && after[..|url| + 1] == url + SPACE
         && Trim(title + SPACE) == title && Trim(url + SPACE) == url
  {
    var rest := title + (SPACE + (IssueTypes.SUB_OPEN + (url + (SPACE + IssueTypes.MARKER_CLOSE))));
    assert rest == (title + SPACE) + (IssueTypes.SUB_OPEN + (url + (SPACE + IssueTypes.MARKER_CLOSE)));
    assert '<' !in title + SPACE;
    IssueTypes.FirstAt(title + SPACE, IssueTypes.SUB_OPEN, IssueTypes.SUB_OPEN + (url + (SPACE + IssueTypes.MARKER_CLOSE)));
    assert url + (SPACE + IssueTypes.MARKER_CLOSE) == (url + SPACE) + IssueTypes.MARKER_CLOSE;
    assert '>' !in url + SPACE;
    FirstArrow(url + SPACE, IssueTypes.MARKER_CLOSE);
    TitleTrim(title);
    TitleTrim(url);
  }

  // ---------------------------------------------------------------------
  // Construction from GitHub data and from the stored original state

  /** `if state == "closed" { Closed } else { Open }`. */
  function StateOf(state: string): (r: CloseState)
    ensures IssueTypes.ValidState(r)
    ensures IssueTypes.IsClosed(r) <==> state == IssueTypes.CLOSED_STATE
  {
    if state == IssueTypes.CLOSED_STATE then IssueTypes.Closed else IssueTypes.Open
  }

  /** `body.as_deref().unwrap_or("")`. */
  function Text(body: Option<string>): string {
    if body.Some? then body.value else []
  }

  /** The fetched comments, owned when written by the current user. */
  function GithubComments(cs: seq<Github.GithubComment>, user: string): (r: seq<Comment>)
    ensures |r| == |cs|
    ensures forall i :: 0 <= i < |cs| ==>
      r[i] == Comment(Some(cs[i].id), Text(cs[i].body), cs[i].login == user)
  {
    if cs == [] then []
    else
      var c := cs[|cs| - 1];
      GithubComments(cs[..|cs| - 1], user) + [Comment(Some(c.id), Text(c.body), c.login == user)]
  }

  /**
   * A fetched sub-issue as a leaf child: its URL, its open or closed state,
   * its labels, and its body as the only comment unless it is empty.
   */
  function GithubChild(sub: Github.GithubIssue, owner: string, repo: string, user: string): (r: Issue)
    ensures r.meta == Meta(sub.title, Some(Github.IssueUrl(owner, repo, sub.number)), StateOf(sub.state), sub.login == user)
    ensures r.children == [] && r.labels == sub.labels && r.blockers == IssueBlocker.Root()
    ensures Text(sub.body) == [] <==> r.comments == []
    ensures r.comments != [] ==> r.comments == [Comment(None, Text(sub.body), sub.login == user)]
  {
    var owned := sub.login == user;
    var body := Text(sub.body);
    Issue(
      Meta(sub.title, Some(Github.IssueUrl(owner, repo, sub.number)), StateOf(sub.state), owned),
      sub.labels,
      if body == [] then [] else [Comment(None, body, owned)],
      [],
      IssueBlocker.Root())
  }

  function GithubChildren(subs: seq<Github.GithubIssue>, owner: string, repo: string, user: string): (r: seq<Issue>)
    ensures |r| == |subs|
    ensures forall i :: 0 <= i < |subs| ==> r[i] == GithubChild(subs[i], owner, repo, user)
  {
    if subs == [] then []
    else GithubChildren(subs[..|subs| - 1], owner, repo, user) + [GithubChild(subs[|subs| - 1], owner, repo, user)]
  }

  /**
   * `Issue::from_github`: the issue at its canonical URL, owned when the
   * current user opened it, with its body as the first comment, the fetched
   * comments after it, its sub-issues as leaf children and no blockers.
   */
  function FromGithub(issue: Github.GithubIssue, comments: seq<Github.GithubComment>, subs: seq<Github.GithubIssue>,
                      owner: string, repo: string, user: string): (r: Issue)
    ensures r.meta.url == Some(Github.IssueUrl(owner, repo, issue.number)) && r.meta.title == issue.title
    ensures r.meta.owned <==> issue.login == user
    ensures IssueTypes.IsClosed(r.meta.closeState) <==> issue.state == IssueTypes.CLOSED_STATE
    ensures r.labels == issue.labels
    ensures |r.comments| == |comments| + 1 && r.comments[0] == Comment(None, Text(issue.body), issue.login == user)
    ensures forall i :: 0 <= i < |comments| ==>
      r.comments[i + 1] == Comment(Some(comments[i].id), Text(comments[i].body), comments[i].login == user)
    ensures |r.children| == |subs| && IssueBlocker.IsEmpty(r.blockers)
    ensures forall i :: 0 <= i < |subs| ==>
      && r.children[i].meta == Meta(subs[i].title, Some(Github.IssueUrl(owner, repo, subs[i].number)), StateOf(subs[i].state), subs[i].login == user)
      && r.children[i].labels == subs[i].labels && r.children[i].children == []
      && (r.children[i].comments == [] <==> Text(subs[i].body) == [])
      && (r.children[i].comments != [] ==> r.children[i].comments == [Comment(None, Text(subs[i].body), subs[i].login == user)])
  {
    var owned := issue.login == user;
    Issue(
      Meta(issue.title, Some(Github.IssueUrl(owner, repo, issue.number)), StateOf(issue.state), owned),
      issue.labels,
      [Comment(None, Text(issue.body), owned)] + GithubComments(comments, user),
      GithubChildren(subs, owner, repo, user),
      IssueBlocker.Root())
  }

  /** The body an issue built from GitHub sends back is the body it was built from. */
  lemma FromGithubBody(issue: Github.GithubIssue, comments: seq<Github.GithubComment>, subs: seq<Github.GithubIssue>,
                       owner: string, repo: string, user: string)
    ensures Body(FromGithub(issue, comments, subs, owner, repo, user)) == Text(issue.body)
  {
    var r := FromGithub(issue, comments, subs, owner, repo, user);
    assert BaseBody(r) == Text(issue.body);
  }

  /** The URL of an issue built from GitHub reads back to its owner, repository and number. */
  lemma FromGithubUrl(issue: Github.GithubIssue, comments: seq<Github.GithubComment>, subs: seq<Github.GithubIssue>,
                      owner: string, repo: string, user: string)
    requires '/' !in owner && '/' !in repo && issue.number < U64_LIMIT
    ensures var url := FromGithub(issue, comments, subs, owner, repo, user).meta.url.value;
      Github.ParseGithubIssueUrl(url) == Ok((owner, repo, issue.number))
  {
    Github.IssueUrlRoundTrip(owner, repo, issue.number);
  }

  /**
   * `IssueMetaEntry`, the state stored at the last fetch; its extension and
   * parent are not read here.
   */
  datatype MetaEntry = MetaEntry(
    issueNumber: nat,
    title: string,
    originalIssueBody: Option<string>,
    originalComments: seq<Github.OriginalComment>,
    originalSubIssues: seq<Github.OriginalSubIssue>,
    originalCloseState: CloseState)

  function StoredComments(cs: seq<Github.OriginalComment>): (r: seq<Comment>)
    ensures |r| == |cs|
    ensures forall i :: 0 <= i < |cs| ==> r[i] == Comment(Some(cs[i].id), Text(cs[i].body), true)
  {
    if cs == [] then []
    else
      var c := cs[|cs| - 1];
      StoredComments(cs[..|cs| - 1]) + [Comment(Some(c.id), Text(c.body), true)]
  }

  /** A stored sub-issue: only its URL and state are known. */
  function StoredChild(sub: Github.OriginalSubIssue, owner: string, repo: string): Issue {
    Issue(Meta([], Some(Github.IssueUrl(owner, repo, sub.number)), StateOf(sub.state), true), [], [], [], IssueBlocker.Root())
  }

  function StoredChildren(subs: seq<Github.OriginalSubIssue>, owner: string, repo: string): (r: seq<Issue>)
    ensures |r| == |subs|
    ensures forall i :: 0 <= i < |subs| ==> r[i] == StoredChild(subs[i], owner, repo)
  {
    if subs == [] then []
    else StoredChildren(subs[..|subs| - 1], owner, repo) + [StoredChild(subs[|subs| - 1], owner, repo)]
  }

  /**
   * `Issue::from_meta`: the issue as it was at the last fetch, owned, with
   * no labels and no blockers, and its sub-issues reduced to URL and state.
   */
  function FromMeta(entry: MetaEntry, owner: string, repo: string): (r: Issue)
    ensures r.meta == Meta(entry.title, Some(Github.IssueUrl(owner, repo, entry.issueNumber)), entry.originalCloseState, true)
    ensures |r.comments| == |entry.originalComments| + 1 && BaseBody(r) == Text(entry.originalIssueBody)
    ensures |r.children| == |entry.originalSubIssues| && r.labels == [] && IssueBlocker.IsEmpty(r.blockers)
  {
    Issue(
      Meta(entry.title, Some(Github.IssueUrl(owner, repo, entry.issueNumber)), entry.originalCloseState, true),
      [],
      [Comment(None, Text(entry.originalIssueBody), true)] + StoredComments(entry.originalComments),
      StoredChildren(entry.originalSubIssues, owner, repo),
      IssueBlocker.Root())
  }

  // ---------------------------------------------------------------------
  // Semantic equality

  /** What `PartialEq for Issue` compares of one comment after the body. */
  function CommentKeys(cs: seq<Comment>): (r: seq<(Option<nat>, string)>)
    ensures |r| == |cs|
    ensures forall i :: 0 <= i < |cs| ==> r[i] == (cs[i].id, cs[i].body)
  {
    if cs == [] then [] else CommentKeys(cs[..|cs| - 1]) + [(cs[|cs| - 1].id, cs[|cs| - 1].body)]
  }

  /** What it compares of one sub-issue. */
  function ChildKeys(cs: seq<Issue>): (r: seq<(Option<string>, CloseState)>)
    ensures |r| == |cs|
    ensures forall i :: 0 <= i < |cs| ==> r[i] == (cs[i].meta.url, cs[i].meta.closeState)
  {
    if cs == [] then [] else ChildKeys(cs[..|cs| - 1]) + [(cs[|cs| - 1].meta.url, cs[|cs| - 1].meta.closeState)]
  }

  /** The comments after the body (`comments.iter().skip(1)`). */
  function Later(issue: Issue): seq<Comment> {
    if issue.comments == [] then [] else issue.comments[1..]
  }

  /** The fields divergence detection compares: state, body, later comments, sub-issue URLs and states. */
  datatype SyncKey = SyncKey(
    state: CloseState,
    body: string,
    comments: seq<(Option<nat>, string)>,
    children: seq<(Option<string>, CloseState)>)

  function Key(issue: Issue): SyncKey {
    SyncKey(issue.meta.closeState, BaseBody(issue), CommentKeys(Later(issue)), ChildKeys(issue.children))
  }

  /**
   * `PartialEq for Issue`: equal exactly when the compared fields are;
   * titles, labels, ownership and blockers are ignored.
   */
  method Equal(a: Issue, b: Issue) returns (r: bool)
    ensures r <==> Key(a) == Key(b)
  {
    if a.meta.closeState != b.meta.closeState {
      return false;
    }
    if BaseBody(a) != BaseBody(b) {
      return false;
    }
    r := SameComments(Later(a), Later(b));
    if r {
      r := SameChildren(a.children, b.children);
    }
  }

  /** The comparison of the later comments: same length, then id and body one by one. */
  method SameComments(sa: seq<Comment>, sb: seq<Comment>) returns (r: bool)
    ensures r <==> CommentKeys(sa) == CommentKeys(sb)
  {
    if |sa| != |sb| {
      return false;
    }
    var i := 0;
    while i < |sa|
      invariant 0 <= i <= |sa|
      invariant forall j :: 0 <= j < i ==> sa[j].id == sb[j].id && sa[j].body == sb[j].body
    {
      if sa[i].id != sb[i].id || sa[i].body != sb[i].body {
        assert CommentKeys(sa)[i] != CommentKeys(sb)[i];
        return false;
      }
      i := i + 1;
    }
    assert CommentKeys(sa) == CommentKeys(sb);
    return true;
  }

  /** The comparison of the sub-issues: same length, then URL and state one by one. */
  method SameChildren(xs: seq<Issue>, ys: seq<Issue>) returns (r: bool)
    ensures r <==> ChildKeys(xs) == ChildKeys(ys)
  {
    if |xs| != |ys| {
      return false;
    }
    var k := 0;
    while k < |xs|
      invariant 0 <= k <= |xs|
      invariant forall j :: 0 <= j < k ==> xs[j].meta.url == ys[j].meta.url && xs[j].meta.closeState == ys[j].meta.closeState
    {
      if xs[k].meta.url != ys[k].meta.url || xs[k].meta.closeState != ys[k].meta.closeState {
        assert ChildKeys(xs)[k] != ChildKeys(ys)[k];
        return false;
      }
      k := k + 1;
    }
    SameKeysOf(xs, ys);
    return true;
  }

  /**
   * An issue rebuilt from the state stored at a fetch equals the issue
   * built from that fetch, whoever the current user is.
   */
  lemma {:induction false} FromMetaMatchesFromGithub(entry: MetaEntry, issue: Github.GithubIssue, comments: seq<Github.GithubComment>,
                                  subs: seq<Github.GithubIssue>, owner: string, repo: string, user: string)
    requires entry.issueNumber == issue.number && entry.originalIssueBody == issue.body
    requires entry.originalCloseState == StateOf(issue.state)
    requires entry.originalComments == Github.OriginalComments(comments)
    requires |entry.originalSubIssues| == |subs|
    requires forall i :: 0 <= i < |subs| ==>
      entry.originalSubIssues[i].number == subs[i].number && entry.originalSubIssues[i].state == subs[i].state
    ensures Key(FromMeta(entry, owner, repo)) == Key(FromGithub(issue, comments, subs, owner, repo, user))
  {
    var m := FromMeta(entry, owner, repo);
    var g := FromGithub(issue, comments, subs, owner, repo, user);
    AfterFirst(Comment(None, Text(entry.originalIssueBody), true), StoredComments(entry.originalComments));
    AfterFirst(Comment(None, Text(issue.body), issue.login == user), GithubComments(comments, user));
    SameCommentKeys(entry.originalComments, comments, user);
    SameChildKeys(entry.originalSubIssues, subs, owner, repo, user);
  }

  lemma AfterFirst(c: Comment, rest: seq<Comment>)
    ensures ([c] + rest)[1..] == rest
  {
  }

  /** Stored comments and the fetched comments they were made from compare equal. */
  lemma SameCommentKeys(stored: seq<Github.OriginalComment>, comments: seq<Github.GithubComment>, user: string)
    requires stored == Github.OriginalComments(comments)
    ensures CommentKeys(StoredComments(stored)) == CommentKeys(GithubComments(comments, user))
  {
    var a, b := CommentKeys(StoredComments(stored)), CommentKeys(GithubComments(comments, user));
    forall i | 0 <= i < |a| ensures a[i] == b[i] {
      assert StoredComments(stored)[i].body == GithubComments(comments, user)[i].body;
    }
  }

  /** Stored sub-issues and the fetched sub-issues they were made from compare equal. */
  lemma SameChildKeys(stored: seq<Github.OriginalSubIssue>, subs: seq<Github.GithubIssue>, owner: string, repo: string, user: string)
    requires |stored| == |subs|
    requires forall i :: 0 <= i < |subs| ==> stored[i].number == subs[i].number && stored[i].state == subs[i].state
    ensures ChildKeys(StoredChildren(stored, owner, repo)) == ChildKeys(GithubChildren(subs, owner, repo, user))
  {
    var xs, ys := StoredChildren(stored, owner, repo), GithubChildren(subs, owner, repo, user);
    forall i | 0 <= i < |xs| ensures xs[i].meta.url == ys[i].meta.url && xs[i].meta.closeState == ys[i].meta.closeState {
      SameChildKey(stored[i], subs[i], owner, repo, user);
    }
    SameKeysOf(xs, ys);
  }

  lemma SameChildKey(stored: Github.OriginalSubIssue, sub: Github.GithubIssue, owner: string, repo: string, user: string)
    requires stored.number == sub.number && stored.state == sub.state
    ensures StoredChild(stored, owner, repo).meta.url == GithubChild(sub, owner, repo, user).meta.url
    ensures StoredChild(stored, owner, repo).meta.closeState == GithubChild(sub, owner, repo, user).meta.closeState
  {
  }

  /** Children with the same urls and states, position by position, have the same keys. */
  lemma SameKeysOf(xs: seq<Issue>, ys: seq<Issue>)
    requires |xs| == |ys|
    requires forall i :: 0 <= i < |xs| ==> xs[i].meta.url == ys[i].meta.url && xs[i].meta.closeState == ys[i].meta.closeState
    ensures ChildKeys(xs) == ChildKeys(ys)
  {
    var a, b := ChildKeys(xs), ChildKeys(ys);
    assert forall i :: 0 <= i < |a| ==> a[i] == b[i];
  }

  /** Two issues that differ in state, body or a later comment are not equal. */
  lemma EqualSeesComments(a: Issue, b: Issue, i: nat)
    requires i < |Later(a)| && i < |Later(b)|
    requires Later(a)[i].body != Later(b)[i].body
    ensures Key(a) != Key(b)
  {
    assert CommentKeys(Later(a))[i] != CommentKeys(Later(b))[i];
  }

  // ---------------------------------------------------------------------
  // Sub-issues by path

  /** The issue at an index path below `issue`. */
  function ChildAt(issue: Issue, path: seq<nat>): Option<Issue>
    decreases |path|
  {
    if path == [] then Some(issue)
    else if path[0] < |issue.children| then ChildAt(issue.children[path[0]], path[1..])
    else None
  }

  /** One more index looks one level further down. */
  lemma {:induction false} ChildAtSnoc(issue: Issue, path: seq<nat>, k: nat)
    ensures ChildAt(issue, path + [k]) ==
      match ChildAt(issue, path)
        case None => None
        case Some(c) => if k < |c.children| then Some(c.children[k]) else None
    decreases |path|
  {
    if path == [] {
      assert [k][1..] == [];
    } else {
      assert (path + [k])[1..] == path[1..] + [k];
      if path[0] < |issue.children| {
        ChildAtSnoc(issue.children[path[0]], path[1..], k);
      }
    }
  }

  /** `Issue::get_child_mut`, read-only: walks the path one index at a time. */
  method GetChildMut(issue: Issue, path: seq<nat>) returns (r: Option<Issue>)
    ensures r == ChildAt(issue, path)
  {
    if path == [] {
      return Some(issue);
    }
    var current := issue;
    var i := 0;
    while i < |path| - 1
      invariant 0 <= i <= |path| - 1
      invariant ChildAt(issue, path[..i]) == Some(current)
    {
      var idx := path[i];
      ChildAtSnoc(issue, path[..i], idx);
      assert path[..i] + [idx] == path[..i + 1];
      if idx >= |current.children| {
        NoneBelow(issue, path[..i + 1], path[i + 1..]);
        SliceSplit(path, i + 1);
        return None;
      }
      current := current.children[idx];
      i := i + 1;
    }
    var last := path[|path| - 1];
    ChildAtSnoc(issue, path[..i], last);
    assert path[..i] + [last] == path;
    r := if last < |current.children| then Some(current.children[last]) else None;
  }

  /** A path that leaves the tree stays outside it whatever follows. */
  lemma {:induction false} NoneBelow(issue: Issue, p: seq<nat>, q: seq<nat>)
    requires ChildAt(issue, p).None?
    ensures ChildAt(issue, p + q).None?
    decreases |p|
  {
    if p != [] {
      assert (p + q)[1..] == p[1..] + q;
      if p[0] < |issue.children| {
        NoneBelow(issue.children[p[0]], p[1..], q);
      }
    }
  }

  /** The tree with the issue at `path` replaced: what writing through `get_child_mut` does. */
  function ReplaceAt(issue: Issue, path: seq<nat>, x: Issue): Issue
    decreases |path|
  {
    if path == [] then x
    else if path[0] < |issue.children| then
      issue.(children := issue.children[path[0] := ReplaceAt(issue.children[path[0]], path[1..], x)])
    else issue
  }

  /** A replacement is found where it was put, and nothing changes when the path leads nowhere. */
  lemma {:induction false} ReplaceAtFound(issue: Issue, path: seq<nat>, x: Issue)
    ensures ChildAt(issue, path).Some? ==> ChildAt(ReplaceAt(issue, path, x), path) == Some(x)
    ensures ChildAt(issue, path).None? ==> ReplaceAt(issue, path, x) == issue
    decreases |path|
  {
    if path != [] && path[0] < |issue.children| {
      ReplaceAtFound(issue.children[path[0]], path[1..], x);
    }
  }

  /** A replacement leaves the root's own fields and the number of its children alone. */
  lemma ReplaceAtKeepsRoot(issue: Issue, path: seq<nat>, x: Issue)
    requires path != []
    ensures var r := ReplaceAt(issue, path, x);
      r.meta == issue.meta && r.labels == issue.labels && r.comments == issue.comments
      && r.blockers == issue.blockers && |r.children| == |issue.children|
  {
  }
}
