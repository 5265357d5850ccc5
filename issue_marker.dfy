/**
 * The line markers of the issue file format in src/issue/marker.rs: HTML
 * comments carrying URLs, the `!c`/`!b` shorthands, the blockers header and
 * the vim fold markers around omitted content.
 */
module IssueMarker {
  import opened Wrappers
  import opened Strings
  import Headers
  import opened MarkerText

  datatype Marker =
    | IssueUrl(url: string, immutable: bool)
    | SubIssue(url: string)
    | Comment(url: string, id: nat, immutable: bool)
    | NewComment
    | BlockersSection(header: Headers.Header)
    | OmittedStart
    | OmittedEnd

  /** Header text naming the blockers section: `blockers`/`blocker`, any case, trailing ':'s ignored. */
  predicate IsBlockersTitle(content: string) {
    var l := TrimEndMatches(Lower(content), ':');
    l == "blockers" || l == "blocker"
  }

  /** The URL-carrying markers, from what follows the keywords. */
  function UrlMarker(p: UrlPart): Option<Marker> {
    match p
      case SubUrl(u) => Some(SubIssue(u))
      case CommentUrl(u, id, imm) => Some(Comment(u, id, imm))
      case PlainUrl(u, imm) => Some(IssueUrl(u, imm))
      case NoUrl => None
  }

  /** The HTML comment forms, given the trimmed text between `<!--` and `-->`. */
  function DecodeInner(inner: string): Option<Marker> {
    var lower := Lower(inner);
    if lower == "blockers" || lower == "blocker" then Some(BlockersSection(Headers.New(1, "Blockers")))
    else if lower == "new comment" then Some(NewComment)
    else if StartsWith(lower, "omitted") && Contains(lower, "{{{") then Some(OmittedStart)
    else if StartsWith(lower, ",}}}") then Some(OmittedEnd)
    else UrlMarker(DecodeUrlPart(inner))
  }

  /** Text that is no keyword is read as a URL. */
  lemma DecodeInnerUrl(inner: string)
    requires !IsKeyword(Lower(inner))
    ensures DecodeInner(inner) == UrlMarker(DecodeUrlPart(inner))
  {
  }

  /** The `!c` / `!b` shorthands, in either case. */
  predicate IsShorthand(t: string, letter: char) {
    EqIgnoreCase(t, ['!', letter])
  }

  /** A markdown header whose text names the blockers section. */
  predicate IsBlockersHeader(t: string) {
    var h := Headers.Decode(t);
    h.Some? && IsBlockersTitle(h.value.content)
  }

  /** `Marker::decode`. */
  function Decode(s: string): (r: Option<Marker>)
    ensures AllWhitespace(s) ==> r.None?
  {
    BlankNoMarker(s);
    DecodeTrimmed(Trim(s))
  }

  /** A blank line trims to nothing, which holds no marker. */
  lemma BlankNoMarker(s: string)
    ensures AllWhitespace(s) ==> DecodeTrimmed(Trim(s)) == None
  {
    if AllWhitespace(s) {
      TrimEmptyIff(s);
      EmptyNoMarker();
    }
  }

  lemma EmptyNoMarker()
    ensures DecodeTrimmed([]) == None
  {
    assert !StartsWith([], "<!--");
    assert Lower([]) == [];
    assert !IsBlockersHeader([]);
  }

  /** `Marker::decode` after its first step, the trim. */
  function DecodeTrimmed(t: string): Option<Marker> {
    if IsShorthand(t, 'c') then Some(NewComment)
    else if IsShorthand(t, 'b') then Some(BlockersSection(Headers.New(1, "Blockers")))
    else if IsBlockersHeader(t) then Some(BlockersSection(Headers.Decode(t).value))
    else
      match HtmlInner(t)
        case None => None
        case Some(inner) => DecodeInner(inner)
  }

  /** What any decoded marker satisfies. */
  lemma DecodeProps(s: string)
    ensures var r := Decode(s);
      && (r.Some? && r.value.BlockersSection? ==> r.value.header.level >= 1 && IsBlockersTitle(r.value.header.content))
      && (r.Some? && r.value.IssueUrl? ==> r.value.url != [] && !Contains(r.value.url, ISSUE_COMMENT))
      && (r.Some? && r.value.SubIssue? ==> IsTrimmed(r.value.url))
      && (r.Some? && r.value.Comment? ==> r.value.id < U64_LIMIT && Contains(r.value.url, ISSUE_COMMENT))
  {
    BlockersTitleDefault();
    var t := Trim(s);
    if !IsShorthand(t, 'c') && !IsShorthand(t, 'b') && !IsBlockersHeader(t) && HtmlInner(t).Some? {
      DecodeInnerProps(HtmlInner(t).value);
    }
  }

  lemma BlockersTitleDefault()
    ensures IsBlockersTitle("Blockers")
  {
    assert Lower("Blockers") == "blockers";
  }

  lemma DecodeInnerProps(inner: string)
    ensures var r := DecodeInner(inner);
      && (r.Some? && r.value.BlockersSection? ==> r.value.header.level >= 1 && IsBlockersTitle(r.value.header.content))
      && (r.Some? && r.value.IssueUrl? ==> r.value.url != [] && !Contains(r.value.url, ISSUE_COMMENT))
      && (r.Some? && r.value.SubIssue? ==> IsTrimmed(r.value.url))
      && (r.Some? && r.value.Comment? ==> r.value.id < U64_LIMIT && Contains(r.value.url, ISSUE_COMMENT))
  {
    BlockersTitleDefault();
    UrlMarkerProps(DecodeUrlPart(inner));
    DecodeInnerCases(inner);
  }

  /** The inside of an HTML comment names a keyword marker or a URL marker. */
  lemma DecodeInnerCases(inner: string)
    ensures DecodeInner(inner) in {Some(BlockersSection(Headers.New(1, "Blockers"))), Some(NewComment),
      Some(OmittedStart), Some(OmittedEnd), UrlMarker(DecodeUrlPart(inner))}
  {
  }

  /** What a marker read from a URL part satisfies. */
  lemma UrlMarkerProps(p: UrlPart)
    requires p.SubUrl? ==> IsTrimmed(p.url)
    requires p.CommentUrl? ==> Contains(p.url, ISSUE_COMMENT) && p.id < U64_LIMIT
    requires p.PlainUrl? ==> p.url != [] && !Contains(p.url, ISSUE_COMMENT)
    ensures var r := UrlMarker(p);
      && (r.Some? && r.value.IssueUrl? ==> r.value.url != [] && !Contains(r.value.url, ISSUE_COMMENT))
      && (r.Some? && r.value.SubIssue? ==> IsTrimmed(r.value.url))
      && (r.Some? && r.value.Comment? ==> r.value.id < U64_LIMIT && Contains(r.value.url, ISSUE_COMMENT))
      && (r.Some? ==> !r.value.BlockersSection?)
  {
  }

  /** The insides of the keyword markers' HTML comments. */
  const NEW_COMMENT: string := "new comment"
  const NEW_COMMENT_BODY: string := " new comment "
  const OMITTED_START_BODY: string := "omitted {{{always"
  const OMITTED_END_BODY: string := ",}}}"

  /** `Marker::encode`. */
  function Encode(m: Marker): (r: string)
    ensures !m.BlockersSection? ==> StartsWith(r, "<!--") && EndsWith(r, "-->")
  {
    match m
      case IssueUrl(u, imm) => if imm then Wrap("immutable " + u + " ") else Wrap(" " + u + " ")
      case SubIssue(u) => Wrap("sub " + u + " ")
      case Comment(u, _, imm) => if imm then Wrap("immutable " + u + " ") else Wrap(" " + u + " ")
      case NewComment => Wrap(NEW_COMMENT_BODY)
      case BlockersSection(h) => Headers.Encode(h)
      case OmittedStart => Wrap(OMITTED_START_BODY)
      case OmittedEnd => Wrap(OMITTED_END_BODY)
  }

  /** The markers whose encoding reads back as themselves. */
  predicate WellFormed(m: Marker) {
    match m
      case IssueUrl(u, _) => IsPlainText(u) && !Contains(u, ISSUE_COMMENT)
      case SubIssue(u) => u != [] && IsTrimmed(u)
      case Comment(u, id, _) => IsPlainText(u) && IsCommentUrl(u, id)
      case BlockersSection(h) => h.level >= 1 && IsBlockersTitle(h.content)
      case _ => true
  }

  lemma ShorthandLetter(letter: char, target: char)
    requires target == 'c' || target == 'b'
    ensures IsShorthand(['!', letter], target) <==> letter == target || letter == target - 'a' + 'A'
  {
    assert Lower(['!', target]) == ['!', target];
    assert Lower(['!', letter]) == ['!', LowerChar(letter)];
  }

  /** `!c` or `!C`, with any surrounding whitespace, is the new-comment shorthand. */
  lemma DecodeShorthandComment(pad1: string, pad2: string, letter: char)
    requires AllWhitespace(pad1) && AllWhitespace(pad2)
    requires letter == 'c' || letter == 'C'
    ensures Decode(pad1 + ['!', letter] + pad2) == Some(NewComment)
  {
    assert (pad1 + ['!', letter] + pad2)[|pad1|] == '!';
    TrimPadded(pad1, ['!', letter], pad2);
    ShorthandLetter(letter, 'c');
  }

  /** `!b` or `!B`, with any surrounding whitespace, is the blockers shorthand. */
  lemma DecodeShorthandBlockers(pad1: string, pad2: string, letter: char)
    requires AllWhitespace(pad1) && AllWhitespace(pad2)
    requires letter == 'b' || letter == 'B'
    ensures Decode(pad1 + ['!', letter] + pad2) == Some(BlockersSection(Headers.Header(1, "Blockers")))
  {
    assert (pad1 + ['!', letter] + pad2)[|pad1|] == '!';
    TrimPadded(pad1, ['!', letter], pad2);
    ShorthandLetter(letter, 'c');
    ShorthandLetter(letter, 'b');
  }

  /** A header naming the blockers section decodes to it, keeping the header's level. */
  lemma DecodeBlockersHeader(s: string, h: Headers.Header)
    requires Headers.Decode(s) == Some(h) && IsBlockersTitle(h.content)
    ensures Decode(s) == Some(BlockersSection(h))
  {
    var t := Trim(s);
    Headers.DecodeTrimmed(s);
    assert t[0] == '#' by {
      assert t == Headers.Encode(h);
    }
    NotShorthand(t);
  }

  /** A trimmed line starting with '#' or '<' is not a shorthand. */
  lemma NotShorthand(t: string)
    requires t != [] && (t[0] == '#' || t[0] == '<')
    ensures !IsShorthand(t, 'c') && !IsShorthand(t, 'b')
  {
    assert Lower(t)[0] == t[0];
    assert Lower("!c")[0] == '!';
    assert Lower("!b")[0] == '!';
  }

  /**
   * Text that is neither a shorthand nor a blockers header nor wrapped in
   * `<!--`…`-->` is not a marker.
   */
  lemma DecodeUnwrapped(s: string)
    requires !IsShorthand(Trim(s), 'c') && !IsShorthand(Trim(s), 'b') && !IsBlockersHeader(Trim(s))
    requires !StartsWith(Trim(s), "<!--") || !EndsWith(Trim(s), "-->")
    ensures Decode(s) == None
  {
  }

  /** Wrapping text in `<!--`…`-->` decodes its trimmed inside. */
  lemma DecodeWrapped(body: string)
    ensures Decode(Wrap(body)) == DecodeInner(Trim(body))
  {
    WrapTrimmed(body);
    TrimmedIsFixed(Wrap(body));
    NotShorthand(Wrap(body));
    WrapNotHeader(body);
    HtmlInnerOf(body);
  }

  lemma WrapNotHeader(body: string)
    ensures !IsBlockersHeader(Wrap(body))
  {
    WrapTrimmed(body);
    Headers.DecodeNoHash(Wrap(body));
  }

  lemma WrapTrimmed(body: string)
    ensures Wrap(body) != [] && Wrap(body)[0] == '<' && IsTrimmed(Wrap(body))
  {
    var t := Wrap(body);
    assert t[0] == '<' && t[|t| - 1] == '>';
  }

  /** A comment marker whose anchor is not followed by a u64 is not a marker. */
  lemma DecodeCommentWithoutId(url: string)
    requires IsPlainText(url) && Contains(url, ISSUE_COMMENT) && CommentId(url).None?
    ensures Decode(Wrap(" " + url + " ")) == None
  {
    DecodeUrlMarker(url, false);
  }

  /** The space-padded inside of an encoded marker. */
  lemma PaddedInner(prefix: string, u: string)
    requires u != [] && IsTrimmed(u) && prefix != [] && !IsWhitespace(prefix[0])
    ensures Trim(prefix + u + " ") == prefix + u
  {
    var m := prefix + u;
    assert m[0] == prefix[0] && m[|m| - 1] == u[|u| - 1];
    assert prefix + u + " " == [] + m + " ";
    TrimPadded([], m, " ");
  }

  /** `decode(encode(m)) == m` for every well-formed marker. */
  lemma DecodeEncode(m: Marker)
    requires WellFormed(m)
    ensures Decode(Encode(m)) == Some(m)
  {
    if m.IssueUrl? {
      DecodeEncodeIssueUrl(m);
    } else if m.Comment? {
      DecodeEncodeComment(m);
    } else if m.SubIssue? {
      DecodeEncodeSubIssue(m);
    } else if m.BlockersSection? {
      BlockersContentTrimmed(m.header.content);
      Headers.DecodeEncode(m.header);
      DecodeBlockersHeader(Headers.Encode(m.header), m.header);
    } else if m.NewComment? {
      DecodeNewComment(m);
    } else if m.OmittedStart? {
      DecodeOmittedStart(m);
    } else {
      DecodeOmittedEnd(m);
    }
  }

  lemma DecodeEncodeIssueUrl(m: Marker)
    requires m.IssueUrl? && WellFormed(m)
    ensures Decode(Encode(m)) == Some(m)
  {
    DecodeUrlMarker(m.url, m.immutable);
    DecodePlain(m.url, m.immutable);
  }

  lemma DecodeEncodeComment(m: Marker)
    requires m.Comment? && WellFormed(m)
    ensures Decode(Encode(m)) == Some(m)
  {
    DecodeCommentMarker(m.url, m.id, m.immutable);
  }

  lemma DecodeCommentMarker(u: string, id: nat, imm: bool)
    requires IsPlainText(u) && IsCommentUrl(u, id)
    ensures Decode(Encode(Comment(u, id, imm))) == Some(Comment(u, id, imm))
  {
    DecodeUrlMarker(u, imm);
    DecodeCommentOf(u, id, imm);
  }

  lemma DecodeEncodeSubIssue(m: Marker)
    requires m.SubIssue? && WellFormed(m)
    ensures Decode(Encode(m)) == Some(m)
  {
    var u := m.url;
    DecodeWrapped("sub " + u + " ");
    PaddedInner("sub ", u);
    KeywordPrefixes(u);
    DecodeSub(u);
    DecodeInnerUrl("sub " + u);
  }

  /** The URL and comment encodings decode their inside as a URL. */
  lemma DecodeUrlMarker(u: string, imm: bool)
    requires IsPlainText(u)
    ensures Decode(if imm then Wrap("immutable " + u + " ") else Wrap(" " + u + " "))
      == UrlMarker(DecodeUrlPart(if imm then "immutable " + u else u))
  {
    if imm {
      DecodeWrapped("immutable " + u + " ");
      PaddedInner("immutable ", u);
      KeywordPrefixes(u);
      DecodeInnerUrl("immutable " + u);
    } else {
      DecodeWrapped(" " + u + " ");
      TrimPadded(" ", u, " ");
      DecodeInnerUrl(u);
    }
  }

  /** A wrapped body decodes to the marker its trimmed inside names. */
  lemma DecodeWrappedTo(body: string, m: Marker)
    requires DecodeInner(Trim(body)) == Some(m)
    ensures Decode(Wrap(body)) == Some(m)
  {
    DecodeWrapped(body);
  }

  lemma DecodeNewComment(m: Marker)
    requires m.NewComment?
    ensures Decode(Encode(m)) == Some(m)
  {
    TrimNewComment();
    LowerNewComment();
    DecodeInnerNewComment(NEW_COMMENT);
    DecodeWrappedTo(NEW_COMMENT_BODY, m);
  }

  lemma LowerNewComment()
    ensures Lower(NEW_COMMENT) == NEW_COMMENT
  {
    LowerIsFixed(NEW_COMMENT);
  }

  /** Any inside that lower-cases to `new comment` is the new-comment marker. */
  lemma DecodeInnerNewComment(inner: string)
    requires Lower(inner) == NEW_COMMENT
    ensures DecodeInner(inner) == Some(NewComment)
  {
  }

  lemma TrimNewComment()
    ensures Trim(NEW_COMMENT_BODY) == NEW_COMMENT
  {
    assert NEW_COMMENT_BODY == " " + NEW_COMMENT + " ";
    TrimPadded(" ", NEW_COMMENT, " ");
  }

  lemma DecodeOmittedStart(m: Marker)
    requires m.OmittedStart?
    ensures Decode(Encode(m)) == Some(m)
  {
    OmittedStartInner();
    DecodeWrappedTo(OMITTED_START_BODY, m);
  }

  lemma OmittedStartInner()
    ensures DecodeInner(Trim(OMITTED_START_BODY)) == Some(OmittedStart)
  {
    OmittedBodyFixed();
    OmittedBodyShape();
    DecodeInnerOmitted(OMITTED_START_BODY);
  }

  lemma OmittedBodyFixed()
    ensures Trim(OMITTED_START_BODY) == OMITTED_START_BODY
    ensures Lower(OMITTED_START_BODY) == OMITTED_START_BODY
  {
    TrimmedIsFixed(OMITTED_START_BODY);
    LowerIsFixed(OMITTED_START_BODY);
  }

  lemma OmittedBodyShape()
    ensures StartsWith(OMITTED_START_BODY, "omitted")
    ensures Contains(OMITTED_START_BODY, "{{{")
  {
    ContainsAt(OMITTED_START_BODY, "{{{", 8);
  }

  /** Text that starts with `omitted` and holds a fold opener reads as the omitted-start marker. */
  lemma DecodeInnerOmitted(inner: string)
    requires StartsWith(Lower(inner), "omitted") && Contains(Lower(inner), "{{{")
    ensures DecodeInner(inner) == Some(OmittedStart)
  {
    var lower := Lower(inner);
    assert lower[0] == 'o';
  }

  lemma DecodeOmittedEnd(m: Marker)
    requires m.OmittedEnd?
    ensures Decode(Encode(m)) == Some(m)
  {
    OmittedEndInner();
    DecodeWrappedTo(OMITTED_END_BODY, m);
  }

  lemma OmittedEndInner()
    ensures DecodeInner(Trim(OMITTED_END_BODY)) == Some(OmittedEnd)
  {
    var x := OMITTED_END_BODY;
    TrimmedIsFixed(x);
    LowerIsFixed(x);
    assert StartsWith(x, ",}}}");
  }

  /** A blockers title ends in ':' or a letter, so it has no trailing whitespace. */
  lemma BlockersContentTrimmed(content: string)
    requires IsBlockersTitle(content)
    ensures content != [] && !IsWhitespace(content[|content| - 1])
  {
    var lc := Lower(content);
    var l := TrimEndMatches(lc, ':');
    assert l != [];
    assert lc[|lc| - 1] == ':' || lc[|lc| - 1] == l[|l| - 1];
    assert lc[|lc| - 1] == LowerChar(content[|content| - 1]);
  }
}
