/**
 * The extension-aware markers of src/marker.rs: the same HTML-comment forms
 * as src/issue/marker.rs, a payload-free blockers section, the two
 * `omitted` forms, and a `// …` rendering for typst files.
 */
module FileMarker {
  import opened Wrappers
  import opened Strings
  import opened Extensions
  import opened MarkerText

  datatype Marker =
    | IssueUrl(url: string, immutable: bool)
    | SubIssue(url: string)
    | Comment(url: string, id: nat, immutable: bool)
    | NewComment
    | BlockersSection
    | Omitted
    | OmittedWithHint

  /**
   * A markdown header naming the blockers section: after lower-casing, a
   * leading '#', any further '#', surrounding whitespace and trailing ':'s
   * are dropped and what is left must be `blockers`.
   */
  predicate IsHashBlockers(t: string) {
    IsLowerHashBlockers(Lower(t))
  }

  predicate IsLowerHashBlockers(lower: string) {
    StartsWith(lower, "#") && TrimEndMatches(Trim(TrimStartMatches(lower[1..], '#')), ':') == BLOCKERS_TEXT
  }

  /** The typst blockers line, matched as a whole and in any case. */
  predicate IsTypBlockers(t: string) {
    EqIgnoreCase(t, TypLine(BLOCKERS_TEXT)) || EqIgnoreCase(t, TypLine(BLOCKER_TEXT))
  }

  /** The URL-carrying markers, from what follows the keywords. */
  function UrlMarker(p: UrlPart): Option<Marker> {
    match p
      case SubUrl(u) => Some(SubIssue(u))
      case CommentUrl(u, id, imm) => Some(Comment(u, id, imm))
      case PlainUrl(u, imm) => Some(IssueUrl(u, imm))
      case NoUrl => None
  }

  /** The keyword and URL forms, given the trimmed text inside a marker. */
  function DecodeInner(inner: string): Option<Marker> {
    var lower := Lower(inner);
    if lower == BLOCKERS_TEXT || lower == BLOCKER_TEXT then Some(BlockersSection)
    else if lower == "new comment" then Some(NewComment)
    else if lower == "omitted" then Some(Omitted)
    else if StartsWith(lower, "omitted") && Contains(lower, RENDER_CLOSED) then Some(OmittedWithHint)
    else UrlMarker(DecodeUrlPart(inner))
  }

  /**
   * `Marker::decode` as written: the extension argument is never consulted,
   * so only the markdown forms and the exact typst blockers line are read.
   */
  function Decode(s: string, ext: Extension): (r: Option<Marker>)
    ensures AllWhitespace(s) ==> r.None?
  {
    BlankNoMarker(s);
    DecodeTrimmed(Trim(s))
  }

  /** A blank line trims to nothing, which holds no marker. */
  lemma BlankNoMarker(s: string)
    ensures AllWhitespace(s) ==> DecodeTrimmed(Trim(s)) == None
  {
    if AllWhitespace(s) {
      TrimEmptyIff(s);
      EmptyNoMarker();
    }
  }

  lemma EmptyNoMarker()
    ensures DecodeTrimmed([]) == None
  {
    assert !StartsWith([], "<!--");
    assert Lower([]) == [];
  }

  /** `Marker::decode` after its first step, the trim. */
  function DecodeTrimmed(t: string): Option<Marker> {
    if IsHashBlockers(t) then Some(BlockersSection)
    else if IsTypBlockers(t) then Some(BlockersSection)
    else
      match HtmlInner(t)
        case None => None
        case Some(inner) => DecodeInner(inner)
  }

  /**
   * The decoder with the typst forms read as well: a trimmed typst line
   * starting with `//` is decoded from the trimmed text after the slashes,
   * like the inside of an HTML comment.
   */
  function DecodeFixed(s: string, ext: Extension): (r: Option<Marker>)
    ensures AllWhitespace(s) ==> r.None?
    ensures ext.Md? ==> r == Decode(s, ext)
  {
    BlankNoMarker(s);
    var t := Trim(s);
    if ext.Typ? && StartsWith(t, "//") then DecodeInner(Trim(t[2..])) else DecodeTrimmed(t)
  }

  /** The texts of the keyword markers. */
  const NEW_COMMENT_TEXT: string := "new comment"
  const OMITTED_TEXT: string := "omitted"
  const RENDER_CLOSED: string := "render-closed"
  const OMITTED_HINT_TEXT: string := "omitted (use --" + RENDER_CLOSED + " to unfold)"
  const BLOCKERS_TEXT: string := "blockers"
  const BLOCKER_TEXT: string := "blocker"
  const MD_BLOCKERS_TITLE: string := "Blockers"

  /** A typst comment line. */
  function TypLine(text: string): string {
    "// " + text
  }

  /** `Marker::encode`. */
  function Encode(m: Marker, ext: Extension): (r: string)
    ensures ext.Md? && !m.BlockersSection? ==> StartsWith(r, "<!--") && EndsWith(r, "-->")
    ensures ext.Typ? ==> StartsWith(r, "// ")
  {
    match ext
      case Md =>
        (match m
          case IssueUrl(u, imm) => if imm then Wrap("immutable " + u + " ") else Wrap(" " + u + " ")
          case SubIssue(u) => Wrap("sub " + u + " ")
          case Comment(u, _, imm) => if imm then Wrap("immutable " + u + " ") else Wrap(" " + u + " ")
          case NewComment => Wrap(" " + NEW_COMMENT_TEXT + " ")
          case BlockersSection => "# " + MD_BLOCKERS_TITLE
          case Omitted => Wrap(" " + OMITTED_TEXT + " ")
          case OmittedWithHint => Wrap(" " + OMITTED_HINT_TEXT + " "))
      case Typ =>
        (match m
          case IssueUrl(u, imm) => if imm then TypLine("immutable " + u) else TypLine(u)
          case SubIssue(u) => TypLine("sub " + u)
          case Comment(u, _, imm) => if imm then TypLine("immutable " + u) else TypLine(u)
          case NewComment => TypLine(NEW_COMMENT_TEXT)
          case BlockersSection => TypLine(BLOCKERS_TEXT)
          case Omitted => TypLine(OMITTED_TEXT)
          case OmittedWithHint => TypLine(OMITTED_HINT_TEXT))
  }

  /** The markers whose encoding reads back as themselves. */
  predicate WellFormed(m: Marker) {
    match m
      case IssueUrl(u, _) => IsPlainText(u) && !Contains(u, ISSUE_COMMENT)
      case SubIssue(u) => u != [] && IsTrimmed(u)
      case Comment(u, id, _) => IsPlainText(u) && IsCommentUrl(u, id)
      case _ => true
  }

  /** The text that carries a marker, between `<!--`/`-->` or after `// `. */
  function InnerText(m: Marker): string {
    match m
      case IssueUrl(u, imm) => if imm then "immutable " + u else u
      case SubIssue(u) => "sub " + u
      case Comment(u, _, imm) => if imm then "immutable " + u else u
      case NewComment => NEW_COMMENT_TEXT
      case BlockersSection => BLOCKERS_TEXT
      case Omitted => OMITTED_TEXT
      case OmittedWithHint => OMITTED_HINT_TEXT
  }

  /* ---------------------------------------------------------------- */
  /* The blockers header                                              */
  /* ---------------------------------------------------------------- */

  /**
   * Any run of '#', a space, `blockers` in any case and any number of
   * trailing ':' is the blockers section.
   */
  lemma DecodeHashBlockers(hashes: nat, title: string, colons: nat, ext: Extension)
    requires hashes >= 1 && Lower(title) == BLOCKERS_TEXT
    ensures Decode(Repeat('#', hashes) + " " + title + Repeat(':', colons), ext) == Some(BlockersSection)
  {
    HashBlockersLine(hashes, title, colons);
    HashBlockersTrimmed(hashes, title, colons);
    TrimmedIsFixed(Repeat('#', hashes) + " " + title + Repeat(':', colons));
  }

  lemma BlockersTitleShape(title: string)
    requires Lower(title) == BLOCKERS_TEXT
    ensures var x := Lower(title); x != [] && x[0] == 'b' && x[|x| - 1] == 's'
  {
  }

  lemma HashBlockersLine(hashes: nat, title: string, colons: nat)
    requires hashes >= 1 && Lower(title) == BLOCKERS_TEXT
    ensures IsHashBlockers(Repeat('#', hashes) + " " + title + Repeat(':', colons))
  {
    BlockersTitleShape(title);
    LowerHashLine(hashes, title, colons);
    HashLineTitle(hashes, Lower(title), colons);
  }

  lemma HashBlockersTrimmed(hashes: nat, title: string, colons: nat)
    requires hashes >= 1 && Lower(title) == BLOCKERS_TEXT
    ensures IsTrimmed(Repeat('#', hashes) + " " + title + Repeat(':', colons))
  {
    var t := Repeat('#', hashes) + " " + title + Repeat(':', colons);
    BlockersTitleShape(title);
    assert t[|t| - 1] == (if colons == 0 then title[|title| - 1] else ':');
    assert !IsWhitespace(t[|t| - 1]) by {
      if colons == 0 {
        assert LowerChar(title[|title| - 1]) == Lower(title)[|title| - 1];
      }
    }
  }

  /** Lower-casing a header line only lower-cases its title. */
  lemma LowerHashLine(hashes: nat, title: string, colons: nat)
    ensures Lower(Repeat('#', hashes) + " " + title + Repeat(':', colons))
      == Repeat('#', hashes) + " " + Lower(title) + Repeat(':', colons)
  {
    LowerAppend(Repeat('#', hashes) + " " + title, Repeat(':', colons));
    LowerAppend(Repeat('#', hashes) + " ", title);
    LowerAppend(Repeat('#', hashes), " ");
    assert Lower(Repeat('#', hashes)) == Repeat('#', hashes);
    assert Lower(Repeat(':', colons)) == Repeat(':', colons);
    assert Lower(" ") == " ";
  }

  /** The header test strips the hashes, the space and the colons around a title. */
  lemma HashLineTitle(hashes: nat, x: string, colons: nat)
    requires hashes >= 1 && x != [] && !IsWhitespace(x[0]) && x[0] != '#'
    requires !IsWhitespace(x[|x| - 1]) && x[|x| - 1] != ':'
    ensures var l := Repeat('#', hashes) + " " + x + Repeat(':', colons);
      StartsWith(l, "#") && TrimEndMatches(Trim(TrimStartMatches(l[1..], '#')), ':') == x
  {
    var l := Repeat('#', hashes) + " " + x + Repeat(':', colons);
    var rest := " " + x + Repeat(':', colons);
    StartsWithFirst(l, '#');
    HashLineTail(hashes, x, colons);
    assert rest[0] == ' ';
    TrimStartMatchesRepeat(hashes - 1, rest);
    TitleThenColons(x, colons);
  }

  lemma HashLineTail(hashes: nat, x: string, colons: nat)
    requires hashes >= 1
    ensures (Repeat('#', hashes) + " " + x + Repeat(':', colons))[1..]
      == Repeat('#', hashes - 1) + (" " + x + Repeat(':', colons))
  {
    var rest := " " + x + Repeat(':', colons);
    assert Repeat('#', hashes) + " " + x + Repeat(':', colons) == Repeat('#', hashes) + rest;
    assert Repeat('#', hashes) == ['#'] + Repeat('#', hashes - 1);
  }

  lemma TitleThenColons(x: string, colons: nat)
    requires x != [] && !IsWhitespace(x[0]) && !IsWhitespace(x[|x| - 1]) && x[|x| - 1] != ':'
    ensures TrimEndMatches(Trim(" " + x + Repeat(':', colons)), ':') == x
  {
    var b := x + Repeat(':', colons);
    assert b[0] == x[0];
    assert b[|b| - 1] == (if colons == 0 then x[|x| - 1] else ':');
    assert " " + x + Repeat(':', colons) == " " + b + [];
    TrimPadded(" ", b, []);
    TrimEndMatchesRepeat(x, colons);
  }

  lemma {:induction false} TrimStartMatchesRepeat(n: nat, rest: string)
    requires rest == [] || rest[0] != '#'
    ensures TrimStartMatches(Repeat('#', n) + rest, '#') == rest
  {
    if n > 0 {
      assert (Repeat('#', n) + rest)[1..] == Repeat('#', n - 1) + rest;
      TrimStartMatchesRepeat(n - 1, rest);
    }
  }

  lemma {:induction false} TrimEndMatchesRepeat(s: string, n: nat)
    requires s == [] || s[|s| - 1] != ':'
    ensures TrimEndMatches(s + Repeat(':', n), ':') == s
  {
    if n > 0 {
      assert (s + Repeat(':', n))[..|s| + n - 1] == s + Repeat(':', n - 1);
      TrimEndMatchesRepeat(s, n - 1);
    }
  }

  /**
   * The blockers header must fill the line: whatever follows `blockers` can
   * only be ':'s, so a trimmed header with a longer title is not one.
   */
  lemma HashBlockersWhole(t: string)
    requires IsTrimmed(t) && IsHashBlockers(t)
    ensures var l := Lower(t); l[|l| - 1] == 's' || l[|l| - 1] == ':'
  {
    LowerLastNotWhitespace(t);
    HashTitleLast(Lower(t));
  }

  lemma LowerLastNotWhitespace(t: string)
    requires IsTrimmed(t) && t != []
    ensures var l := Lower(t); !IsWhitespace(l[|l| - 1])
  {
    var l := Lower(t);
    assert l[|l| - 1] == LowerChar(t[|t| - 1]);
  }

  lemma HashTitleLast(lower: string)
    requires lower != [] && !IsWhitespace(lower[|lower| - 1])
    requires TrimEndMatches(Trim(TrimStartMatches(lower[1..], '#')), ':') == BLOCKERS_TEXT
    ensures lower[|lower| - 1] == 's' || lower[|lower| - 1] == ':'
  {
    var a := TrimStartMatches(lower[1..], '#');
    var ts := TrimStart(a);
    var b := TrimEnd(ts);
    BlockersThenColons(b);
    TrimStartLast(a, ts);
    HashesLast(lower, a);
    TrimEndLast(ts);
  }

  lemma HashesLast(lower: string, a: string)
    requires lower != [] && a == TrimStartMatches(lower[1..], '#') && a != []
    ensures lower[|lower| - 1] == a[|a| - 1]
  {
    TrimStartMatchesSuffix(lower[1..], '#');
    SuffixLast(lower[1..], a);
  }

  lemma TrimStartLast(a: string, ts: string)
    requires ts == TrimStart(a) && ts != []
    ensures a[|a| - 1] == ts[|ts| - 1]
  {
    SuffixLast(a, ts);
  }

  lemma TrimEndLast(ts: string)
    requires TrimEnd(ts) != []
    ensures ts != [] && (IsWhitespace(ts[|ts| - 1]) || ts[|ts| - 1] == TrimEnd(ts)[|TrimEnd(ts)| - 1])
  {
    if !IsWhitespace(ts[|ts| - 1]) {
      TrimEndPadded(ts, []);
      assert ts + [] == ts;
    }
  }

  lemma SuffixLast(s: string, r: string)
    requires r != [] && |r| <= |s| && r == s[|s| - |r|..]
    ensures r[|r| - 1] == s[|s| - 1]
  {
  }

  lemma BlockersThenColons(b: string)
    requires TrimEndMatches(b, ':') == BLOCKERS_TEXT
    ensures b != [] && (b[|b| - 1] == 's' || b[|b| - 1] == ':')
  {
    var c := TrimEndMatches(b, ':');
    assert c[|c| - 1] == 's';
    if |b| == |c| {
      assert b == c;
    } else {
      assert b[|b| - 1] == ':';
    }
  }

  /* ---------------------------------------------------------------- */
  /* Round trips                                                      */
  /* ---------------------------------------------------------------- */

  /** The text inside every well-formed marker decodes back to the marker. */
  lemma DecodeInnerText(m: Marker)
    requires WellFormed(m)
    ensures DecodeInner(InnerText(m)) == Some(m)
  {
    match m
      case IssueUrl(u, imm) => DecodeInnerPlain(u, imm);
      case Comment(u, id, imm) => DecodeInnerComment(u, id, imm);
      case SubIssue(u) => DecodeInnerSub(u);
      case NewComment => InnerNewComment();
      case BlockersSection => InnerBlockers();
      case Omitted => InnerOmitted();
      case OmittedWithHint => InnerOmittedHint();
  }

  lemma DecodeInnerPlain(u: string, imm: bool)
    requires IsPlainText(u) && !Contains(u, ISSUE_COMMENT)
    ensures DecodeInner(InnerText(IssueUrl(u, imm))) == Some(IssueUrl(u, imm))
  {
    KeywordPrefixes(u);
    DecodeInnerUrl(InnerText(IssueUrl(u, imm)));
    DecodePlain(u, imm);
  }

  lemma DecodeInnerComment(u: string, id: nat, imm: bool)
    requires IsPlainText(u) && IsCommentUrl(u, id)
    ensures DecodeInner(InnerText(Comment(u, id, imm))) == Some(Comment(u, id, imm))
  {
    var inner := InnerText(Comment(u, id, imm));
    assert inner == if imm then "immutable " + u else u;
    KeywordPrefixes(u);
    DecodeCommentOf(u, id, imm);
    DecodeInnerUrlAs(inner, Comment(u, id, imm), CommentUrl(u, id, imm));
  }

  /** Text that is no keyword and whose URL part reads as `p` decodes to the marker `p` stands for. */
  lemma DecodeInnerUrlAs(inner: string, m: Marker, p: UrlPart)
    requires !IsKeyword(Lower(inner)) && DecodeUrlPart(inner) == p && UrlMarker(p) == Some(m)
    ensures DecodeInner(inner) == Some(m)
  {
    DecodeInnerUrl(inner);
  }

  lemma DecodeInnerSub(u: string)
    requires u != [] && IsTrimmed(u)
    ensures DecodeInner(InnerText(SubIssue(u))) == Some(SubIssue(u))
  {
    KeywordPrefixes(u);
    DecodeInnerUrl(InnerText(SubIssue(u)));
    DecodeSub(u);
  }


  /** Text that is no keyword is read as a URL. */
  lemma DecodeInnerUrl(inner: string)
    requires !IsKeyword(Lower(inner))
    ensures DecodeInner(inner) == UrlMarker(DecodeUrlPart(inner))
  {
  }

  lemma InnerNewComment()
    ensures DecodeInner(NEW_COMMENT_TEXT) == Some(NewComment)
  {
    assert Lower(NEW_COMMENT_TEXT) == NEW_COMMENT_TEXT;
  }

  lemma InnerBlockers()
    ensures DecodeInner(BLOCKERS_TEXT) == Some(BlockersSection)
  {
    assert Lower(BLOCKERS_TEXT) == BLOCKERS_TEXT;
  }

  lemma InnerOmitted()
    ensures DecodeInner(OMITTED_TEXT) == Some(Omitted)
  {
    assert Lower(OMITTED_TEXT) == OMITTED_TEXT;
  }

  lemma InnerOmittedHint()
    ensures DecodeInner(OMITTED_HINT_TEXT) == Some(OmittedWithHint)
  {
    var x := OMITTED_HINT_TEXT;
    assert Lower(x) == x;
    assert StartsWith(x, "omitted");
    ContainsMiddle("omitted (use --", RENDER_CLOSED, " to unfold)");
  }

  /** The inside of a marker has no surrounding whitespace. */
  lemma InnerTextTrimmed(m: Marker)
    requires WellFormed(m)
    ensures InnerText(m) != [] && IsTrimmed(InnerText(m))
  {
    match m
      case IssueUrl(u, imm) => if imm { PrefixedTrimmed("immutable ", u); }
      case Comment(u, _, imm) => if imm { PrefixedTrimmed("immutable ", u); }
      case SubIssue(u) => PrefixedTrimmed("sub ", u);
      case _ => KeywordTextsTrimmed();
  }

  /** A trimmed text after a prefix that starts with no whitespace is trimmed. */
  lemma PrefixedTrimmed(p: string, u: string)
    requires p != [] && !IsWhitespace(p[0]) && u != [] && IsTrimmed(u)
    ensures p + u != [] && IsTrimmed(p + u)
  {
    var x := p + u;
    assert x[0] == p[0] && x[|x| - 1] == u[|u| - 1];
  }

  lemma KeywordTextsTrimmed()
    ensures NEW_COMMENT_TEXT != [] && IsTrimmed(NEW_COMMENT_TEXT)
    ensures BLOCKERS_TEXT != [] && IsTrimmed(BLOCKERS_TEXT)
    ensures OMITTED_TEXT != [] && IsTrimmed(OMITTED_TEXT)
    ensures OMITTED_HINT_TEXT != [] && IsTrimmed(OMITTED_HINT_TEXT)
  {
    var h := OMITTED_HINT_TEXT;
    assert h[0] == 'o' && h[|h| - 1] == ')';
  }


  /** Whitespace between the inside and `<!--` before `-->`. */
  function MdPad(m: Marker): string {
    match m
      case IssueUrl(_, imm) => if imm then "" else " "
      case Comment(_, _, imm) => if imm then "" else " "
      case SubIssue(_) => ""
      case _ => " "
  }

  lemma EncodeMdShape(m: Marker)
    requires !m.BlockersSection?
    ensures Encode(m, Md) == Wrap(MdPad(m) + InnerText(m) + " ")
  {
    if m.IssueUrl? || m.Comment? || m.SubIssue? {
      assert "" + InnerText(m) == InnerText(m);
    }
  }

  lemma EncodeTypShape(m: Marker)
    ensures Encode(m, Typ) == TypLine(InnerText(m))
  {
  }

  /** An HTML comment decodes its trimmed inside under either extension. */
  lemma DecodeWrapped(body: string, ext: Extension)
    ensures Decode(Wrap(body), ext) == DecodeInner(Trim(body))
  {
    var t := Wrap(body);
    assert t[0] == '<' && t[|t| - 1] == '>';
    TrimmedIsFixed(t);
    NotBlockersLine(t);
    HtmlInnerOf(body);
  }

  /** A line starting with '<' or a letter is not a blockers line. */
  lemma NotBlockersLine(t: string)
    requires t != [] && t[0] != '#' && t[0] != '/' && !('A' <= t[0] <= 'Z')
    ensures !IsHashBlockers(t) && !IsTypBlockers(t)
  {
    var l := Lower(t);
    assert l[0] == t[0];
    NotStartsWithByFirst(l, "#");
    TypLineFirst(BLOCKERS_TEXT);
    TypLineFirst(BLOCKER_TEXT);
  }

  lemma TypLineFirst(x: string)
    ensures Lower(TypLine(x))[0] == '/'
  {
    assert TypLine(x)[0] == '/';
  }

  /** `decode(encode(m, Md), Md) == m` for every well-formed marker. */
  lemma DecodeEncodeMd(m: Marker)
    requires WellFormed(m)
    ensures Decode(Encode(m, Md), Md) == Some(m)
  {
    if m.BlockersSection? {
      DecodeMdBlockers(m);
    } else {
      EncodeMdShape(m);
      InnerTextTrimmed(m);
      DecodeInnerText(m);
      assert MdPad(m) == "" || MdPad(m) == " ";
      DecodePadded(MdPad(m), InnerText(m), m);
    }
  }

  /** A padded inside that reads as `m` wraps into a comment that decodes to `m`. */
  lemma DecodePadded(pad: string, x: string, m: Marker)
    requires pad == "" || pad == " "
    requires x != [] && IsTrimmed(x) && DecodeInner(x) == Some(m)
    ensures Decode(Wrap(pad + x + " "), Md) == Some(m)
  {
    var b := pad + x + " ";
    assert Trim(b) == x by {
      TrimPadded(pad, x, " ");
    }
    DecodeWrapped(b, Md);
  }

  lemma DecodeMdBlockers(m: Marker)
    requires m.BlockersSection?
    ensures Decode(Encode(m, Md), Md) == Some(m)
  {
    var title := MD_BLOCKERS_TITLE;
    MdBlockersTitle();
    assert "# " + title == Repeat('#', 1) + " " + title + Repeat(':', 0);
    DecodeHashBlockers(1, title, 0, Md);
  }

  lemma MdBlockersTitle()
    ensures Lower(MD_BLOCKERS_TITLE) == BLOCKERS_TEXT
  {
  }

  /** The corrected decoder reads a typst line through the marker's inside. */
  lemma DecodeFixedTypLine(x: string)
    requires x != [] && IsTrimmed(x)
    ensures DecodeFixed(TypLine(x), Typ) == DecodeInner(x)
  {
    var t := TypLine(x);
    assert t[0] == '/' && t[|t| - 1] == x[|x| - 1];
    TrimmedIsFixed(t);
    assert t[..2] == "//";
    assert t[2..] == " " + x + [];
    TrimPadded(" ", x, []);
  }

  /** With the corrected decoder, `decode(encode(m, Typ), Typ) == m` for every well-formed marker. */
  lemma DecodeFixedEncodeTyp(m: Marker)
    requires WellFormed(m)
    ensures DecodeFixed(Encode(m, Typ), Typ) == Some(m)
  {
    EncodeTypShape(m);
    InnerTextTrimmed(m);
    DecodeFixedTypLine(InnerText(m));
    DecodeInnerText(m);
  }

  /** The corrected decoder reads markdown exactly as `Marker::decode` does. */
  lemma DecodeFixedMd(s: string)
    ensures DecodeFixed(s, Md) == Decode(s, Md)
  {
  }

  /* ---------------------------------------------------------------- */
  /* The typst forms                                                  */
  /* ---------------------------------------------------------------- */

  /** Lower-casing a typst line keeps its `// `. */
  lemma LowerTypLine(x: string)
    ensures Lower(TypLine(x)) == TypLine(Lower(x))
  {
    LowerAppend("// ", x);
    assert Lower("// ") == "// ";
  }

  /** Two typst lines are equal ignoring case exactly when their texts are. */
  lemma TypLineEqIgnoreCase(x: string, y: string)
    ensures EqIgnoreCase(TypLine(x), TypLine(y)) <==> EqIgnoreCase(x, y)
  {
    LowerTypLine(x);
    LowerTypLine(y);
    if Lower(TypLine(x)) == Lower(TypLine(y)) {
      assert Lower(x) == TypLine(Lower(x))[3..];
    }
  }

  /** Only the blockers marker has a typst text that reads as the blockers line. */
  lemma InnerTextNotBlockers(m: Marker)
    requires WellFormed(m) && !m.BlockersSection?
    ensures Lower(InnerText(m)) != BLOCKERS_TEXT && Lower(InnerText(m)) != BLOCKER_TEXT
  {
    match m
      case IssueUrl(u, imm) => if imm { FirstNotB("immutable " + u); }
      case Comment(u, _, imm) => if imm { FirstNotB("immutable " + u); }
      case SubIssue(u) => FirstNotB("sub " + u);
      case NewComment => FirstNotB(NEW_COMMENT_TEXT);
      case Omitted => FirstNotB(OMITTED_TEXT);
      case OmittedWithHint => FirstNotB(OMITTED_HINT_TEXT);
  }

  lemma FirstNotB(x: string)
    requires x != [] && LowerChar(x[0]) != 'b'
    ensures Lower(x) != BLOCKERS_TEXT && Lower(x) != BLOCKER_TEXT
  {
    assert Lower(x)[0] != 'b';
  }

  /**
   * `Marker::decode` as written reads none of the typst forms except the
   * blockers line: every other well-formed marker, encoded for typst,
   * decodes to nothing.
   */
  lemma TypEncodingUnread(m: Marker)
    requires WellFormed(m) && !m.BlockersSection?
    ensures Decode(Encode(m, Typ), Typ) == None
  {
    EncodeTypShape(m);
    InnerTextTrimmed(m);
    InnerTextNotBlockers(m);
    TypLineUnread(InnerText(m));
  }

  /** A typst line whose text is not the blockers keyword is no marker to the decoder as written. */
  lemma TypLineUnread(x: string)
    requires x != [] && IsTrimmed(x)
    requires Lower(x) != BLOCKERS_TEXT && Lower(x) != BLOCKER_TEXT
    ensures Decode(TypLine(x), Typ) == None
  {
    var t := TypLine(x);
    assert t[0] == '/' && t[|t| - 1] == x[|x| - 1];
    TrimmedIsFixed(t);
    TypLineEqIgnoreCase(x, BLOCKERS_TEXT);
    TypLineEqIgnoreCase(x, BLOCKER_TEXT);
    assert Lower(BLOCKERS_TEXT) == BLOCKERS_TEXT && Lower(BLOCKER_TEXT) == BLOCKER_TEXT;
    NotHashLine(t);
    NotStartsWithByFirst(t, "<!--");
  }

  lemma NotHashLine(t: string)
    requires t != [] && t[0] == '/'
    ensures !IsHashBlockers(t)
  {
    var l := Lower(t);
    assert l[0] == '/';
    NotStartsWithByFirst(l, "#");
  }

  /**
   * The corrected decoder only adds typst readings: wherever `Marker::decode`
   * finds a marker, the corrected decoder finds the same one.
   */
  lemma DecodeFixedExtends(s: string, ext: Extension)
    requires Decode(s, ext).Some?
    ensures DecodeFixed(s, ext) == Decode(s, ext)
  {
    var t := Trim(s);
    if ext.Typ? && StartsWith(t, "//") {
      SlashLineAsWritten(t);
      TypBlockersInner(t);
    }
  }

  /** `Marker::decode` reads a `//` line only when it is the typst blockers line. */
  lemma SlashLineAsWritten(t: string)
    requires StartsWith(t, "//")
    ensures DecodeTrimmed(t) == if IsTypBlockers(t) then Some(BlockersSection) else None
  {
    assert t[0] == '/';
    NotHashLine(t);
    NotStartsWithByFirst(t, "<!--");
  }

  /** A typst blockers line, read by the corrected decoder, is the blockers section. */
  lemma TypBlockersInner(t: string)
    requires IsTypBlockers(t)
    ensures |t| >= 3 && DecodeInner(Trim(t[2..])) == Some(BlockersSection)
  {
    var w := if EqIgnoreCase(t, TypLine(BLOCKERS_TEXT)) then BLOCKERS_TEXT else BLOCKER_TEXT;
    KeywordTypLine(w);
    TypBlockersRest(t, w);
    var r := t[3..];
    assert Trim(t[2..]) == r by {
      TrimPadded(" ", r, []);
      assert t[2..] == " " + r + [];
    }
    DecodeInnerBlockers(r);
  }

  /** What follows `// ` on a typst blockers line is the keyword, in any case. */
  lemma TypBlockersRest(t: string, w: string)
    requires w != [] && IsTrimmed(w) && Lower(TypLine(w)) == TypLine(w)
    requires EqIgnoreCase(t, TypLine(w))
    ensures |t| >= 4 && t[2..] == " " + t[3..]
    ensures Lower(t[3..]) == w && IsTrimmed(t[3..])
  {
    var lt := Lower(t);
    assert lt == TypLine(w);
    var r := t[3..];
    LowerDrop(t, 3);
    assert Lower(r) == lt[3..] == w;
    assert LowerChar(t[2]) == lt[2] == ' ';
    LowerCharWhitespace(t[2]);
    LowerOfTrimmed(r, w);
    assert t[2..] == [t[2]] + r;
  }

  lemma KeywordTypLine(w: string)
    requires w == BLOCKERS_TEXT || w == BLOCKER_TEXT
    ensures w != [] && IsTrimmed(w) && Lower(w) == w && Lower(TypLine(w)) == TypLine(w)
  {
    LowerIsFixed(w);
    LowerTypLine(w);
  }

  lemma DecodeInnerBlockers(r: string)
    requires Lower(r) == BLOCKERS_TEXT || Lower(r) == BLOCKER_TEXT
    ensures DecodeInner(r) == Some(BlockersSection)
  {
  }
}
