/**
 * The part of marker decoding that src/issue/marker.rs and src/marker.rs
 * share word for word: the inside of an HTML comment, the `immutable ` and
 * `sub ` prefixes, and the comment id after `#issuecomment-`.
 */
module MarkerText {
  import opened Wrappers
  import opened Strings

  const ISSUE_COMMENT: string := "#issuecomment-"

  /** The trimmed text between a leading "<!--" and a trailing "-->". */
  function HtmlInner(t: string): (r: Option<string>)
    ensures r.Some? <==> StartsWith(t, "<!--") && |t| >= 7 && EndsWith(t, "-->")
    ensures r.Some? ==> r.value == Trim(t[4..|t| - 3])
  {
    if !StartsWith(t, "<!--") || !EndsWith(t, "-->") then None
    else
      var a := t[4..];
      if EndsWith(a, "-->") then
        assert a[..|a| - 3] == t[4..|t| - 3];
        Some(Trim(a[..|a| - 3]))
      else None
  }

  /** An HTML comment around `body`. */
  function Wrap(body: string): string {
    "<!--" + body + "-->"
  }

  /** `<!--` + `body` + `-->` has inner text `Trim(body)`. */
  lemma HtmlInnerOf(body: string)
    ensures HtmlInner(Wrap(body)) == Some(Trim(body))
  {
    var t := Wrap(body);
    assert t[..4] == "<!--";
    assert t[|t| - 3..] == "-->";
    assert t[4..|t| - 3] == body;
  }

  /**
   * The id of a comment marker: the decimal digits right after the first
   * `#issuecomment-`, read as a u64; None when there are none or too many.
   */
  function CommentId(rest: string): (r: Option<nat>)
    ensures r.Some? ==> r.value < U64_LIMIT
  {
    match IndexOf(rest, ISSUE_COMMENT)
      case None => None
      case Some(i) => ParseU64(LeadingDigits(rest[i + |ISSUE_COMMENT|..]))
  }

  /** A comment URL of the form `base#issuecomment-N` has id N. */
  lemma CommentIdOf(base: string, id: nat)
    requires '#' !in base && id < U64_LIMIT
    ensures Contains(base + ISSUE_COMMENT + NatToString(id), ISSUE_COMMENT)
    ensures CommentId(base + ISSUE_COMMENT + NatToString(id)) == Some(id)
  {
    var digits := NatToString(id);
    var u := base + (ISSUE_COMMENT + digits);
    assert u == base + ISSUE_COMMENT + digits;
    AnchorIndex(base, ISSUE_COMMENT + digits);
    assert u[|base| + |ISSUE_COMMENT|..] == digits;
    LeadingDigitsOfDigits(digits);
    ParseNatToString(id);
  }

  /** When `base` has no '#', the first anchor is the one right after it. */
  lemma AnchorIndex(base: string, rest: string)
    requires '#' !in base && StartsWith(rest, ISSUE_COMMENT)
    ensures IndexOf(base + rest, ISSUE_COMMENT) == Some(|base|)
  {
    var u := base + rest;
    assert OccursAt(u, ISSUE_COMMENT, |base|) by {
      assert u[|base|..|base| + |ISSUE_COMMENT|] == rest[..|ISSUE_COMMENT|];
    }
    forall j | 0 <= j < |base| ensures !OccursAt(u, ISSUE_COMMENT, j) {
      assert u[j] == base[j];
      NotOccursAtByFirst(u, ISSUE_COMMENT, j);
    }
    var r := IndexOf(u, ISSUE_COMMENT);
    assert r.Some?;
    assert r.value >= |base|;
  }

  lemma NotOccursAtByFirst(s: string, p: string, j: nat)
    requires j < |s| && p != [] && s[j] != p[0]
    ensures !OccursAt(s, p, j)
  {
    if j + |p| <= |s| {
      assert s[j..j + |p|][0] == s[j];
    }
  }

  lemma {:induction false} LeadingDigitsOfDigits(s: string)
    requires AllDigits(s)
    ensures LeadingDigits(s) == s
  {
    if s != [] {
      LeadingDigitsOfDigits(s[1..]);
    }
  }

  /** `u` is `base#issuecomment-id` with no '#' in `base`. */
  predicate IsCommentUrl(u: string, id: nat) {
    id < U64_LIMIT &&
    match FindChar(u, '#')
      case None => false
      case Some(i) => u[i..] == ISSUE_COMMENT + NatToString(id)
  }

  /** What the text after the marker keywords turned out to be. */
  datatype UrlPart =
    | SubUrl(url: string)
    | CommentUrl(url: string, id: nat, immutable: bool)
    | PlainUrl(url: string, immutable: bool)
    | NoUrl

  predicate HasImmutablePrefix(s: string) {
    StartsWith(s, "immutable ") || StartsWith(s, "immutable\t")
  }

  predicate HasSubPrefix(s: string) {
    StartsWith(s, "sub ") || StartsWith(s, "sub\t")
  }

  /**
   * The tail of both decoders: an optional `immutable` prefix (then the rest
   * is trimmed), then `sub`, then a comment URL, then any non-empty URL.
   */
  function DecodeUrlPart(inner: string): (r: UrlPart)
    ensures r.SubUrl? ==> IsTrimmed(r.url)
    ensures r.CommentUrl? ==> Contains(r.url, ISSUE_COMMENT) && r.id < U64_LIMIT
    ensures r.PlainUrl? ==> r.url != [] && !Contains(r.url, ISSUE_COMMENT) && !HasSubPrefix(r.url)
    ensures r.NoUrl? ==> inner == [] || HasImmutablePrefix(inner) || Contains(inner, ISSUE_COMMENT)
  {
    var immutable := HasImmutablePrefix(inner);
    UrlPartOf(if immutable then Trim(inner[10..]) else inner, immutable)
  }

  /** `DecodeUrlPart` once the `immutable` prefix, if any, is gone. */
  function UrlPartOf(rest: string, immutable: bool): (r: UrlPart)
    ensures r.SubUrl? ==> IsTrimmed(r.url)
    ensures r.CommentUrl? ==> Contains(r.url, ISSUE_COMMENT) && r.id < U64_LIMIT
    ensures r.PlainUrl? ==> r.url != [] && !Contains(r.url, ISSUE_COMMENT) && !HasSubPrefix(r.url)
    ensures r.NoUrl? ==> rest == [] || Contains(rest, ISSUE_COMMENT)
  {
    if HasSubPrefix(rest) then
      TrimIsTrimmed(rest[4..]);
      SubUrl(Trim(rest[4..]))
    else if Contains(rest, ISSUE_COMMENT) then
      match CommentId(rest)
        case Some(id) => CommentUrl(rest, id, immutable)
        case None => NoUrl
    else if rest != [] then PlainUrl(rest, immutable)
    else NoUrl
  }

  /** The marker keywords the decoders test before they look for a URL. */
  predicate IsKeyword(lower: string) {
    lower == "blockers" || lower == "blocker" || lower == "new comment"
    || StartsWith(lower, "omitted") || StartsWith(lower, ",}}}")
  }

  /**
   * A URL that reads back as itself: non-empty, without surrounding
   * whitespace, not starting with a marker keyword.
   */
  predicate IsPlainText(url: string) {
    url != [] && IsTrimmed(url) && !HasImmutablePrefix(url) && !HasSubPrefix(url)
    && !IsKeyword(Lower(url))
  }

  /** A plain URL without a comment anchor decodes as itself. */
  lemma DecodePlain(url: string, immutable: bool)
    requires IsPlainText(url) && !Contains(url, ISSUE_COMMENT)
    ensures DecodeUrlPart(if immutable then "immutable " + url else url) == PlainUrl(url, immutable)
  {
    if immutable {
      var inner := "immutable " + url;
      assert inner[..10] == "immutable ";
      assert inner[10..] == url;
      TrimmedIsFixed(url);
    }
  }

  /** A comment URL decodes with the id after its anchor. */
  lemma DecodeComment(base: string, id: nat, immutable: bool)
    requires '#' !in base && id < U64_LIMIT
    requires IsPlainText(base + ISSUE_COMMENT + NatToString(id))
    ensures var url := base + ISSUE_COMMENT + NatToString(id);
      DecodeUrlPart(if immutable then "immutable " + url else url) == CommentUrl(url, id, immutable)
  {
    CommentIdOf(base, id);
    DecodeCommentUrl(base + ISSUE_COMMENT + NatToString(id), id, immutable);
  }

  /** A well-formed comment URL decodes with its own id. */
  lemma DecodeCommentOf(u: string, id: nat, immutable: bool)
    requires IsPlainText(u) && IsCommentUrl(u, id)
    ensures DecodeUrlPart(if immutable then "immutable " + u else u) == CommentUrl(u, id, immutable)
  {
    var i := FindChar(u, '#').value;
    assert u == u[..i] + ISSUE_COMMENT + NatToString(id) by {
      assert u == u[..i] + u[i..];
    }
    DecodeComment(u[..i], id, immutable);
  }

  lemma DecodeCommentUrl(url: string, id: nat, immutable: bool)
    requires IsPlainText(url) && Contains(url, ISSUE_COMMENT) && CommentId(url) == Some(id)
    ensures DecodeUrlPart(if immutable then "immutable " + url else url) == CommentUrl(url, id, immutable)
  {
    if immutable {
      var inner := "immutable " + url;
      assert inner[..10] == "immutable ";
      assert inner[10..] == url;
      TrimmedIsFixed(url);
    }
  }

  /** `sub ` followed by a trimmed URL decodes as that sub-issue URL. */
  lemma DecodeSub(url: string)
    requires IsTrimmed(url)
    ensures DecodeUrlPart("sub " + url) == SubUrl(url)
  {
    var inner := "sub " + url;
    assert inner[..4] == "sub ";
    assert inner[4..] == url;
    NotStartsWithByFirst(inner, "immutable ");
    NotStartsWithByFirst(inner, "immutable\t");
    TrimmedIsFixed(url);
  }

  lemma NotStartsWithByFirst(s: string, p: string)
    requires s != [] && p != [] && s[0] != p[0]
    ensures !StartsWith(s, p)
  {
    if |p| <= |s| {
      assert s[..|p|][0] != p[0];
    }
  }

  /** Lower-casing `prefix + url` keeps the prefix when it is already lower case. */
  lemma LowerPrefixed(prefix: string, url: string)
    requires Lower(prefix) == prefix
    ensures Lower(prefix + url) == prefix + Lower(url)
  {
    LowerAppend(prefix, url);
  }

  /** No keyword starts with `immutable ` or `sub `. */
  lemma KeywordPrefixes(url: string)
    ensures !IsKeyword(Lower("immutable " + url))
    ensures !IsKeyword(Lower("sub " + url))
  {
    var a := Lower("immutable " + url);
    var b := Lower("sub " + url);
    assert a[0] == 'i' && |a| >= 10;
    assert b[0] == 's' && |b| >= 4;
    assert a[9] == ' ';
    assert b[3] == ' ';
  }
}
