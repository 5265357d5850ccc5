/**
 * src/open/line.rs: one line of an issue file classified by its shape. The
 * indentation is the run of leading tabs; what follows is, in this order
 * of precedence, blank, a marker, a checkbox item, a list item, a header,
 * a two-space indented comment, or plain text. Markers are read with
 * `FileMarker.DecodeFixed`, which also reads the typst `// …` forms.
 */
module OpenLine {
  import opened Wrappers
  import opened Strings
  import opened Extensions
  import Headers
  import FileMarker
  import MarkerText

  type Marker = FileMarker.Marker

  datatype ContentType =
    | Checkbox(checked: bool)
    | ListItem
    | HeaderLine(level: nat)
    | MarkerLine
    | CommentLine
    | Text
    | Empty

  datatype Line = Line(indent: nat, contentType: ContentType, content: string, marker: Option<Marker>, raw: string)

  const UNCHECKED: string := "- [ ] "
  const CHECKED_LOWER: string := "- [x] "
  const CHECKED_UPPER: string := "- [X] "
  const NOT_PLANNED_BOX: string := "- [-] "
  const BOX_OPEN: string := "- ["
  const BOX_CLOSE: string := "] "
  const ITEM: string := "- "
  const HTML_OPEN: string := "<!--"
  const HTML_CLOSE: string := "-->"
  const TYP_MARK: string := " // "
  const TWO_SPACES: string := "  "
  const TAB: string := "\t"

  /** The number of leading tabs. */
  function Indent(raw: string): nat {
    CountLeading(raw, '\t')
  }

  /** `str::rfind`: the last index below `i` where `p` occurs. */
  function LastIndexBefore(s: string, p: string, i: nat): (r: Option<nat>)
    ensures r.Some? ==> r.value < i && OccursAt(s, p, r.value)
    ensures r.Some? ==> forall j: nat :: r.value < j < i ==> !OccursAt(s, p, j)
    ensures r.None? ==> forall j: nat :: j < i ==> !OccursAt(s, p, j)
  {
    if i == 0 then None
    else if OccursAt(s, p, i - 1) then Some(i - 1)
    else LastIndexBefore(s, p, i - 1)
  }

  function RFind(s: string, p: string): Option<nat> {
    LastIndexBefore(s, p, |s| + 1)
  }

  // ---------------------------------------------------------------------
  // The checkbox prefix

  /** `parse_checkbox_prefix`: whether the box is checked, and the rest of the line. */
  function ParseCheckboxPrefix(s: string): Option<(bool, string)> {
    if StartsWith(s, UNCHECKED) then Some((false, s[|UNCHECKED|..]))
    else if StartsWith(s, CHECKED_LOWER) then Some((true, s[|CHECKED_LOWER|..]))
    else if StartsWith(s, CHECKED_UPPER) then Some((true, s[|CHECKED_UPPER|..]))
    else if StartsWith(s, NOT_PLANNED_BOX) then Some((true, s[|NOT_PLANNED_BOX|..]))
    else if StartsWith(s, BOX_OPEN) then
      match IndexOf(s[3..], BOX_CLOSE)
        case None => None
        case Some(e) => if AllDigits(s[3..3 + e]) then Some((true, s[3 + e + 2..])) else None
    else None
  }

  /** A line read as `- [` + what stands before the first `] ` + `] ` + the rest. */
  function Bracketed(s: string): Option<(string, string)> {
    if !StartsWith(s, BOX_OPEN) then None
    else
      match IndexOf(s[3..], BOX_CLOSE)
        case None => None
        case Some(e) => Some((s[3..3 + e], s[3 + e + 2..]))
  }

  /**
   * The checkbox prefix stated on the bracket's contents: a space is
   * unchecked; `x`, `X`, `-` and any run of digits (the number of a
   * duplicate) are checked; anything else is not a checkbox.
   */
  function CheckboxSpec(s: string): Option<(bool, string)> {
    match Bracketed(s)
      case None => None
      case Some((c, rest)) =>
        if c == " " then Some((false, rest))
        else if c == "x" || c == "X" || c == "-" || AllDigits(c) then Some((true, rest))
        else None
  }

  /** A fixed box `- [c] ` has its bracket closed right after `c`. */
  lemma FixedBox(s: string, c: char)
    requires c != ']' && StartsWith(s, BOX_OPEN + [c] + BOX_CLOSE)
    ensures Bracketed(s) == Some(([c], s[6..]))
  {
    var box := BOX_OPEN + [c] + BOX_CLOSE;
    assert |box| == 6 && s[..6] == box;
    assert s[..3] == box[..3] == BOX_OPEN;
    var t := s[3..];
    assert t[0] == c;
    assert t[1..3] == s[4..6] == box[4..6] == BOX_CLOSE;
    MarkerText.NotOccursAtByFirst(t, BOX_CLOSE, 0);
    assert OccursAt(t, BOX_CLOSE, 1);
    assert IndexOf(t, BOX_CLOSE) == Some(1);
    assert s[3..4] == [c];
  }

  /** `parse_checkbox_prefix` agrees with the statement on the bracket's contents. */
  lemma ParseCheckboxPrefixIsSpec(s: string)
    ensures ParseCheckboxPrefix(s) == CheckboxSpec(s)
  {
    assert UNCHECKED == BOX_OPEN + [' '] + BOX_CLOSE;
    assert CHECKED_LOWER == BOX_OPEN + ['x'] + BOX_CLOSE;
    assert CHECKED_UPPER == BOX_OPEN + ['X'] + BOX_CLOSE;
    assert NOT_PLANNED_BOX == BOX_OPEN + ['-'] + BOX_CLOSE;
    if StartsWith(s, UNCHECKED) {
      FixedBox(s, ' ');
    } else if StartsWith(s, CHECKED_LOWER) {
      FixedBox(s, 'x');
    } else if StartsWith(s, CHECKED_UPPER) {
      FixedBox(s, 'X');
    } else if StartsWith(s, NOT_PLANNED_BOX) {
      FixedBox(s, '-');
    } else if StartsWith(s, BOX_OPEN) {
      match IndexOf(s[3..], BOX_CLOSE) {
        case None =>
        case Some(e) =>
          var t := s[3..];
          var c := s[3..3 + e];
          if |c| == 1 {
            assert s[..3] == BOX_OPEN;
            assert t[1..3] == BOX_CLOSE;
            assert s[..6] == s[..3] + c + t[1..3];
            assert s[..6] == BOX_OPEN + [c[0]] + BOX_CLOSE;
          }
      }
    }
  }

  /** `- [ ] ` opens an unchecked item and `- [x] ` a checked one. */
  lemma CheckboxForms(rest: string)
    ensures ParseCheckboxPrefix(UNCHECKED + rest) == Some((false, rest))
    ensures ParseCheckboxPrefix(CHECKED_LOWER + rest) == Some((true, rest))
    ensures ParseCheckboxPrefix(CHECKED_UPPER + rest) == Some((true, rest))
    ensures ParseCheckboxPrefix(NOT_PLANNED_BOX + rest) == Some((true, rest))
  {
    assert (UNCHECKED + rest)[..6] == UNCHECKED;
    assert (CHECKED_LOWER + rest)[..6] == CHECKED_LOWER;
    assert (CHECKED_UPPER + rest)[..6] == CHECKED_UPPER;
    assert (NOT_PLANNED_BOX + rest)[..6] == NOT_PLANNED_BOX;
  }

  /** `- [123] ` (the mark of a duplicate) opens a checked item. */
  lemma DuplicateBox(digits: string, rest: string)
    requires AllDigits(digits)
    ensures ParseCheckboxPrefix(BOX_OPEN + digits + BOX_CLOSE + rest) == Some((true, rest))
  {
    var s := BOX_OPEN + digits + BOX_CLOSE + rest;
    ParseCheckboxPrefixIsSpec(s);
    var t := s[3..];
    assert t == digits + BOX_CLOSE + rest;
    forall j: nat | j < |digits| ensures !OccursAt(t, BOX_CLOSE, j) {
      assert t[j] == digits[j];
      MarkerText.NotOccursAtByFirst(t, BOX_CLOSE, j);
    }
    assert OccursAt(t, BOX_CLOSE, |digits|);
    assert IndexOf(t, BOX_CLOSE) == Some(|digits|);
    assert s[..3] == BOX_OPEN;
    assert s[3..3 + |digits|] == digits;
    assert s[3 + |digits| + 2..] == rest;
    assert Bracketed(s) == Some((digits, rest));
    assert digits != " " by {
      assert |digits| == 0 || IsDigit(digits[0]);
    }
  }

  /** Only a line starting with `- [` can be a checkbox. */
  lemma CheckboxNeedsBracket(s: string)
    requires !StartsWith(s, BOX_OPEN)
    ensures ParseCheckboxPrefix(s) == None
  {
    ParseCheckboxPrefixIsSpec(s);
  }

  // ---------------------------------------------------------------------
  // The trailing marker

  /** `tail` is an HTML comment that decodes as `m`. */
  predicate HtmlTail(tail: string, ext: Extension, m: Marker) {
    StartsWith(tail, HTML_OPEN) && EndsWith(tail, HTML_CLOSE) && FileMarker.DecodeFixed(tail, ext) == Some(m)
  }

  /** `tail` is a typst ` // …` whose text after the space decodes as `m`. */
  predicate TypTail(tail: string, ext: Extension, m: Marker) {
    ext.Typ? && StartsWith(tail, TYP_MARK) && FileMarker.DecodeFixed(tail[1..], ext) == Some(m)
  }

  /** A final `<!--…-->` that decodes: where it starts, and the marker. */
  function TrailingHtml(content: string, ext: Extension): (r: Option<(nat, Marker)>)
    ensures r.Some? ==>
      r.value.0 <= |content| && HtmlTail(content[r.value.0..], ext, r.value.1)
  {
    match RFind(content, HTML_OPEN)
      case None => None
      case Some(start) =>
        if !EndsWith(content, HTML_CLOSE) then None
        else
          match FileMarker.DecodeFixed(content[start..], ext)
            case None => None
            case Some(m) =>
              HtmlTailAt(content, start, ext, m);
              Some((start, m))
  }

  lemma HtmlTailAt(content: string, start: nat, ext: Extension, m: Marker)
    requires OccursAt(content, HTML_OPEN, start) && EndsWith(content, HTML_CLOSE)
    requires FileMarker.DecodeFixed(content[start..], ext) == Some(m)
    ensures HtmlTail(content[start..], ext, m)
  {
    OccursStarts(content, HTML_OPEN, start);
    EndsWithDrop(content, HTML_CLOSE, start);
  }

  lemma TrailingHtmlAt(content: string, k: nat, ext: Extension, m: Marker)
    requires RFind(content, HTML_OPEN) == Some(k) && EndsWith(content, HTML_CLOSE)
    requires FileMarker.DecodeFixed(content[k..], ext) == Some(m)
    ensures TrailingHtml(content, ext) == Some((k, m))
  {
  }

  lemma ExtractHtml(content: string, k: nat, ext: Extension, m: Marker)
    requires TrailingHtml(content, ext) == Some((k, m))
    ensures ExtractTrailingMarker(content, ext) == (content[..k], Some(m))
  {
  }

  /** For typst, a final ` // …` whose text after the space decodes: where it starts, and the marker. */
  function TrailingTyp(content: string, ext: Extension): (r: Option<(nat, Marker)>)
    ensures r.Some? ==>
      r.value.0 <= |content| && TypTail(content[r.value.0..], ext, r.value.1)
  {
    if !ext.Typ? then None
    else
      match RFind(content, TYP_MARK)
        case None => None
        case Some(start) =>
          match FileMarker.DecodeFixed(content[start + 1..], ext)
            case None => None
            case Some(m) =>
              TypTailAt(content, start, ext, m);
              Some((start, m))
  }

  lemma TypTailAt(content: string, start: nat, ext: Extension, m: Marker)
    requires ext.Typ? && OccursAt(content, TYP_MARK, start)
    requires FileMarker.DecodeFixed(content[start + 1..], ext) == Some(m)
    ensures TypTail(content[start..], ext, m)
  {
    OccursStarts(content, TYP_MARK, start);
    DropDrop(content, start);
  }

  /**
   * `extract_trailing_marker`: split off a final `<!--…-->`, or for typst a
   * final ` // …`, when it decodes as a marker.
   */
  function ExtractTrailingMarker(content: string, ext: Extension): (r: (string, Option<Marker>))
    ensures r.1.None? ==> r.0 == content
    ensures r.1.Some? ==>
      && |r.0| <= |content| && content[..|r.0|] == r.0
      && (HtmlTail(content[|r.0|..], ext, r.1.value) || TypTail(content[|r.0|..], ext, r.1.value))
  {
    match TrailingHtml(content, ext)
      case Some((start, m)) =>
        assert content[|content[..start]|..] == content[start..];
        (content[..start], Some(m))
      case None =>
        match TrailingTyp(content, ext)
          case Some((start, m)) =>
            assert content[|content[..start]|..] == content[start..];
            (content[..start], Some(m))
          case None => (content, None)
  }

  // ---------------------------------------------------------------------
  // Line::parse

  /** A checkbox or list item: its text trimmed, with its trailing marker split off. */
  function Item(indent: nat, kind: ContentType, after: string, raw: string, ext: Extension): (r: Line)
    ensures r.indent == indent && r.contentType == kind && r.raw == raw && IsTrimmed(r.content)
  {
    var (content, marker) := ExtractTrailingMarker(after, ext);
    TrimIsTrimmed(content);
    Line(indent, kind, Trim(content), marker, raw)
  }

  /** What is not an item: a header (given what the header decoder made of it), an indented comment, or text. */
  function Plain(indent: nat, rest: string, trimmed: string, header: Option<Headers.Header>, raw: string): (r: Line)
    ensures r.raw == raw && r.marker == None
    ensures r.contentType.HeaderLine? || r.contentType.CommentLine? || r.contentType.Text?
    ensures r.indent == indent + (if r.contentType.CommentLine? then 1 else 0)
  {
    match header
      case Some(h) => Line(indent, HeaderLine(h.level), h.content, None, raw)
      case None =>
        if (StartsWith(rest, TAB) || StartsWith(rest, TWO_SPACES)) && !StartsWith(trimmed, ITEM) then
          Line(indent + 1, CommentLine, trimmed, None, raw)
        else Line(indent, Text, rest, None, raw)
  }

  /**
   * A line that is neither blank nor a marker, after its tabs, given what
   * the checkbox prefix and the header decoder made of it with its leading
   * whitespace dropped.
   */
  function Content(indent: nat, rest: string, box: Option<(bool, string)>, header: Option<Headers.Header>,
                   raw: string, ext: Extension): (r: Line)
    ensures r.raw == raw && r.indent == indent + (if r.contentType.CommentLine? then 1 else 0)
    ensures !r.contentType.Empty? && !r.contentType.MarkerLine?
    ensures r.contentType.Checkbox? <==> box.Some?
    ensures r.contentType.Checkbox? ==> r.contentType.checked == box.value.0
    ensures r.contentType.ListItem? <==> box.None? && StartsWith(TrimStart(rest), ITEM)
    ensures r.contentType.Checkbox? || r.contentType.ListItem? ==> IsTrimmed(r.content)
    ensures r.contentType.CommentLine? ==> r.marker == None
  {
    match box
      case Some((checked, after)) => Item(indent, Checkbox(checked), after, raw, ext)
      case None => Unboxed(indent, rest, TrimStart(rest), header, raw, ext)
  }

  /** A line without a checkbox: a list item when it starts with `- `, and otherwise plain. */
  function Unboxed(indent: nat, rest: string, trimmed: string, header: Option<Headers.Header>,
                   raw: string, ext: Extension): (r: Line)
    ensures r.raw == raw && r.indent == indent + (if r.contentType.CommentLine? then 1 else 0)
    ensures r.contentType.ListItem? || r.contentType.HeaderLine? || r.contentType.CommentLine? || r.contentType.Text?
    ensures r.contentType.ListItem? <==> StartsWith(trimmed, ITEM)
    ensures r.contentType.ListItem? ==> IsTrimmed(r.content)
    ensures r.contentType.CommentLine? ==> r.marker == None
  {
    match StripPrefix(trimmed, ITEM)
      case Some(after) => Item(indent, ListItem, after, raw, ext)
      case None => Plain(indent, rest, trimmed, header, raw)
  }

  /**
   * `Line::parse`: a line is blank exactly when what follows its tabs is
   * whitespace; otherwise it is a marker line exactly when that decodes as a
   * marker, whatever else it looks like; item texts are trimmed.
   */
  function Parse(raw: string, ext: Extension): (r: Line)
    ensures r.raw == raw
    ensures r.indent == Indent(raw) + (if r.contentType.CommentLine? then 1 else 0)
    ensures r.contentType.Empty? <==> AllWhitespace(raw[Indent(raw)..])
    ensures r.contentType.Empty? ==> r.content == [] && r.marker == None
    ensures r.contentType.MarkerLine? <==>
      !AllWhitespace(raw[Indent(raw)..]) && FileMarker.DecodeFixed(raw[Indent(raw)..], ext).Some?
    ensures r.contentType.MarkerLine? ==> r.content == [] && r.marker == FileMarker.DecodeFixed(raw[Indent(raw)..], ext)
    ensures r.contentType.Checkbox? || r.contentType.ListItem? ==> IsTrimmed(r.content)
  {
    var indent := Indent(raw);
    var rest := raw[indent..];
    TrimIsTrimmed(rest);
    if Trim(rest) == [] then Line(indent, Empty, [], None, raw)
    else
      match FileMarker.DecodeFixed(rest, ext)
        case Some(m) => Line(indent, MarkerLine, [], Some(m), raw)
        case None => Content(indent, rest, ParseCheckboxPrefix(TrimStart(rest)), Headers.Decode(TrimStart(rest)), raw, ext)
  }

  /**
   * In a markdown file the corrected decoder changes nothing: a line is a
   * marker line, with the same marker, exactly when `Marker::decode` as
   * written reads one.
   */
  lemma ParseMdAsWritten(raw: string)
    ensures Parse(raw, Md).contentType.MarkerLine? <==>
      !AllWhitespace(raw[Indent(raw)..]) && FileMarker.Decode(raw[Indent(raw)..], Md).Some?
    ensures Parse(raw, Md).contentType.MarkerLine? ==> Parse(raw, Md).marker == FileMarker.Decode(raw[Indent(raw)..], Md)
  {
    FileMarker.DecodeFixedMd(raw[Indent(raw)..]);
  }

  /** `is_blocker_content`: headers, list items and checkboxes. */
  predicate IsBlockerContent(l: Line) {
    l.contentType.HeaderLine? || l.contentType.ListItem? || l.contentType.Checkbox?
  }

  /** `is_comment`. */
  predicate IsComment(l: Line) {
    l.contentType.CommentLine?
  }

  /** `is_empty`. */
  predicate IsEmpty(l: Line) {
    l.contentType.Empty?
  }

  /** `is_blockers_marker`: the line carries the blockers-section marker. */
  predicate IsBlockersMarker(l: Line) {
    l.marker.Some? && l.marker.value.BlockersSection?
  }

  /** A blank line carries no marker, so it is never the blockers marker; a comment is one level deeper than its tabs. */
  lemma KindsOfLines(raw: string, ext: Extension)
    ensures IsEmpty(Parse(raw, ext)) ==> !IsBlockersMarker(Parse(raw, ext)) && !IsBlockerContent(Parse(raw, ext))
    ensures IsComment(Parse(raw, ext)) ==> Parse(raw, ext).indent == Indent(raw) + 1 && Parse(raw, ext).marker == None
  {
    if IsComment(Parse(raw, ext)) {
      ParseOfContent(raw, ext);
    }
  }

  /** A blocker line is never blank and never a marker, and is a checkbox exactly when its box reads as one. */
  lemma BlockerContentIsNoMarker(raw: string, ext: Extension)
    requires IsBlockerContent(Parse(raw, ext))
    ensures !AllWhitespace(raw[Indent(raw)..]) && FileMarker.DecodeFixed(raw[Indent(raw)..], ext).None?
    ensures Parse(raw, ext).contentType.Checkbox? <==> ParseCheckboxPrefix(TrimStart(raw[Indent(raw)..])).Some?
  {
    var rest := raw[Indent(raw)..];
    assert Parse(raw, ext) == Content(Indent(raw), rest, ParseCheckboxPrefix(TrimStart(rest)), Headers.Decode(TrimStart(rest)), raw, ext);
  }

  // ---------------------------------------------------------------------
  // Reading back a rendered item line

  /** The rendered markdown item line: tabs, the box, the title, a space, the HTML marker. */
  function ItemLine(depth: nat, checked: bool, title: string, m: Marker): string {
    Repeat('\t', depth) + ((if checked then CHECKED_LOWER else UNCHECKED) + (title + (" " + FileMarker.Encode(m, Md))))
  }

  /** In `title + " " + encoding`, where the encoding's text has no `<`, the last `<!--` is the encoding's own. */
  lemma LastOpenOf(title: string, body: string)
    requires '<' !in body
    ensures var after := title + (" " + (HTML_OPEN + body + HTML_CLOSE));
      RFind(after, HTML_OPEN) == Some(|title| + 1) && EndsWith(after, HTML_CLOSE)
  {
    var enc := HTML_OPEN + body + HTML_CLOSE;
    var after := title + (" " + enc);
    var k := |title| + 1;
    EncodingShape(body);
    SpacedSuffix(title, enc);
    LastOpenIn(after, k, enc);
    EndsWithSuffix(after, k, enc, HTML_CLOSE);
  }

  lemma SpacedSuffix(title: string, enc: string)
    ensures (title + (" " + enc))[|title| + 1..] == enc
  {
    assert (title + (" " + enc))[|title|..] == " " + enc;
  }

  lemma EndsWithSuffix(s: string, k: nat, t: string, c: string)
    requires k <= |s| && s[k..] == t && EndsWith(t, c)
    ensures EndsWith(s, c)
  {
    assert s[|s| - |c|..] == t[|t| - |c|..];
  }

  /** An encoding opens with `<!--`, closes with `-->`, and has no other `<`. */
  lemma EncodingShape(body: string)
    requires '<' !in body
    ensures var enc := HTML_OPEN + body + HTML_CLOSE;
      |enc| >= 7 && enc[..4] == HTML_OPEN && enc[|enc| - 3..] == HTML_CLOSE
      && forall i :: 1 <= i < |enc| ==> enc[i] != '<'
  {
    var enc := HTML_OPEN + body + HTML_CLOSE;
    forall i | 1 <= i < |enc| ensures enc[i] != '<' {
      if i < 4 {
        assert enc[i] == HTML_OPEN[i];
      } else if i < 4 + |body| {
        assert enc[i] == body[i - 4];
      } else {
        assert enc[i] == HTML_CLOSE[i - 4 - |body|];
      }
    }
  }

  /** A text ending in an encoding whose only `<` is its first: the last `<!--` is there. */
  lemma LastOpenIn(after: string, k: nat, enc: string)
    requires k <= |after| && after[k..] == enc && |enc| >= 4 && enc[..4] == HTML_OPEN
    requires forall i :: 1 <= i < |enc| ==> enc[i] != '<'
    ensures RFind(after, HTML_OPEN) == Some(k)
  {
    assert OccursAt(after, HTML_OPEN, k) by {
      assert after[k..k + 4] == enc[..4];
    }
    forall j: nat | k < j < |after| + 1 ensures !OccursAt(after, HTML_OPEN, j) {
      if j < |after| {
        assert after[j] == enc[j - k];
        MarkerText.NotOccursAtByFirst(after, HTML_OPEN, j);
      }
    }
  }

  /** In `title + " " + encoding`, the last `<!--` is the one that opens the encoding. */
  lemma LastHtmlOpen(title: string, m: Marker)
    requires !m.BlockersSection? && '<' !in title && '<' !in FileMarker.InnerText(m)
    ensures var after := title + (" " + FileMarker.Encode(m, Md));
      RFind(after, HTML_OPEN) == Some(|title| + 1) && EndsWith(after, HTML_CLOSE)
  {
    FileMarker.EncodeMdShape(m);
    var body := FileMarker.MdPad(m) + FileMarker.InnerText(m) + " ";
    assert '<' !in body by {
      assert '<' !in FileMarker.MdPad(m);
    }
    assert FileMarker.Encode(m, Md) == HTML_OPEN + body + HTML_CLOSE;
    LastOpenOf(title, body);
  }

  /**
   * An item line as the issue files render it reads back as that item: its
   * depth, its box, its title and its marker, whenever the title is
   * non-empty, trimmed and has no `<`, and the marker's text has no `<`.
   */
  lemma ItemLineRoundTrip(depth: nat, checked: bool, title: string, m: Marker)
    requires FileMarker.WellFormed(m) && !m.BlockersSection?
    requires title != [] && IsTrimmed(title) && '<' !in title && '<' !in FileMarker.InnerText(m)
    ensures Parse(ItemLine(depth, checked, title, m), Md) ==
      Line(depth, Checkbox(checked), title, Some(m), ItemLine(depth, checked, title, m))
  {
    var box := if checked then CHECKED_LOWER else UNCHECKED;
    var after := title + (" " + FileMarker.Encode(m, Md));
    var body := box + after;
    var raw := ItemLine(depth, checked, title, m);
    CountLeadingRepeat('\t', depth, body);
    assert raw[depth..] == body;
    ItemBodyNotMarker(box, after, m);
    ParseOfContent(raw, Md);
    ItemBox(box, after, checked);
    TrailingEncoding(title, m);
    ItemOf(depth, Checkbox(checked), after, raw, Md);
  }

  lemma ParseOfContent(raw: string, ext: Extension)
    requires !AllWhitespace(raw[Indent(raw)..]) && FileMarker.DecodeFixed(raw[Indent(raw)..], ext) == None
    ensures var rest := raw[Indent(raw)..];
      Parse(raw, ext) == Content(Indent(raw), rest, ParseCheckboxPrefix(TrimStart(rest)), Headers.Decode(TrimStart(rest)), raw, ext)
  {
    TrimIsTrimmed(raw[Indent(raw)..]);
  }

  lemma ItemBox(box: string, after: string, checked: bool)
    requires box == (if checked then CHECKED_LOWER else UNCHECKED) && IsTrimmed(box + after)
    ensures ParseCheckboxPrefix(TrimStart(box + after)) == Some((checked, after))
  {
    TrimmedIsFixed(box + after);
    CheckboxForms(after);
  }

  lemma ItemOf(indent: nat, kind: ContentType, after: string, raw: string, ext: Extension)
    ensures Item(indent, kind, after, raw, ext) ==
      Line(indent, kind, Trim(ExtractTrailingMarker(after, ext).0), ExtractTrailingMarker(after, ext).1, raw)
  {
  }

  /** An item body starting with its box is neither blank nor a marker. */
  lemma ItemBodyNotMarker(box: string, after: string, m: Marker)
    requires box == CHECKED_LOWER || box == UNCHECKED
    requires !m.BlockersSection? && EndsWith(after, FileMarker.Encode(m, Md))
    ensures !AllWhitespace(box + after) && FileMarker.DecodeFixed(box + after, Md) == None
    ensures IsTrimmed(box + after)
  {
    ItemBodyEnds(box, after, m);
    DashedNotMarker(box + after);
  }

  /** The body starts with the box's dash and ends with the marker's `>`. */
  lemma ItemBodyEnds(box: string, after: string, m: Marker)
    requires box == CHECKED_LOWER || box == UNCHECKED
    requires !m.BlockersSection? && EndsWith(after, FileMarker.Encode(m, Md))
    ensures var body := box + after; body != [] && body[0] == '-' && body[|body| - 1] == '>'
  {
    var body := box + after;
    FileMarker.EncodeMdShape(m);
    var enc := FileMarker.Encode(m, Md);
    assert body[|body| - 1] == after[|after| - 1] == enc[|enc| - 1];
  }

  /** A line from a dash to a `>` is trimmed, not blank, and no marker of its own. */
  lemma DashedNotMarker(body: string)
    requires body != [] && body[0] == '-' && body[|body| - 1] == '>'
    ensures !AllWhitespace(body) && FileMarker.DecodeFixed(body, Md) == None
    ensures IsTrimmed(body)
  {
    TrimmedIsFixed(body);
    FileMarker.NotBlockersLine(body);
    MarkerText.NotStartsWithByFirst(body, HTML_OPEN);
  }

  /** `title + " " + encoding` splits into the title and the encoded marker. */
  lemma TrailingEncoding(title: string, m: Marker)
    requires FileMarker.WellFormed(m) && !m.BlockersSection?
    requires title != [] && IsTrimmed(title) && '<' !in title && '<' !in FileMarker.InnerText(m)
    ensures var r := ExtractTrailingMarker(title + (" " + FileMarker.Encode(m, Md)), Md);
      Trim(r.0) == title && r.1 == Some(m)
  {
    var enc := FileMarker.Encode(m, Md);
    LastHtmlOpen(title, m);
    FileMarker.DecodeEncodeMd(m);
    FileMarker.DecodeFixedMd(enc);
    SplitTitle(title, enc, m);
  }

  lemma SplitTitle(title: string, enc: string, m: Marker)
    requires title != [] && IsTrimmed(title)
    requires RFind(title + (" " + enc), HTML_OPEN) == Some(|title| + 1) && EndsWith(title + (" " + enc), HTML_CLOSE)
    requires FileMarker.DecodeFixed(enc, Md) == Some(m)
    ensures var r := ExtractTrailingMarker(title + (" " + enc), Md);
      Trim(r.0) == title && r.1 == Some(m)
  {
    TitleSpaceParts(title, enc);
    TrailingHtmlAt(title + (" " + enc), |title| + 1, Md, m);
    ExtractHtml(title + (" " + enc), |title| + 1, Md, m);
  }

  /** A trimmed title, a space and the encoded marker: where the pieces sit. */
  lemma TitleSpaceParts(title: string, enc: string)
    requires title != [] && IsTrimmed(title)
    ensures (title + (" " + enc))[|title| + 1..] == enc
    ensures Trim((title + (" " + enc))[..|title| + 1]) == title
  {
    AppendAssoc(title, " ", enc);
    JoinedParts(title + " ", enc);
    TrimSpaced(title);
  }

  // ---------------------------------------------------------------------
  // parse_lines

  /** `parse_lines`: one line record per line of the text, in order. */
  function ParseLines(content: string, ext: Extension): (r: seq<Line>)
    ensures |r| == |Lines(content)|
    ensures forall i :: 0 <= i < |r| ==> r[i] == Parse(Lines(content)[i], ext) && r[i].raw == Lines(content)[i]
  {
    var ls := Lines(content);
    seq(|ls|, i requires 0 <= i < |ls| => Parse(ls[i], ext))
  }
}
