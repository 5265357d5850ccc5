/**
 * The line helpers of src/open/util.rs: recognising the blockers marker,
 * reading the title of a checkbox line, expanding the `!b` shorthand and
 * rewriting markdown headers as typst headers. Indentation normalisation,
 * which the file also defines, is `Indentation`.
 */
module OpenUtil {
  import opened Wrappers
  import opened Strings
  import opened Extensions
  import opened MarkerText
  import FileMarker
  import IssueUtil

  /** `is_blockers_marker`: only the markdown decode is tried. */
  predicate IsBlockersMarker(line: string)
    ensures IsBlockersMarker(line) ==> !AllWhitespace(line)
  {
    TrimEmptyIff(line);
    FileMarker.Decode(line, Md) == Some(FileMarker.BlockersSection) || IssueUtil.IsBoldBlockers(line)
  }

  /** A `#…# Blockers::` header of any level opens the section. */
  lemma HashHeaderIsMarker(hashes: nat, title: string, colons: nat)
    requires hashes >= 1 && Lower(title) == FileMarker.BLOCKERS_TEXT
    ensures IsBlockersMarker(Repeat('#', hashes) + " " + title + Repeat(':', colons))
  {
    FileMarker.DecodeHashBlockers(hashes, title, colons, Md);
  }

  /** The blockers marker, encoded for either extension, opens the section. */
  lemma EncodedIsMarker(m: FileMarker.Marker, ext: Extension)
    requires m.BlockersSection?
    ensures IsBlockersMarker(FileMarker.Encode(m, ext))
  {
    if ext.Md? {
      FileMarker.DecodeMdBlockers(m);
    } else {
      TypBlockersIsMarker();
    }
  }

  lemma TypBlockersIsMarker()
    ensures IsBlockersMarker(FileMarker.TypLine(FileMarker.BLOCKERS_TEXT))
  {
    var l := FileMarker.TypLine(FileMarker.BLOCKERS_TEXT);
    assert l[0] == '/' && l[|l| - 1] == 's';
    TrimmedIsFixed(l);
    FileMarker.NotHashLine(l);
    assert FileMarker.IsTypBlockers(l);
  }

  // ---------------------------------------------------------------------
  // Checkbox titles

  const CHECKBOX_START: string := "- ["
  const UNCHECKED: string := "- [ ] "
  const CHECKED: string := "- [x] "
  const COMMENT_OPEN: string := "<!--"

  /**
   * `extract_checkbox_title`: the trimmed line must start with `- [ ] ` or
   * `- [x] `; the title is what follows, cut at the first `<!--` and
   * trimmed, and an empty title is no title.
   */
  function ExtractCheckboxTitle(line: string): (r: Option<string>)
    ensures r.Some? ==> StartsWith(Trim(line), UNCHECKED) || StartsWith(Trim(line), CHECKED)
    ensures r.Some? ==> r.value != [] && IsTrimmed(r.value)
  {
    var t := Trim(line);
    if !StartsWith(t, CHECKBOX_START) then None
    else if !StartsWith(t, UNCHECKED) && !StartsWith(t, CHECKED) then None
    else
      var title := TitleText(AfterBox(t));
      if title == [] then None else Some(title)
  }

  /** What follows the checked or unchecked box; both boxes are six characters long. */
  function AfterBox(t: string): (r: string)
    requires StartsWith(t, UNCHECKED) || StartsWith(t, CHECKED)
    ensures |r| + |UNCHECKED| == |t| && t == t[..|UNCHECKED|] + r
  {
    t[|UNCHECKED|..]
  }

  /** The text after the box up to the first `<!--`, trimmed. */
  function TitleText(rest: string): (r: string)
    ensures IsTrimmed(r)
  {
    match IndexOf(rest, COMMENT_OPEN)
      case Some(i) => TrimIsTrimmed(rest[..i]); Trim(rest[..i])
      case None => TrimIsTrimmed(rest); Trim(rest)
  }

  /** The checkbox line the editor writes for a child: box, title, optional marker comment. */
  function CheckboxLine(checked: bool, title: string, tail: string): string {
    (if checked then CHECKED else UNCHECKED) + title + tail
  }

  /**
   * The title of an indented checkbox line, followed either by nothing but
   * whitespace or by a space and an HTML comment, is read back unchanged.
   */
  lemma ExtractCheckboxLine(indent: string, checked: bool, title: string, body: string, trailing: string)
    requires AllWhitespace(indent) && AllWhitespace(trailing)
    requires title != [] && IsTrimmed(title) && '<' !in title
    ensures ExtractCheckboxTitle(indent + CheckboxLine(checked, title, trailing)) == Some(title)
    ensures ExtractCheckboxTitle(indent + CheckboxLine(checked, title, " " + Wrap(body))) == Some(title)
  {
    PlainCheckboxLine(indent, checked, title, trailing);
    CommentCheckboxLine(indent, checked, title, body);
  }

  lemma PlainCheckboxLine(indent: string, checked: bool, title: string, trailing: string)
    requires AllWhitespace(indent) && AllWhitespace(trailing)
    requires title != [] && IsTrimmed(title) && '<' !in title
    ensures ExtractCheckboxTitle(indent + CheckboxLine(checked, title, trailing)) == Some(title)
  {
    var box := if checked then CHECKED else UNCHECKED;
    PlainLineTrim(indent, box, title, trailing);
    FirstComment(title, []);
    TrimmedIsFixed(title);
    assert title + [] == title;
    BoxedLine(indent + CheckboxLine(checked, title, trailing), box, title);
  }

  lemma CommentCheckboxLine(indent: string, checked: bool, title: string, body: string)
    requires AllWhitespace(indent)
    requires title != [] && IsTrimmed(title) && '<' !in title
    ensures ExtractCheckboxTitle(indent + CheckboxLine(checked, title, " " + Wrap(body))) == Some(title)
  {
    var box := if checked then CHECKED else UNCHECKED;
    var tail := " " + Wrap(body);
    CommentLineTrim(indent, box, title, tail);
    CommentTitle(title, tail);
    BoxedLine(indent + CheckboxLine(checked, title, tail), box, title + tail);
  }

  /** A line whose trimmed text is a box and `rest` has the title `TitleText(rest)`. */
  lemma BoxedLine(line: string, box: string, rest: string)
    requires box == UNCHECKED || box == CHECKED
    requires Trim(line) == box + rest
    ensures ExtractCheckboxTitle(line) == if TitleText(rest) == [] then None else Some(TitleText(rest))
  {
    BoxedText(Trim(line), box, rest);
  }

  /** A box followed by text passes both box tests, and the text is what follows the box. */
  lemma BoxedText(t: string, box: string, rest: string)
    requires box == UNCHECKED || box == CHECKED
    requires t == box + rest
    ensures StartsWith(t, CHECKBOX_START) && StartsWith(t, box) && AfterBox(t) == rest
  {
    assert t[..|CHECKBOX_START|] == box[..|CHECKBOX_START|] == CHECKBOX_START;
    assert t[..|box|] == box;
  }

  lemma PlainLineTrim(indent: string, box: string, title: string, trailing: string)
    requires box == UNCHECKED || box == CHECKED
    requires AllWhitespace(indent) && AllWhitespace(trailing) && title != [] && IsTrimmed(title)
    ensures Trim(indent + CheckboxLine(box == CHECKED, title, trailing)) == box + title
  {
    assert box[0] == '-';
    assert indent + CheckboxLine(box == CHECKED, title, trailing) == indent + (box + title) + trailing;
    TrimPadded(indent, box + title, trailing);
  }

  lemma CommentLineTrim(indent: string, box: string, title: string, tail: string)
    requires box == UNCHECKED || box == CHECKED
    requires AllWhitespace(indent) && tail != [] && !IsWhitespace(tail[|tail| - 1])
    ensures Trim(indent + CheckboxLine(box == CHECKED, title, tail)) == box + (title + tail)
  {
    assert box[0] == '-';
    assert indent + CheckboxLine(box == CHECKED, title, tail) == indent + (box + (title + tail)) + [];
    TrimPadded(indent, box + (title + tail), []);
  }

  lemma CommentTitle(title: string, tail: string)
    requires title != [] && IsTrimmed(title) && '<' !in title
    requires |tail| >= 1 && tail[0] == ' ' && StartsWith(tail[1..], COMMENT_OPEN)
    ensures TitleText(title + tail) == title
  {
    assert tail[1..][..|COMMENT_OPEN|][0] == '<';
    assert !IsWhitespace(tail[1]);
    FirstComment(title, tail);
    assert IndexOf(title + tail, COMMENT_OPEN) == Some(|title| + 1);
    BeforeSpace(title, tail);
    TrimSpaced(title);
  }

  lemma BeforeSpace(title: string, tail: string)
    requires |tail| >= 1 && tail[0] == ' '
    ensures (title + tail)[..|title| + 1] == title + " "
  {
  }

  /**
   * After a title free of '<', the first `<!--` is the one the tail opens
   * with (after its space), and there is none when the tail is whitespace.
   */
  lemma FirstComment(title: string, tail: string)
    requires '<' !in title
    requires AllWhitespace(tail) || (|tail| >= 1 && tail[0] == ' ' && StartsWith(tail[1..], COMMENT_OPEN))
    ensures AllWhitespace(tail) ==> IndexOf(title + tail, COMMENT_OPEN).None?
    ensures !AllWhitespace(tail) ==> IndexOf(title + tail, COMMENT_OPEN) == Some(|title| + 1)
  {
    var s := title + tail;
    assert COMMENT_OPEN[0] == '<';
    forall j | 0 <= j < |title| ensures !OccursAt(s, COMMENT_OPEN, j) {
      assert s[j] == title[j];
      NotOccursAtByFirst(s, COMMENT_OPEN, j);
    }
    if AllWhitespace(tail) {
      forall j | |title| <= j ensures !OccursAt(s, COMMENT_OPEN, j) {
        if j < |s| {
          assert s[j] == tail[j - |title|];
          NotOccursAtByFirst(s, COMMENT_OPEN, j);
        }
      }
    } else {
      assert s[|title|] == ' ';
      NotOccursAtByFirst(s, COMMENT_OPEN, |title|);
      assert s[|title| + 1..|title| + 1 + |COMMENT_OPEN|] == tail[1..][..|COMMENT_OPEN|];
      assert OccursAt(s, COMMENT_OPEN, |title| + 1);
    }
  }

  const UPPER_CHECKED: string := "- [X] "

  /** A box ticked with an upper-case `X` gives no title. */
  lemma UpperCheckedRejected(line: string)
    requires StartsWith(Trim(line), UPPER_CHECKED)
    ensures ExtractCheckboxTitle(line) == None
  {
    NeitherBox(Trim(line));
  }

  /** A text starting with `- [X] ` starts with neither box. */
  lemma NeitherBox(t: string)
    requires StartsWith(t, UPPER_CHECKED)
    ensures !StartsWith(t, UNCHECKED) && !StartsWith(t, CHECKED)
  {
    assert t[..|UPPER_CHECKED|][3] == 'X';
    DiffersAt(t, UNCHECKED, 3);
    DiffersAt(t, CHECKED, 3);
  }

  // ---------------------------------------------------------------------
  // The `!b` shorthand

  const SHORTHAND: string := "!b"

  const MD_REPLACEMENT: string := "# Blockers"
  const TYP_REPLACEMENT: string := "// blockers"

  /** What `!b` expands to. */
  function Replacement(ext: Extension): string {
    match ext
      case Md => MD_REPLACEMENT
      case Typ => TYP_REPLACEMENT
  }

  /** The expansion is the extension's encoding of the blockers marker. */
  lemma ReplacementEncodes(m: FileMarker.Marker, ext: Extension)
    requires m.BlockersSection?
    ensures Replacement(ext) == FileMarker.Encode(m, ext)
  {
  }

  /**
   * One line of `expand_blocker_shorthand` as written: the indentation kept
   * is the first `len(line) - len(trim(line))` characters, which includes
   * part of the shorthand itself when the line has trailing whitespace.
   */
  function ExpandLineAsWritten(line: string, ext: Extension): string {
    var t := Trim(line);
    if EqIgnoreCase(t, SHORTHAND) then line[..|line| - |t|] + Replacement(ext) else line
  }

  /** One line of `expand_blocker_shorthand`, keeping exactly the leading whitespace. */
  function ExpandLine(line: string, ext: Extension): string {
    if EqIgnoreCase(Trim(line), SHORTHAND) then line[..|line| - |TrimStart(line)|] + Replacement(ext) else line
  }

  /**
   * `expand_blocker_shorthand`, with the leading-whitespace indentation: the
   * number of lines is kept and each line is expanded on its own.
   */
  function ExpandBlockerShorthand(content: string, ext: Extension): (r: string)
    ensures content != [] ==> Split(r, '\n') == MapSeq(Lines(content), l => ExpandLine(l, ext))
  {
    ExpandLineCount(content, ext);
    MapLines(content, l => ExpandLine(l, ext))
  }

  /**
   * A shorthand line becomes the extension's marker after the line's own
   * indentation, and the result opens the blockers section; every other
   * line is unchanged.
   */
  lemma {:induction false} ExpandLineProps(line: string, ext: Extension)
    ensures EqIgnoreCase(Trim(line), SHORTHAND) ==>
      && ExpandLine(line, ext) == line[..|line| - |TrimStart(line)|] + Replacement(ext)
      && AllWhitespace(line[..|line| - |TrimStart(line)|])
      && IsBlockersMarker(ExpandLine(line, ext))
    ensures !EqIgnoreCase(Trim(line), SHORTHAND) ==> ExpandLine(line, ext) == line
  {
    if EqIgnoreCase(Trim(line), SHORTHAND) {
      ShorthandLineProps(line, ext);
    }
  }

  lemma ShorthandLineProps(line: string, ext: Extension)
    requires EqIgnoreCase(Trim(line), SHORTHAND)
    ensures ExpandLine(line, ext) == line[..|line| - |TrimStart(line)|] + Replacement(ext)
    ensures AllWhitespace(line[..|line| - |TrimStart(line)|])
    ensures IsBlockersMarker(ExpandLine(line, ext))
  {
    ExpandShorthand(line, ext);
    MarkerAfterIndent(line[..|line| - |TrimStart(line)|], ext);
  }

  lemma ExpandShorthand(line: string, ext: Extension)
    requires EqIgnoreCase(Trim(line), SHORTHAND)
    ensures ExpandLine(line, ext) == line[..|line| - |TrimStart(line)|] + Replacement(ext)
    ensures AllWhitespace(line[..|line| - |TrimStart(line)|])
  {
  }

  /** The expansion after any whitespace indentation opens the blockers section. */
  lemma MarkerAfterIndent(indent: string, ext: Extension)
    requires AllWhitespace(indent)
    ensures IsBlockersMarker(indent + Replacement(ext))
  {
    ReplacementEncodes(FileMarker.BlockersSection, ext);
    EncodedIsMarker(FileMarker.BlockersSection, ext);
    ReplacementTrimmed(ext);
    IndentedMarker(indent, Replacement(ext));
  }

  lemma ReplacementTrimmed(ext: Extension)
    ensures var r := Replacement(ext);
      r != [] && IsTrimmed(r) && r[0] != '*' && !('A' <= r[0] <= 'Z') && '\n' !in r
      && |r| != |SHORTHAND|
  {
    var r := Replacement(ext);
    assert r[0] == '#' || r[0] == '/';
    assert r[|r| - 1] == 's';
  }

  /** Indenting a trimmed line changes neither of the two blockers tests. */
  lemma IndentedMarker(indent: string, r: string)
    requires AllWhitespace(indent) && r != [] && IsTrimmed(r)
    ensures IsBlockersMarker(indent + r) <==> IsBlockersMarker(r)
  {
    TrimPadded(indent, r, []);
    assert indent + r + [] == indent + r;
    TrimmedIsFixed(r);
  }

  /** Expanding a second time changes nothing more. */
  lemma ExpandLineIdempotent(line: string, ext: Extension)
    ensures ExpandLine(ExpandLine(line, ext), ext) == ExpandLine(line, ext)
  {
    if EqIgnoreCase(Trim(line), SHORTHAND) {
      var indent := line[..|line| - |TrimStart(line)|];
      ReplacementTrimmed(ext);
      TrimPadded(indent, Replacement(ext), []);
      assert indent + Replacement(ext) + [] == indent + Replacement(ext);
    }
  }

  lemma ExpandLineCount(content: string, ext: Extension)
    ensures content != [] ==> Split(MapLines(content, l => ExpandLine(l, ext)), '\n') == MapSeq(Lines(content), l => ExpandLine(l, ext))
  {
    if content == [] {
      return;
    }
    forall k | 0 <= k < |Lines(content)| ensures '\n' !in ExpandLine(Lines(content)[k], ext) {
      var line := Lines(content)[k];
      ReplacementTrimmed(ext);
      assert '\n' !in line[..|line| - |TrimStart(line)|];
    }
    MapLinesSplit(content, l => ExpandLine(l, ext));
  }

  const SHORTHAND_TRAILING_SPACE: string := "!b "

  /**
   * As written, `!b` followed by a space keeps `!` as its "indentation":
   * the line becomes `!# Blockers`, which is no blockers marker, where the
   * leading-whitespace reading gives `# Blockers`.
   */
  lemma ExpandTrailingSpaceAsWritten()
    ensures ExpandLineAsWritten(SHORTHAND_TRAILING_SPACE, Md) == "!" + Replacement(Md)
    ensures !IsBlockersMarker(ExpandLineAsWritten(SHORTHAND_TRAILING_SPACE, Md))
    ensures ExpandLine(SHORTHAND_TRAILING_SPACE, Md) == Replacement(Md)
  {
    var l := SHORTHAND_TRAILING_SPACE;
    assert Trim(l) == SHORTHAND by {
      assert l == [] + SHORTHAND + " ";
      TrimPadded([], SHORTHAND, " ");
    }
    assert TrimStart(l) == l;
    assert l[..1] == "!";
    var out := "!" + Replacement(Md);
    ReplacementTrimmed(Md);
    assert IsTrimmed(out) && out[0] == '!';
    TrimmedIsFixed(out);
    FileMarker.NotBlockersLine(out);
    assert !StartsWith(out, COMMENT_OPEN) by {
      assert COMMENT_OPEN[0] == '<';
    }
    assert FileMarker.Decode(out, Md) == None;
    IssueUtil.NotBoldByFirst(out);
  }

  // ---------------------------------------------------------------------
  // Markdown headers to typst

  /** `#` repeated `n` times and a space. */
  function HashPrefix(n: nat): string { Repeat('#', n) + " " }

  /** `=` repeated `n` times and a space. */
  function EqualsPrefix(n: nat): string { Repeat('=', n) + " " }

  /**
   * One line of `convert_markdown_to_typst` (src/open/util.rs and, word for
   * word, src/open.rs): a leading `### `, `## ` or `# ` becomes `=== `,
   * `== ` or `= `.
   */
  function TypstHeaderLine(line: string): string {
    if StartsWith(line, HashPrefix(3)) then EqualsPrefix(3) + line[4..]
    else if StartsWith(line, HashPrefix(2)) then EqualsPrefix(2) + line[3..]
    else if StartsWith(line, HashPrefix(1)) then EqualsPrefix(1) + line[2..]
    else line
  }

  /**
   * `convert_markdown_to_typst`: the number of lines is kept and each line is
   * converted on its own.
   */
  function ConvertMarkdownToTypst(body: string): (r: string)
    ensures body != [] ==> Split(r, '\n') == MapSeq(Lines(body), TypstHeaderLine)
  {
    ConvertLineCount(body);
    MapLines(body, TypstHeaderLine)
  }

  /** A markdown header of level 1 to 3 becomes the typst header of the same level and text. */
  lemma TypstHeaderOfLevel(n: nat, rest: string)
    requires 1 <= n <= 3
    ensures TypstHeaderLine(HashPrefix(n) + rest) == EqualsPrefix(n) + rest
  {
    var l := HashPrefix(n) + rest;
    assert l[n] == ' ';
    assert forall k :: 0 <= k < n ==> l[k] == '#';
    assert HashPrefix(n)[..n + 1] == HashPrefix(n);
    assert l[..n + 1] == HashPrefix(n);
    assert l[n + 1..] == rest;
  }

  /** Deeper headers, and every line not starting with `# `, `## ` or `### `, are kept. */
  lemma TypstHeaderKeeps(line: string)
    requires !StartsWith(line, HashPrefix(1)) && !StartsWith(line, HashPrefix(2)) && !StartsWith(line, HashPrefix(3))
    ensures TypstHeaderLine(line) == line
  {
  }

  lemma DeepHeaderKept(n: nat, rest: string)
    requires n >= 4
    ensures TypstHeaderLine(HashPrefix(n) + rest) == HashPrefix(n) + rest
  {
    var l := HashPrefix(n) + rest;
    assert l[1] == '#' && l[2] == '#' && l[3] == '#';
    assert HashPrefix(1)[1] == ' ' && HashPrefix(2)[2] == ' ' && HashPrefix(3)[3] == ' ';
    assert !StartsWith(l, HashPrefix(1)) by { assert l[..2][1] != HashPrefix(1)[1]; }
    assert !StartsWith(l, HashPrefix(2)) by { assert l[..3][2] != HashPrefix(2)[2]; }
    assert !StartsWith(l, HashPrefix(3)) by { assert l[..4][3] != HashPrefix(3)[3]; }
  }

  lemma ConvertLineCount(body: string)
    ensures body != [] ==> Split(MapLines(body, TypstHeaderLine), '\n') == MapSeq(Lines(body), TypstHeaderLine)
  {
    if body == [] {
      return;
    }
    forall k | 0 <= k < |Lines(body)| ensures '\n' !in TypstHeaderLine(Lines(body)[k]) {
      var line := Lines(body)[k];
      assert '\n' !in EqualsPrefix(3) && '\n' !in EqualsPrefix(2) && '\n' !in EqualsPrefix(1);
    }
    MapLinesSplit(body, TypstHeaderLine);
  }
}
