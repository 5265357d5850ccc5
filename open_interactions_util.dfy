/**
 * src/open_interactions/util.rs: the same checkbox-title reading as
 * src/open/util.rs (`OpenUtil.ExtractCheckboxTitle`), and a markdown-to-typst
 * conversion that goes through the header type instead of matching
 * prefixes.
 */
module OpenInteractionsUtil {
  import opened Wrappers
  import opened Strings
  import Headers
  import OpenUtil

  /** A header written in typst: `level` equals signs, a space, the content. */
  function TypstHeader(h: Headers.Header): string {
    Repeat('=', h.level) + " " + h.content
  }

  /** One line of `convert_markdown_to_typst`: a decodable markdown header is re-encoded for typst. */
  function HeaderLineToTypst(line: string): string {
    match Headers.Decode(line)
      case Some(h) => TypstHeader(h)
      case None => line
  }

  /**
   * `convert_markdown_to_typst`: the number of lines is kept and each line is
   * converted on its own.
   */
  function ConvertMarkdownToTypst(body: string): (r: string)
    ensures body != [] ==> Split(r, '\n') == MapSeq(Lines(body), HeaderLineToTypst)
  {
    ConvertLineCount(body);
    MapLines(body, HeaderLineToTypst)
  }

  /** A header keeps its level and its content; non-header lines are kept. */
  lemma HeaderLineProps(line: string)
    ensures Headers.Decode(line).None? ==> HeaderLineToTypst(line) == line
    ensures Headers.Decode(line).Some? ==>
      var h := Headers.Decode(line).value;
      && HeaderLineToTypst(line) == OpenUtil.EqualsPrefix(h.level) + h.content
      && Trim(line) == OpenUtil.HashPrefix(h.level) + h.content
  {
  }

  /**
   * On a trimmed header line of level 1 to 3 this conversion and the
   * prefix-matching one of src/open/util.rs agree.
   */
  lemma AgreesWithPrefixConversion(n: nat, content: string)
    requires 1 <= n <= 3
    requires IsTrimmed(OpenUtil.HashPrefix(n) + content)
    ensures HeaderLineToTypst(OpenUtil.HashPrefix(n) + content) == OpenUtil.TypstHeaderLine(OpenUtil.HashPrefix(n) + content)
  {
    var line := OpenUtil.HashPrefix(n) + content;
    TrimmedIsFixed(line);
    assert line == Headers.Encode(Headers.Header(n, content));
    Headers.DecodeComplete(line, Headers.Header(n, content));
    OpenUtil.TypstHeaderOfLevel(n, content);
  }

  /** A header line has no line break when the input line had none. */
  lemma HeaderLineNoNewline(line: string)
    requires '\n' !in line
    ensures '\n' !in HeaderLineToTypst(line)
  {
    if Headers.Decode(line).Some? {
      var h := Headers.Decode(line).value;
      TrimNoChar(line, '\n');
      assert Trim(line) == Repeat('#', h.level) + " " + h.content;
      assert '\n' !in h.content;
    }
  }

  lemma ConvertLineCount(body: string)
    ensures body != [] ==> Split(MapLines(body, HeaderLineToTypst), '\n') == MapSeq(Lines(body), HeaderLineToTypst)
  {
    if body == [] {
      return;
    }
    forall k | 0 <= k < |Lines(body)| ensures '\n' !in HeaderLineToTypst(Lines(body)[k]) {
      HeaderLineNoNewline(Lines(body)[k]);
    }
    MapLinesSplit(body, HeaderLineToTypst);
  }
}
