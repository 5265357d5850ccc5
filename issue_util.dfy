/**
 * `is_blockers_marker` of src/issue/util.rs: the blockers section starts at
 * a line the issue markers decode as `BlockersSection`, or at a bold
 * `**Blockers**` line.
 */
module IssueUtil {
  import opened Wrappers
  import opened Strings
  import Headers
  import opened MarkerText
  import IssueMarker

  const BOLD_BLOCKERS: string := "**blockers**"

  /** The trimmed, lower-cased line starts with `**blockers**`. */
  predicate IsBoldBlockers(line: string) {
    StartsWith(Lower(Trim(line)), BOLD_BLOCKERS)
  }

  /**
   * `is_blockers_marker`. The source tries the markdown and the typst decode
   * in turn; in src/issue/marker.rs both are the same one-argument decode.
   */
  predicate IsBlockersMarker(line: string)
    ensures IsBlockersMarker(line) ==> !AllWhitespace(line)
  {
    TrimEmptyIff(line);
    var m := IssueMarker.Decode(line);
    (m.Some? && m.value.BlockersSection?) || IsBoldBlockers(line)
  }

  /** Any indentation, then `**Blockers**` in any case, then anything. */
  lemma BoldBlockers(pad: string, title: string, rest: string)
    requires AllWhitespace(pad) && Lower(title) == BOLD_BLOCKERS
    ensures IsBoldBlockers(pad + title + rest)
  {
    assert |title| == |BOLD_BLOCKERS|;
    assert LowerChar(title[0]) == '*' && LowerChar(title[|title| - 1]) == '*' by {
      assert Lower(title)[0] == BOLD_BLOCKERS[0];
      assert Lower(title)[|title| - 1] == BOLD_BLOCKERS[|title| - 1];
    }
    assert pad + title + rest == pad + (title + rest);
    TrimStartPadded(pad, title + rest);
    TrimEndAfter(title, rest);
    LowerAppend(title, TrimEnd(rest));
  }

  /** The `!b` shorthand, indented or not, opens the section. */
  lemma ShorthandIsMarker(pad1: string, pad2: string, letter: char)
    requires AllWhitespace(pad1) && AllWhitespace(pad2)
    requires letter == 'b' || letter == 'B'
    ensures IsBlockersMarker(pad1 + ['!', letter] + pad2)
  {
    IssueMarker.DecodeShorthandBlockers(pad1, pad2, letter);
  }

  /** A header of any level whose text names the blockers opens the section. */
  lemma HeaderIsMarker(s: string, h: Headers.Header)
    requires Headers.Decode(s) == Some(h) && IssueMarker.IsBlockersTitle(h.content)
    ensures IsBlockersMarker(s)
  {
    IssueMarker.DecodeBlockersHeader(s, h);
  }

  /** Every encoded blockers marker is recognised. */
  lemma EncodedIsMarker(m: IssueMarker.Marker)
    requires m.BlockersSection? && IssueMarker.WellFormed(m)
    ensures IsBlockersMarker(IssueMarker.Encode(m))
  {
    IssueMarker.DecodeEncode(m);
  }

  /** No other marker opens the section. */
  lemma OtherMarkers(m: IssueMarker.Marker)
    requires !m.BlockersSection? && IssueMarker.WellFormed(m)
    ensures !IsBlockersMarker(IssueMarker.Encode(m))
  {
    IssueMarker.DecodeEncode(m);
    EncodeFirst(m);
    NotBoldByFirst(IssueMarker.Encode(m));
  }

  lemma EncodeFirst(m: IssueMarker.Marker)
    requires !m.BlockersSection?
    ensures IssueMarker.Encode(m) != [] && IssueMarker.Encode(m)[0] == '<'
  {
  }

  /** A line that starts with neither whitespace, a letter nor '*' is not bold blockers text. */
  lemma NotBoldByFirst(s: string)
    requires s != [] && !IsWhitespace(s[0]) && s[0] != '*' && !('A' <= s[0] <= 'Z')
    ensures !IsBoldBlockers(s)
  {
    assert TrimStart(s) == s;
    var t := TrimEnd(s);
    assert AllWhitespace(s[|t|..]);
    assert Lower(t)[0] == t[0] == s[0];
  }
}
