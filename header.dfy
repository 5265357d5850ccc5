/** The two issue-file formats: markdown (`.md`) and typst (`.typ`). */
module Extensions {
  datatype Extension = Md | Typ

  /** The file extension without the dot. */
  function Name(e: Extension): string {
    match e
      case Md => "md"
      case Typ => "typ"
  }
}

/**
 * The markdown header `# Content`, `## Content`, ... of src/lib.rs: a level
 * (the number of '#') and the text after the single space that follows them.
 */
module Headers {
  import opened Wrappers
  import opened Strings

  datatype Header = Header(level: nat, content: string)

  /** `Header::new`: the level is clamped to at least 1. */
  function New(level: nat, content: string): (h: Header)
    ensures h.level >= 1
    ensures level >= 1 ==> h.level == level
    ensures h.content == content
  {
    Header(if level < 1 then 1 else level, content)
  }

  /** `Header::encode`: `level` hashes, a space, the content. */
  function Encode(h: Header): (r: string)
    ensures |r| == h.level + 1 + |h.content|
    ensures forall i :: 0 <= i < h.level ==> r[i] == '#'
    ensures r[h.level] == ' ' && r[h.level + 1..] == h.content
  {
    Repeat('#', h.level) + " " + h.content
  }

  /**
   * `Header::decode`: after trimming, a run of '#' followed by a space; the
   * level is the run length and the content is everything after that one
   * space.
   */
  function Decode(s: string): (r: Option<Header>)
    ensures r.Some? ==> r.value.level >= 1 && Trim(s) == Encode(r.value)
  {
    var t := Trim(s);
    if !StartsWith(t, "#") then None
    else
      var level := CountLeading(t, '#');
      if |t| > level && t[level] == ' ' then
        assert t == Repeat('#', level) + " " + t[level + 1..] by {
          assert t[..level] == Repeat('#', level);
          assert t == t[..level] + [t[level]] + t[level + 1..];
        }
        Some(Header(level, t[level + 1..]))
      else None
  }

  /** Text whose trimmed form does not start with '#' is no header. */
  lemma DecodeNoHash(s: string)
    requires s != [] && IsTrimmed(s) && s[0] != '#'
    ensures Decode(s) == None
  {
    TrimmedIsFixed(s);
    assert s[..1][0] == s[0];
  }

  /** Decoding reads only the trimmed text. */
  lemma DecodeTrimmed(s: string)
    ensures Decode(Trim(s)) == Decode(s)
  {
    TrimTwice(s);
  }

  /** Every line of the form `#…# content` (after trimming) decodes. */
  lemma DecodeComplete(s: string, h: Header)
    requires h.level >= 1 && Trim(s) == Encode(h)
    ensures Decode(s) == Some(h)
  {
    EncodedParts(Trim(s), h);
    DecodeParts(s, h.level, h.content);
  }

  /** An encoded header is its level's hashes, a space, and its content. */
  lemma EncodedParts(t: string, h: Header)
    requires h.level >= 1 && t == Encode(h)
    ensures StartsWith(t, "#") && CountLeading(t, '#') == h.level
    ensures |t| > h.level && t[h.level] == ' ' && t[h.level + 1..] == h.content
  {
    AppendAssoc(Repeat('#', h.level), " ", h.content);
    CountLeadingRepeat('#', h.level, " " + h.content);
    assert t[h.level..] == " " + h.content;
    assert t[0] == '#';
    assert t[..1] == "#";
  }

  /** The trimmed text opens with its level's hashes and a space before the content: it decodes. */
  lemma DecodeParts(s: string, level: nat, content: string)
    requires StartsWith(Trim(s), "#") && CountLeading(Trim(s), '#') == level
    requires |Trim(s)| > level && Trim(s)[level] == ' ' && Trim(s)[level + 1..] == content
    ensures Decode(s) == Some(Header(level, content))
  {
  }

  /**
   * A header survives encode/decode exactly when its level is at least 1 and
   * its content is non-empty without trailing whitespace.
   */
  lemma DecodeEncode(h: Header)
    ensures Decode(Encode(h)) == Some(h) <==>
      h.level >= 1 && h.content != [] && !IsWhitespace(h.content[|h.content| - 1])
  {
    var e := Encode(h);
    if h.level >= 1 && h.content != [] && !IsWhitespace(h.content[|h.content| - 1]) {
      assert e[0] == '#';
      assert e[|e| - 1] == h.content[|h.content| - 1];
      TrimmedIsFixed(e);
      DecodeComplete(e, h);
    }
    if Decode(e) == Some(h) {
      TrimIsTrimmed(e);
      assert Trim(e) == e;
      assert e[|e| - 1] == (if h.content == [] then ' ' else h.content[|h.content| - 1]);
    }
  }

  /** `Header::content_eq_ignore_case`: ASCII case-insensitive equality. */
  predicate ContentEqIgnoreCase(h: Header, text: string) {
    EqIgnoreCase(h.content, text)
  }

  /** Case-insensitive equality implies equal lengths and is implied by equality. */
  lemma ContentEqIgnoreCaseProps(h: Header, text: string)
    ensures ContentEqIgnoreCase(h, text) ==> |h.content| == |text|
    ensures h.content == text ==> ContentEqIgnoreCase(h, text)
    ensures ContentEqIgnoreCase(h, text) <==>
      |h.content| == |text| && forall i :: 0 <= i < |text| ==> LowerChar(h.content[i]) == LowerChar(text[i])
  {
    if ContentEqIgnoreCase(h, text) {
      assert |Lower(h.content)| == |Lower(text)|;
      forall i | 0 <= i < |text| ensures LowerChar(h.content[i]) == LowerChar(text[i]) {
        assert Lower(h.content)[i] == Lower(text)[i];
      }
    }
  }
}
