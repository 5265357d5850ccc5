/**
 * `sanitize_title_for_filename`, which src/open_interactions/files.rs,
 * src/open/files.rs and src/blocker_rewrite.rs define word for word:
 * letters, digits, '-' and '_' are kept, a space becomes '_', every other
 * character is dropped, and the underscores at both ends are trimmed.
 * Letters and digits are the ASCII ones.
 */
module Sanitize {
  import opened Strings

  /** A character the sanitiser keeps as it is. */
  predicate IsKept(c: char) { IsAsciiAlnum(c) || c == '-' || c == '_' }

  /** What one character becomes: itself, '_' for a space, or nothing. */
  function CleanChar(c: char): string {
    if IsKept(c) then [c] else if c == ' ' then "_" else []
  }

  /** The characters mapped and filtered, before the underscores are trimmed. */
  function Cleaned(s: string): (r: string)
    ensures forall i :: 0 <= i < |r| ==> IsKept(r[i])
    ensures |r| <= |s|
  {
    if s == [] then [] else CleanChar(s[0]) + Cleaned(s[1..])
  }

  /**
   * `sanitize_title_for_filename`. Sanitised titles are file-name safe and
   * carry no underscore at either end.
   */
  function SanitizeTitle(title: string): (r: string)
    ensures forall i :: 0 <= i < |r| ==> IsKept(r[i])
    ensures r == [] || (r[0] != '_' && r[|r| - 1] != '_')
  {
    SanitizedShape(Cleaned(title));
    TrimEndMatches(TrimStartMatches(Cleaned(title), '_'), '_')
  }

  /** Trimming the underscores of kept characters leaves kept characters and no underscore at either end. */
  lemma SanitizedShape(c: string)
    requires forall i :: 0 <= i < |c| ==> IsKept(c[i])
    ensures var r := TrimEndMatches(TrimStartMatches(c, '_'), '_');
      && (forall i :: 0 <= i < |r| ==> IsKept(r[i]))
      && (r == [] || (r[0] != '_' && r[|r| - 1] != '_'))
  {
    var a := TrimStartMatches(c, '_');
    var r := TrimEndMatches(a, '_');
    TrimStartMatchesSuffix(c, '_');
    TrimEndMatchesPrefix(a, '_');
    forall i | 0 <= i < |r| ensures IsKept(r[i]) {
      assert r[i] == a[i] == c[|c| - |a| + i];
    }
    if r != [] {
      assert r[0] == a[0];
    }
  }

  /** Cleaning distributes over concatenation. */
  lemma {:induction false} CleanedAppend(a: string, b: string)
    ensures Cleaned(a + b) == Cleaned(a) + Cleaned(b)
  {
    if a != [] {
      assert (a + b)[0] == a[0];
      assert (a + b)[1..] == a[1..] + b;
      CleanedAppend(a[1..], b);
    } else {
      assert a + b == b;
    }
  }

  /** A character other than a kept one or a space is dropped without trace. */
  lemma DroppedChar(a: string, c: char, b: string)
    requires !IsKept(c) && c != ' '
    ensures Cleaned(a + [c] + b) == Cleaned(a) + Cleaned(b)
  {
    CleanedAppend(a + [c], b);
    CleanedAppend(a, [c]);
  }

  /**
   * A title made only of kept characters and spaces keeps its length
   * through cleaning, with each space replaced by '_'.
   */
  lemma {:induction false} SpacesBecomeUnderscores(s: string)
    requires forall i :: 0 <= i < |s| ==> IsKept(s[i]) || s[i] == ' '
    ensures |Cleaned(s)| == |s|
    ensures forall i :: 0 <= i < |s| ==> Cleaned(s)[i] == (if s[i] == ' ' then '_' else s[i])
  {
    if s != [] {
      SpacesBecomeUnderscores(s[1..]);
      assert Cleaned(s) == CleanChar(s[0]) + Cleaned(s[1..]);
    }
  }

  /** Trimming a character that is at neither end changes nothing. */
  lemma TrimMatchesNoop(s: string, c: char)
    requires s == [] || (s[0] != c && s[|s| - 1] != c)
    ensures TrimEndMatches(TrimStartMatches(s, c), c) == s
  {
  }

  /** A sanitised title is its own sanitisation. */
  lemma SanitizeIdempotent(title: string)
    ensures SanitizeTitle(SanitizeTitle(title)) == SanitizeTitle(title)
  {
    var r := SanitizeTitle(title);
    SpacesBecomeUnderscores(r);
    assert Cleaned(r) == r;
    TrimMatchesNoop(r, '_');
  }
}
