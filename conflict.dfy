/**
 * Git conflict detection of src/open_interactions/conflict.rs: a file is
 * still conflicted while it holds all three of git's conflict markers.
 */
module Conflict {
  import opened Strings

  const OURS: string := "<<<<<<<"
  const SEPARATOR: string := "======="
  const THEIRS: string := ">>>>>>>"

  /**
   * `has_conflict_markers`: all three markers occur somewhere in the
   * content, so content reported as conflicted holds a `<`, a `=` and a `>`.
   */
  predicate HasConflictMarkers(content: string)
    ensures HasConflictMarkers(content) ==> '<' in content && '=' in content && '>' in content
  {
    ContainedFirst(content, OURS);
    ContainedFirst(content, SEPARATOR);
    ContainedFirst(content, THEIRS);
    Contains(content, OURS) && Contains(content, SEPARATOR) && Contains(content, THEIRS)
  }

  /** The first character of an occurring pattern occurs in the text. */
  lemma ContainedFirst(s: string, p: string)
    requires p != []
    ensures Contains(s, p) ==> p[0] in s
  {
    if Contains(s, p) {
      var i := IndexOf(s, p).value;
      assert s[i..i + |p|][0] == s[i];
    }
  }

  /** What git writes for a conflicting hunk is detected, whatever surrounds it. */
  lemma GitHunkDetected(before: string, ours: string, theirs: string, after: string)
    ensures HasConflictMarkers(before + OURS + ours + SEPARATOR + theirs + THEIRS + after)
  {
    var content := before + OURS + ours + SEPARATOR + theirs + THEIRS + after;
    ContainsMiddle(before, OURS, ours + SEPARATOR + theirs + THEIRS + after);
    assert content == before + OURS + (ours + SEPARATOR + theirs + THEIRS + after);
    ContainsMiddle(before + OURS + ours, SEPARATOR, theirs + THEIRS + after);
    assert content == (before + OURS + ours) + SEPARATOR + (theirs + THEIRS + after);
    ContainsMiddle(before + OURS + ours + SEPARATOR + theirs, THEIRS, after);
  }

  /** Text without a `<` or without a `>` is never blocked. */
  lemma MissingBracketNoConflict(content: string)
    requires '<' !in content || '>' !in content
    ensures !HasConflictMarkers(content)
  {
  }

  /** A lone `=======` divider is not a conflict. */
  lemma DividerIsNoConflict()
    ensures !HasConflictMarkers("# Issue\n\n=======\n\nSome divider")
  {
    var s := "# Issue\n\n=======\n\nSome divider";
    assert forall i :: 0 <= i < |s| ==> s[i] != '<';
    MissingBracketNoConflict(s);
  }

  /** Two of the three markers are not a conflict. */
  lemma TwoMarkersAreNoConflict()
    ensures !HasConflictMarkers("<<<<<<< HEAD\nSome text\n=======")
  {
    var s := "<<<<<<< HEAD\nSome text\n=======";
    assert forall i :: 0 <= i < |s| ==> s[i] != '>';
    MissingBracketNoConflict(s);
  }
}
