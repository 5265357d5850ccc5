/**
 * src/issue/error.rs: the parse errors of an issue file and the context
 * that turns a 1-indexed line number into a character span of the content.
 */
module IssueError {
  import opened Strings

  /** `SourceSpan`: an offset and a length into the content. */
  datatype Span = Span(offset: nat, len: nat)

  /**
   * `ParseError`. The named source of every variant is the context itself
   * and is left out; `InvalidTitle` carries the offending line.
   */
  datatype ParseError =
    | EmptyFile
    | InvalidTitle(span: Span, line: string)
    | InvalidCheckbox(span: Span, content: string)
    | MissingUrlMarker(span: Span)
    | MalformedUrlMarker(span: Span)
    | BadIndentation(span: Span, expectedTabs: nat)

  /** `ParseContext`. */
  datatype ParseContext = ParseContext(content: string, filename: string)

  /** `ParseContext::new` stores both arguments unchanged. */
  function NewContext(content: string, filename: string): (ctx: ParseContext)
    ensures ctx.content == content && ctx.filename == filename
  {
    ParseContext(content, filename)
  }

  /** The summed lengths of `ls`, each counted with its line break. */
  function Widths(ls: seq<string>): nat {
    if ls == [] then 0 else Widths(ls[..|ls| - 1]) + |ls[|ls| - 1]| + 1
  }

  /** `n.saturating_sub(1)`. */
  function Pred(n: nat): nat {
    if n == 0 then 0 else n - 1
  }

  /**
   * `line_offset`: the width of the lines before line `n` (1-indexed),
   * counting only the lines the content has.
   */
  function LineOffset(ctx: ParseContext, n: nat): nat {
    var ls := Lines(ctx.content);
    var k := if Pred(n) <= |ls| then Pred(n) else |ls|;
    Widths(ls[..k])
  }

  /** `line_span`: the offset of line `n` and its length, 0 past the end. */
  function LineSpan(ctx: ParseContext, n: nat): (r: Span)
    ensures r.offset == LineOffset(ctx, n)
    ensures 1 <= n <= |Lines(ctx.content)| ==> r.len == |Lines(ctx.content)[n - 1]|
    ensures n > |Lines(ctx.content)| ==> r.len == 0
  {
    var ls := Lines(ctx.content);
    Span(LineOffset(ctx, n), if Pred(n) < |ls| then |ls[Pred(n)]| else 0)
  }

  /** Lines 0 and 1 both start at offset 0. */
  lemma FirstLineOffset(ctx: ParseContext)
    ensures LineOffset(ctx, 0) == 0 && LineOffset(ctx, 1) == 0
  {
  }

  /** Each line starts one line break after the end of the line before it. */
  lemma NextLineOffset(ctx: ParseContext, n: nat)
    requires 1 <= n <= |Lines(ctx.content)|
    ensures LineOffset(ctx, n + 1) == LineOffset(ctx, n) + |Lines(ctx.content)[n - 1]| + 1
  {
    var ls := Lines(ctx.content);
    assert ls[..n][..n - 1] == ls[..n - 1];
  }

  /** Past the last line the offset stays at the width of the whole content. */
  lemma OffsetPastEnd(ctx: ParseContext, n: nat)
    requires n > |Lines(ctx.content)|
    ensures LineOffset(ctx, n) == Widths(Lines(ctx.content))
  {
    var ls := Lines(ctx.content);
    assert ls[..|ls|] == ls;
  }

  /** The joined lines start with the first `k` lines joined and a line break. */
  lemma {:induction false} JoinPrefix(ls: seq<string>, k: nat)
    requires k < |ls|
    ensures |Join(ls, "\n")| >= Widths(ls[..k]) + |ls[k]|
    ensures Join(ls, "\n")[Widths(ls[..k])..Widths(ls[..k]) + |ls[k]|] == ls[k]
  {
    if k == 0 {
      assert ls[..0] == [];
      if |ls| > 1 {
        assert Join(ls, "\n") == ls[0] + "\n" + Join(ls[1..], "\n");
      }
    } else {
      var tail := ls[1..];
      JoinPrefix(tail, k - 1);
      WidthsCons(ls, k);
      var j := Join(tail, "\n");
      assert Join(ls, "\n") == ls[0] + "\n" + j;
      var o := Widths(tail[..k - 1]);
      assert j[o..o + |ls[k]|] == ls[k];
      assert (ls[0] + "\n" + j)[|ls[0]| + 1 + o..|ls[0]| + 1 + o + |ls[k]|] == j[o..o + |ls[k]|];
    }
  }

  /** The width of a prefix is the first line's width plus the rest's. */
  lemma {:induction false} WidthsCons(ls: seq<string>, k: nat)
    requires 1 <= k <= |ls|
    ensures Widths(ls[..k]) == |ls[0]| + 1 + Widths(ls[1..][..k - 1])
  {
    if k > 1 {
      WidthsCons(ls, k - 1);
      assert ls[..k][..k - 1] == ls[..k - 1];
      assert ls[1..][..k - 1][..k - 2] == ls[1..][..k - 2];
    } else {
      assert ls[..1][..0] == [];
    }
  }

  /** The span of every line picks out exactly that line of the content. */
  lemma SpanIsLine(ctx: ParseContext, n: nat)
    requires 1 <= n <= |Lines(ctx.content)|
    ensures var sp := LineSpan(ctx, n);
      sp.offset + sp.len <= |ctx.content| &&
      ctx.content[sp.offset..sp.offset + sp.len] == Lines(ctx.content)[n - 1]
  {
    OffsetOfLine(ctx, n);
    LinesArePrefix(ctx.content);
    LineOfPrefix(ctx.content, Lines(ctx.content), n - 1, LineSpan(ctx, n));
  }

  /** Line `n` starts at the width of the lines before it. */
  lemma OffsetOfLine(ctx: ParseContext, n: nat)
    requires 1 <= n <= |Lines(ctx.content)|
    ensures LineOffset(ctx, n) == Widths(Lines(ctx.content)[..n - 1])
  {
  }

  /** The content starts with its lines joined by line breaks. */
  lemma LinesArePrefix(c: string)
    ensures StartsWith(c, Join(Lines(c), "\n"))
  {
    var j := Join(Lines(c), "\n");
    assert c == j + (if EndsWith(c, "\n") then "\n" else "");
    assert c[..|j|] == j;
  }

  /** A text that starts with the joined lines holds line `k` at its offset. */
  lemma LineOfPrefix(c: string, ls: seq<string>, k: nat, sp: Span)
    requires k < |ls| && StartsWith(c, Join(ls, "\n"))
    requires sp.offset == Widths(ls[..k]) && sp.len == |ls[k]|
    ensures sp.offset + sp.len <= |c| && c[sp.offset..sp.offset + sp.len] == ls[k]
  {
    JoinPrefix(ls, k);
    PrefixSlice(c, Join(ls, "\n"), Widths(ls[..k]), Widths(ls[..k]) + |ls[k]|);
  }

  lemma PrefixSlice(c: string, j: string, a: nat, b: nat)
    requires StartsWith(c, j) && a <= b <= |j|
    ensures c[a..b] == j[a..b]
  {
    assert |c[a..b]| == |j[a..b]|;
    forall i | 0 <= i < b - a ensures c[a..b][i] == j[a..b][i] {
      assert c[..|j|][a + i] == c[a + i];
    }
  }
}
