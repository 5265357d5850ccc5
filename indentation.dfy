/**
 * `normalize_issue_indentation`, which src/issue/util.rs, src/open/util.rs
 * and src/blocker_rewrite.rs define word for word: the space width of one
 * indent level is detected from the content, and every line's leading run
 * of tabs and spaces is rewritten as tabs followed by fewer spaces than one
 * level.
 */
module Indentation {
  import opened Wrappers
  import opened Strings

  predicate IsIndentChar(c: char) { c == '\t' || c == ' ' }

  /** The length of the leading run of tabs and spaces. */
  function IndentLen(s: string): (n: nat)
    ensures n <= |s|
    ensures forall j :: 0 <= j < n ==> IsIndentChar(s[j])
    ensures n == |s| || !IsIndentChar(s[n])
  {
    if s != [] && IsIndentChar(s[0]) then 1 + IndentLen(s[1..]) else 0
  }

  /** The number of occurrences of `c` in `s`. */
  function Count(s: string, c: char): (n: nat)
    ensures n <= |s|
  {
    if s == [] then 0 else Count(s[..|s| - 1], c) + (if s[|s| - 1] == c then 1 else 0)
  }

  /** Counting one more character of `s`. */
  lemma CountStep(s: string, i: nat, c: char)
    requires i < |s|
    ensures Count(s[..i + 1], c) == Count(s[..i], c) + (if s[i] == c then 1 else 0)
  {
    assert s[..i + 1][..i] == s[..i];
  }

  /**
   * The width a line proposes for one indent level: its leading spaces,
   * capped at 8, when it starts with a space, is not blank and has at
   * least two of them.
   */
  function WidthOf(line: string): (r: Option<nat>)
    ensures r.Some? ==> 2 <= r.value <= 8
  {
    if StartsWith(line, " ") && Trim(line) != [] then
      var spaces := CountLeading(line, ' ');
      if spaces >= 2 then Some(if spaces < 8 then spaces else 8) else None
    else None
  }

  /** The first width a line proposes, or 4 when none does. */
  function DetectWidth(ls: seq<string>): (w: nat)
    ensures 2 <= w <= 8
    ensures (forall i :: 0 <= i < |ls| ==> WidthOf(ls[i]).None?) ==> w == 4
  {
    if ls == [] then 4
    else
      match WidthOf(ls[0])
        case Some(w) => w
        case None =>
          assert forall i :: 1 <= i < |ls| ==> ls[1..][i - 1] == ls[i];
          DetectWidth(ls[1..])
  }

  /** The width is the one proposed by the first line that proposes one. */
  lemma {:induction false} DetectWidthFirst(ls: seq<string>, i: nat)
    requires i < |ls| && WidthOf(ls[i]).Some?
    requires forall j :: 0 <= j < i ==> WidthOf(ls[j]).None?
    ensures DetectWidth(ls) == WidthOf(ls[i]).value
  {
    if i > 0 {
      var rest := ls[1..];
      assert WidthOf(ls[0]).None?;
      assert DetectWidth(ls) == DetectWidth(rest);
      forall j | 0 <= j < i - 1 ensures WidthOf(rest[j]).None? {
        assert rest[j] == ls[j + 1];
      }
      assert rest[i - 1] == ls[i];
      DetectWidthFirst(rest, i - 1);
    }
  }

  /** One line with its indentation rewritten for indent levels of `width` spaces. */
  function NormalizedLine(line: string, width: nat): string
    requires width >= 1
  {
    if line == [] then []
    else
      var k := IndentLen(line);
      Levels(Count(line[..k], '\t'), Count(line[..k], ' '), width) + line[k..]
  }

  /** The indentation for `tabs` tabs and `spaces` spaces: whole levels of spaces become tabs. */
  function Levels(tabs: nat, spaces: nat, width: nat): string
    requires width >= 1
  {
    Repeat('\t', tabs + spaces / width) + Repeat(' ', spaces % width)
  }

  /** The per-line rewrite, scanning the indentation one character at a time. */
  method NormalizeLine(line: string, width: nat) returns (r: string)
    requires width >= 1
    ensures r == NormalizedLine(line, width)
  {
    if line == [] {
      return [];
    }
    var i := 0;
    var tabs := 0;
    var spaces := 0;
    while i < |line| && IsIndentChar(line[i])
      invariant 0 <= i <= IndentLen(line)
      invariant tabs == Count(line[..i], '\t') && spaces == Count(line[..i], ' ')
    {
      CountStep(line, i, '\t');
      CountStep(line, i, ' ');
      if line[i] == '\t' {
        tabs := tabs + 1;
      } else {
        spaces := spaces + 1;
      }
      i := i + 1;
    }
    assert i == IndentLen(line);
    r := Levels(tabs, spaces, width) + line[i..];
  }

  lemma {:induction false} CountAppend(a: string, b: string, c: char)
    ensures Count(a + b, c) == Count(a, c) + Count(b, c)
  {
    if b != [] {
      assert (a + b)[..|a + b| - 1] == a + b[..|b| - 1];
      CountAppend(a, b[..|b| - 1], c);
    } else {
      assert a + b == a;
    }
  }

  lemma {:induction false} CountRepeat(c: char, n: nat, d: char)
    ensures Count(Repeat(c, n), d) == if c == d then n else 0
  {
    if n > 0 {
      assert Repeat(c, n)[..n - 1] == Repeat(c, n - 1);
      CountRepeat(c, n - 1, d);
    }
  }

  /** The indentation run of `p + x` is `p` when `p` is all tabs and spaces and `x` does not continue it. */
  lemma {:induction false} IndentLenOf(p: string, x: string)
    requires forall j :: 0 <= j < |p| ==> IsIndentChar(p[j])
    requires x == [] || !IsIndentChar(x[0])
    ensures IndentLen(p + x) == |p|
  {
    if p != [] {
      assert (p + x)[1..] == p[1..] + x;
      IndentLenOf(p[1..], x);
    }
  }

  /** The indentation of a line measured in columns, a tab counting `width` spaces. */
  function Depth(line: string, width: nat): nat {
    var k := IndentLen(line);
    Count(line[..k], '\t') * width + Count(line[..k], ' ')
  }

  /** The indentation of a normalised line is the new tabs, then the remaining spaces. */
  lemma NormalizedLineShape(line: string, width: nat)
    requires width >= 1 && line != []
    ensures var k := IndentLen(line);
      var tabs := Count(line[..k], '\t');
      var spaces := Count(line[..k], ' ');
      var r := NormalizedLine(line, width);
      && r[..IndentLen(r)] == Levels(tabs, spaces, width)
      && r[IndentLen(r)..] == line[k..]
  {
    var k := IndentLen(line);
    var p := Levels(Count(line[..k], '\t'), Count(line[..k], ' '), width);
    IndentLenOf(p, line[k..]);
  }

  /** How many tabs and spaces `Repeat('\t', t) + Repeat(' ', s)` holds. */
  lemma CountRun(t: nat, s: nat)
    ensures Count(Repeat('\t', t) + Repeat(' ', s), '\t') == t
    ensures Count(Repeat('\t', t) + Repeat(' ', s), ' ') == s
  {
    CountAppend(Repeat('\t', t), Repeat(' ', s), '\t');
    CountAppend(Repeat('\t', t), Repeat(' ', s), ' ');
    CountRepeat('\t', t, '\t');
    CountRepeat('\t', t, ' ');
    CountRepeat(' ', s, '\t');
    CountRepeat(' ', s, ' ');
  }

  /** Moving whole levels of spaces into tabs keeps the column count. */
  lemma LevelArith(tabs: nat, spaces: nat, width: nat)
    requires width >= 1
    ensures (tabs + spaces / width) * width + spaces % width == tabs * width + spaces
  {
    assert (tabs + spaces / width) * width == tabs * width + (spaces / width) * width;
  }

  /** In a run of tabs then spaces, no tab follows a space. */
  lemma RunOrdered(t: nat, s: nat)
    ensures var p := Repeat('\t', t) + Repeat(' ', s);
      forall j, j' :: 0 <= j < j' < |p| && p[j] == ' ' ==> p[j'] == ' '
  {
  }

  /**
   * A normalised line keeps the text after its indentation and the depth of
   * its indentation, and holds fewer spaces than one level after its tabs.
   */
  lemma NormalizedLineProps(line: string, width: nat)
    requires width >= 1
    ensures var r := NormalizedLine(line, width);
      && (line == [] <==> r == [])
      && r[IndentLen(r)..] == line[IndentLen(line)..]
      && Depth(r, width) == Depth(line, width)
      && Count(r[..IndentLen(r)], ' ') < width
      && (forall j, j' :: 0 <= j < j' < IndentLen(r) && r[j] == ' ' ==> r[j'] == ' ')
  {
    if line != [] {
      var k := IndentLen(line);
      var tabs := Count(line[..k], '\t');
      var spaces := Count(line[..k], ' ');
      NormalizedLineShape(line, width);
      LevelsProps(tabs, spaces, width);
      if k == |line| {
        CountIndent(line[..k]);
        LevelsNonEmpty(tabs, spaces, width);
      }
    }
  }

  /** A run of tabs and spaces is as long as its tabs and spaces together. */
  lemma {:induction false} CountIndent(s: string)
    requires forall j :: 0 <= j < |s| ==> IsIndentChar(s[j])
    ensures Count(s, '\t') + Count(s, ' ') == |s|
  {
    if s != [] {
      CountIndent(s[..|s| - 1]);
    }
  }

  /** Some indentation is rewritten as some indentation. */
  lemma LevelsNonEmpty(tabs: nat, spaces: nat, width: nat)
    requires width >= 1 && tabs + spaces > 0
    ensures Levels(tabs, spaces, width) != []
  {
  }

  /** The rewritten indentation keeps the column count, holds fewer spaces than a level, and puts its tabs first. */
  lemma LevelsProps(tabs: nat, spaces: nat, width: nat)
    requires width >= 1
    ensures var p := Levels(tabs, spaces, width);
      && (tabs + spaces / width) * width + spaces % width == tabs * width + spaces
      && Count(p, '\t') == tabs + spaces / width && Count(p, ' ') == spaces % width && Count(p, ' ') < width
      && (forall j, j' :: 0 <= j < j' < |p| && p[j] == ' ' ==> p[j'] == ' ')
  {
    CountRun(tabs + spaces / width, spaces % width);
    LevelArith(tabs, spaces, width);
    RunOrdered(tabs + spaces / width, spaces % width);
  }

  /** Normalising a line a second time with the same width changes nothing. */
  lemma NormalizedLineIdempotent(line: string, width: nat)
    requires width >= 1
    ensures NormalizedLine(NormalizedLine(line, width), width) == NormalizedLine(line, width)
  {
    if line != [] {
      var k := IndentLen(line);
      var t := Count(line[..k], '\t') + Count(line[..k], ' ') / width;
      var sp := Count(line[..k], ' ') % width;
      var r := NormalizedLine(line, width);
      NormalizedLineShape(line, width);
      var p := r[..IndentLen(r)];
      assert p == Repeat('\t', t) + Repeat(' ', sp);
      CountRun(t, sp);
      DivUnique(sp, width, 0, sp);
      assert r == p + r[IndentLen(r)..];
    }
  }

  lemma MulAtLeast(d: int, w: int)
    requires d >= 1 && w >= 1
    ensures d * w >= w
  {
    assert d * w == (d - 1) * w + w;
  }

  /** Euclidean division is determined by quotient and remainder. */
  lemma DivUnique(a: int, w: int, q: int, r: int)
    requires w >= 1 && a == q * w + r && 0 <= r < w
    ensures a / w == q && a % w == r
  {
    var q' := a / w;
    var r' := a % w;
    assert (q - q') * w == r' - r;
    if q > q' {
      MulAtLeast(q - q', w);
    } else if q < q' {
      MulAtLeast(q' - q, w);
    }
  }

  lemma DivExact(n: nat, width: nat)
    requires width >= 1
    ensures (n * width) / width == n && (n * width) % width == 0
  {
    DivUnique(n * width, width, n, 0);
  }

  /** `n` full levels of spaces become `n` tabs. */
  lemma FullLevels(n: nat, width: nat, text: string)
    requires width >= 1 && text != [] && !IsIndentChar(text[0])
    ensures NormalizedLine(Repeat(' ', n * width) + text, width) == Repeat('\t', n) + text
  {
    var m := n * width;
    var line := Repeat(' ', m) + text;
    IndentLenOf(Repeat(' ', m), text);
    assert line[..m] == Repeat(' ', m);
    CountRepeat(' ', m, '\t');
    CountRepeat(' ', m, ' ');
    assert m / width == n && m % width == 0 by { DivExact(n, width); }
  }

  /** Every line of `ls` normalised. */
  function NormalizedLines(ls: seq<string>, width: nat): (r: seq<string>)
    requires width >= 1
    ensures |r| == |ls|
  {
    seq(|ls|, i requires 0 <= i < |ls| => NormalizedLine(ls[i], width))
  }

  /** A normalised line holds a newline only where the line did. */
  lemma NormalizedLineNoNewline(line: string, width: nat)
    requires width >= 1 && '\n' !in line
    ensures '\n' !in NormalizedLine(line, width)
  {
    if line != [] {
      var k := IndentLen(line);
      var r := NormalizedLine(line, width);
      var p := Repeat('\t', Count(line[..k], '\t') + Count(line[..k], ' ') / width) + Repeat(' ', Count(line[..k], ' ') % width);
      assert r == p + line[k..];
      assert '\n' !in p;
      assert '\n' !in line[k..];
    }
  }

  /**
   * `normalize_issue_indentation`. The output has one line per line of the
   * input, and its `i`-th line is the input's `i`-th line normalised.
   */
  function Normalized(content: string): (r: string)
    ensures content != [] ==> var ls := Lines(content);
      && Split(r, '\n') == NormalizedLines(ls, DetectWidth(ls))
      && |Split(r, '\n')| == |ls|
  {
    var ls := Lines(content);
    NormalizedLineCount(content);
    Join(NormalizedLines(ls, DetectWidth(ls)), "\n")
  }

  lemma NormalizedLineCount(content: string)
    ensures content != [] ==> var ls := Lines(content);
      && Split(Join(NormalizedLines(ls, DetectWidth(ls)), "\n"), '\n') == NormalizedLines(ls, DetectWidth(ls))
      && |Split(Join(NormalizedLines(ls, DetectWidth(ls)), "\n"), '\n')| == |ls|
  {
    if content == [] {
      return;
    }
    var ls := Lines(content);
    var out := NormalizedLines(ls, DetectWidth(ls));
    forall k | 0 <= k < |out| ensures '\n' !in out[k] {
      NormalizedLineNoNewline(ls[k], DetectWidth(ls));
    }
    SplitJoin(out, '\n');
  }

  /** Every line of `ls` normalised, one after the other. */
  method NormalizeAll(ls: seq<string>, width: nat) returns (out: seq<string>)
    requires width >= 1
    ensures out == NormalizedLines(ls, width)
  {
    out := [];
    for i := 0 to |ls|
      invariant |out| == i
      invariant forall j :: 0 <= j < i ==> out[j] == NormalizedLine(ls[j], width)
    {
      var line := NormalizeLine(ls[i], width);
      out := out + [line];
    }
  }

  /** `normalize_issue_indentation`, line by line. */
  method NormalizeIssueIndentation(content: string) returns (r: string)
    ensures r == Normalized(content)
  {
    var ls := Lines(content);
    var out := NormalizeAll(ls, DetectWidth(ls));
    r := Join(out, "\n");
  }
}
