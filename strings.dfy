/**
 * The string toolkit the Rust code gets from `str`: trimming, prefix and
 * substring tests, ASCII case folding, splitting, joining, line splitting and
 * decimal integers. Strings are sequences of characters; whitespace and case
 * folding are restricted to ASCII.
 */
module Strings {
  import opened Wrappers

  /** `char::is_whitespace`, restricted to the ASCII whitespace characters. */
  predicate IsWhitespace(c: char) {
    c == ' ' || c == '\t' || c == '\n' || c == '\r' || c as int == 11 || c as int == 12
  }

  predicate IsDigit(c: char) { '0' <= c <= '9' }

  predicate IsAsciiAlpha(c: char) { 'a' <= c <= 'z' || 'A' <= c <= 'Z' }

  predicate IsAsciiAlnum(c: char) { IsAsciiAlpha(c) || IsDigit(c) }

  predicate AllWhitespace(s: string) { forall i :: 0 <= i < |s| ==> IsWhitespace(s[i]) }

  /** `str::trim_start`: drops the leading whitespace and nothing else. */
  function TrimStart(s: string): (r: string)
    ensures |r| <= |s| && r == s[|s| - |r|..]
    ensures r == [] || !IsWhitespace(r[0])
    ensures AllWhitespace(s[..|s| - |r|])
  {
    if s != [] && IsWhitespace(s[0]) then
      var r := TrimStart(s[1..]);
      WhitespaceBefore(s, r);
      r
    else s
  }

  /** A suffix of `s[1..]` after whitespace, behind a leading whitespace character, is a suffix of `s` after whitespace. */
  lemma WhitespaceBefore(s: string, r: string)
    requires s != [] && IsWhitespace(s[0]) && |r| <= |s| - 1
    requires r == s[1..][|s| - 1 - |r|..] && AllWhitespace(s[1..][..|s| - 1 - |r|])
    ensures r == s[|s| - |r|..] && AllWhitespace(s[..|s| - |r|])
  {
    var w := s[..|s| - |r|];
    forall i | 0 <= i < |w|
      ensures IsWhitespace(w[i])
    {
      if i > 0 {
        assert w[i] == s[1..][..|s| - 1 - |r|][i - 1];
      }
    }
  }

  /** `str::trim_end`: drops the trailing whitespace and nothing else. */
  function TrimEnd(s: string): (r: string)
    ensures |r| <= |s| && r == s[..|r|]
    ensures r == [] || !IsWhitespace(r[|r| - 1])
    ensures AllWhitespace(s[|r|..])
  {
    if s != [] && IsWhitespace(s[|s| - 1]) then TrimEnd(s[..|s| - 1]) else s
  }

  /** `str::trim`. */
  function Trim(s: string): string {
    TrimEnd(TrimStart(s))
  }

  /**
   * `Trim` written without postconditions, for use inside quantified
   * facts where the postconditions of `TrimStart` and `TrimEnd` would be
   * instantiated at every line; `StripIsTrim` equates the two.
   */
  function StripStart(s: string): string {
    if s != [] && IsWhitespace(s[0]) then StripStart(s[1..]) else s
  }

  function StripEnd(s: string): string {
    if s != [] && IsWhitespace(s[|s| - 1]) then StripEnd(s[..|s| - 1]) else s
  }

  function Strip(s: string): string {
    StripEnd(StripStart(s))
  }

  lemma {:induction false} StripStartIsTrimStart(s: string)
    ensures StripStart(s) == TrimStart(s)
  {
    if s != [] && IsWhitespace(s[0]) {
      StripStartIsTrimStart(s[1..]);
    }
  }

  lemma {:induction false} StripEndIsTrimEnd(s: string)
    ensures StripEnd(s) == TrimEnd(s)
  {
    if s != [] && IsWhitespace(s[|s| - 1]) {
      StripEndIsTrimEnd(s[..|s| - 1]);
    }
  }

  lemma StripIsTrim(s: string)
    ensures Strip(s) == Trim(s)
  {
    StripStartIsTrimStart(s);
    StripEndIsTrimEnd(TrimStart(s));
  }

  /** A string with no surrounding whitespace. */
  predicate IsTrimmed(s: string) {
    s == [] || (!IsWhitespace(s[0]) && !IsWhitespace(s[|s| - 1]))
  }

  lemma TrimmedIsFixed(s: string)
    requires IsTrimmed(s)
    ensures TrimStart(s) == s && TrimEnd(s) == s && Trim(s) == s
  {
  }

  lemma TrimIsTrimmed(s: string)
    ensures IsTrimmed(Trim(s))
    ensures AllWhitespace(s) <==> Trim(s) == []
  {
    var t := TrimStart(s);
    var r := TrimEnd(t);
    assert r != [] ==> r[0] == t[0];
    TrimEmptyIff(s);
  }

  /** Trimming twice is trimming once. */
  lemma TrimTwice(s: string)
    ensures Trim(Trim(s)) == Trim(s)
  {
    TrimIsTrimmed(s);
    TrimmedIsFixed(Trim(s));
  }

  lemma TrimEmptyIff(s: string)
    ensures AllWhitespace(s) <==> Trim(s) == []
  {
    var t := TrimStart(s);
    var k := |s| - |t|;
    assert forall j :: k <= j < |s| ==> s[j] == t[j - k];
    if Trim(s) == [] {
      assert AllWhitespace(t[|Trim(s)|..]);
      assert |t| == 0;
      assert s[..k] == s;
    }
  }

  /** What survives `TrimStart` survives `Trim`. */
  lemma TrimStartKept(s: string)
    requires TrimStart(s) != []
    ensures Trim(s) != []
  {
    var u := TrimStart(s);
    assert !IsWhitespace(u[0]);
  }

  /** Surrounding whitespace does not survive `Trim`. */
  lemma TrimPadded(a: string, s: string, b: string)
    requires AllWhitespace(a) && AllWhitespace(b) && IsTrimmed(s) && s != []
    ensures Trim(a + s + b) == s
  {
    assert (s + b)[0] == s[0];
    assert a + s + b == a + (s + b);
    TrimStartPadded(a, s + b);
    TrimEndPadded(s, b);
    assert Trim(a + s + b) == TrimEnd(s + b);
  }

  /** A trimmed text with one trailing space trims back to itself. */
  lemma TrimSpaced(title: string)
    requires title != [] && IsTrimmed(title)
    ensures Trim(title + " ") == title
  {
    TrimPadded([], title, " ");
    assert [] + title + " " == title + " ";
  }

  lemma {:induction false} TrimStartPadded(a: string, s: string)
    requires AllWhitespace(a) && (s == [] || !IsWhitespace(s[0]))
    ensures TrimStart(a + s) == s
  {
    if a != [] {
      assert (a + s)[1..] == a[1..] + s;
      TrimStartPadded(a[1..], s);
    }
  }

  lemma {:induction false} TrimEndPadded(s: string, b: string)
    requires AllWhitespace(b) && (s == [] || !IsWhitespace(s[|s| - 1]))
    ensures TrimEnd(s + b) == s
  {
    if b != [] {
      assert (s + b)[..|s + b| - 1] == s + b[..|b| - 1];
      TrimEndPadded(s, b[..|b| - 1]);
    }
  }

  /** `str::trim_start_matches(c)`: drops every leading `c`. */
  function TrimStartMatches(s: string, c: char): (r: string)
    ensures |r| <= |s|
    ensures r == [] || r[0] != c
    ensures forall i :: 0 <= i < |s| - |r| ==> s[i] == c
  {
    if s != [] && s[0] == c then TrimStartMatches(s[1..], c) else s
  }

  /** What `trim_start_matches` leaves is a suffix of its input. */
  lemma {:induction false} TrimStartMatchesSuffix(s: string, c: char)
    ensures TrimStartMatches(s, c) == s[|s| - |TrimStartMatches(s, c)|..]
  {
    if s != [] && s[0] == c {
      TrimStartMatchesSuffix(s[1..], c);
      assert s[1..][|s| - 1 - |TrimStartMatches(s[1..], c)|..] == s[|s| - |TrimStartMatches(s[1..], c)|..];
    }
  }

  /** `str::trim_end_matches(c)`: drops every trailing `c`. */
  function TrimEndMatches(s: string, c: char): (r: string)
    ensures |r| <= |s|
    ensures r == [] || r[|r| - 1] != c
    ensures forall i :: |r| <= i < |s| ==> s[i] == c
  {
    if s != [] && s[|s| - 1] == c then TrimEndMatches(s[..|s| - 1], c) else s
  }

  /** What `trim_end_matches` leaves is a prefix of its input. */
  lemma {:induction false} TrimEndMatchesPrefix(s: string, c: char)
    ensures TrimEndMatches(s, c) == s[..|TrimEndMatches(s, c)|]
  {
    if s != [] && s[|s| - 1] == c {
      TrimEndMatchesPrefix(s[..|s| - 1], c);
      assert s[..|s| - 1][..|TrimEndMatches(s[..|s| - 1], c)|] == s[..|TrimEndMatches(s[..|s| - 1], c)|];
    }
  }

  predicate StartsWith(s: string, p: string) {
    |p| <= |s| && s[..|p|] == p
  }

  lemma StartsWithFirst(s: string, c: char)
    requires s != [] && s[0] == c
    ensures StartsWith(s, [c])
  {
    assert s[..1] == [c];
  }

  predicate EndsWith(s: string, p: string) {
    |p| <= |s| && s[|s| - |p|..] == p
  }

  /** `p` occurs in `s` starting at index `i`. */
  predicate OccursAt(s: string, p: string, i: nat) {
    i + |p| <= |s| && s[i..i + |p|] == p
  }

  /** First occurrence of `p` in `s` at or after `i` (`str::find` on a suffix). */
  function IndexOfFrom(s: string, p: string, i: nat): (r: Option<nat>)
    requires i <= |s|
    decreases |s| - i
    ensures r.Some? ==> i <= r.value && OccursAt(s, p, r.value)
    ensures r.Some? ==> forall j :: i <= j < r.value ==> !OccursAt(s, p, j)
    ensures r.None? ==> forall j :: i <= j ==> !OccursAt(s, p, j)
  {
    if OccursAt(s, p, i) then Some(i)
    else if i == |s| then None
    else IndexOfFrom(s, p, i + 1)
  }

  /** `str::find`: the index of the first occurrence. */
  function IndexOf(s: string, p: string): Option<nat> {
    IndexOfFrom(s, p, 0)
  }

  /** `str::contains`. */
  predicate Contains(s: string, p: string) {
    IndexOf(s, p).Some?
  }

  lemma ContainsAt(s: string, p: string, i: nat)
    requires OccursAt(s, p, i)
    ensures Contains(s, p)
  {
  }

  lemma ContainsMiddle(a: string, p: string, b: string)
    ensures Contains(a + p + b, p)
  {
    assert (a + p + b)[|a|..|a| + |p|] == p;
    ContainsAt(a + p + b, p, |a|);
  }

  lemma ContainsPrefix(s: string, p: string)
    requires StartsWith(s, p)
    ensures Contains(s, p) && IndexOf(s, p) == Some(0)
  {
    assert OccursAt(s, p, 0);
  }

  /** An occurrence inside a part is an occurrence inside the whole. */
  lemma ContainsInfix(a: string, s: string, b: string, p: string)
    requires Contains(s, p)
    ensures Contains(a + s + b, p)
  {
    var i := IndexOf(s, p).value;
    assert (a + s + b)[|a| + i..|a| + i + |p|] == s[i..i + |p|];
    ContainsAt(a + s + b, p, |a| + i);
  }

  /** ASCII lower-casing of one character. */
  function LowerChar(c: char): (r: char)
    ensures IsAsciiAlpha(c) ==> 'a' <= r <= 'z'
    ensures !('A' <= c <= 'Z') ==> r == c
  {
    if 'A' <= c <= 'Z' then (c as int + 32) as char else c
  }

  /** `to_lowercase` / `to_ascii_lowercase`, on ASCII letters only. */
  function Lower(s: string): (r: string)
    ensures |r| == |s|
  {
    seq(|s|, i requires 0 <= i < |s| => LowerChar(s[i]))
  }

  /** Text without upper-case ASCII letters is its own lower case. */
  lemma LowerIsFixed(s: string)
    requires forall i :: 0 <= i < |s| ==> !('A' <= s[i] <= 'Z')
    ensures Lower(s) == s
  {
  }

  /** Lower-casing commutes with dropping a prefix. */
  lemma LowerDrop(s: string, k: nat)
    requires k <= |s|
    ensures Lower(s[k..]) == Lower(s)[k..]
  {
  }

  /** Lower-casing leaves whitespace alone and makes none. */
  lemma LowerCharWhitespace(c: char)
    ensures IsWhitespace(LowerChar(c)) <==> IsWhitespace(c)
  {
  }

  /** Text that lower-cases to trimmed text is trimmed itself. */
  lemma LowerOfTrimmed(r: string, w: string)
    requires Lower(r) == w && IsTrimmed(w)
    ensures IsTrimmed(r)
  {
    if r != [] {
      assert LowerChar(r[0]) == w[0];
      LowerCharWhitespace(r[0]);
      assert LowerChar(r[|r| - 1]) == w[|w| - 1];
      LowerCharWhitespace(r[|r| - 1]);
    }
  }

  lemma LowerAppend(a: string, b: string)
    ensures Lower(a + b) == Lower(a) + Lower(b)
  {
  }

  /** `eq_ignore_ascii_case`. */
  predicate EqIgnoreCase(a: string, b: string) {
    Lower(a) == Lower(b)
  }

  /** `n` copies of `c` (`str::repeat`). */
  function Repeat(c: char, n: nat): (r: string)
    ensures |r| == n && forall i :: 0 <= i < n ==> r[i] == c
  {
    seq(n, _ => c)
  }

  /** The length of the run of `c` that starts `s`. */
  function CountLeading(s: string, c: char): (n: nat)
    ensures n <= |s| && s[..n] == Repeat(c, n)
    ensures n == |s| || s[n] != c
  {
    if s != [] && s[0] == c then 1 + CountLeading(s[1..], c) else 0
  }

  lemma {:induction false} CountLeadingRepeat(c: char, n: nat, rest: string)
    requires rest == [] || rest[0] != c
    ensures CountLeading(Repeat(c, n) + rest, c) == n
  {
    if n > 0 {
      assert (Repeat(c, n) + rest)[1..] == Repeat(c, n - 1) + rest;
      CountLeadingRepeat(c, n - 1, rest);
    }
  }

  /** The strings of `parts`, separated by `sep` (`[..].join(sep)`). */
  function Join(parts: seq<string>, sep: string): string {
    if |parts| == 0 then []
    else if |parts| == 1 then parts[0]
    else parts[0] + sep + Join(parts[1..], sep)
  }

  lemma {:induction false} JoinAppend(parts: seq<string>, x: string, sep: string)
    requires parts != []
    ensures Join(parts + [x], sep) == Join(parts, sep) + sep + x
  {
    if |parts| > 1 {
      assert (parts + [x])[1..] == parts[1..] + [x];
      JoinAppend(parts[1..], x, sep);
    } else {
      assert (parts + [x])[1..] == [x];
    }
  }

  /** Index of the first `c` in `s`. */
  function FindChar(s: string, c: char): (r: Option<nat>)
    ensures r.Some? ==> r.value < |s| && s[r.value] == c && c !in s[..r.value]
    ensures r.None? <==> c !in s
  {
    if s == [] then None
    else if s[0] == c then Some(0)
    else match FindChar(s[1..], c)
      case None => None
      case Some(i) => Some(i + 1)
  }

  /** `str::split(c)`: never empty, and `Join` inverts it. */
  function Split(s: string, c: char): (r: seq<string>)
    decreases |s|
    ensures |r| >= 1
    ensures forall k :: 0 <= k < |r| ==> c !in r[k]
    ensures Join(r, [c]) == s
  {
    match FindChar(s, c)
      case None => [s]
      case Some(i) =>
        var rest := Split(s[i + 1..], c);
        assert s == s[..i] + [c] + s[i + 1..];
        [s[..i]] + rest
  }

  /** Splitting a join of separator-free pieces gives back the pieces. */
  lemma {:induction false} SplitJoin(parts: seq<string>, c: char)
    requires |parts| >= 1
    requires forall k :: 0 <= k < |parts| ==> c !in parts[k]
    ensures Split(Join(parts, [c]), c) == parts
  {
    if |parts| > 1 {
      var s := Join(parts, [c]);
      assert s == parts[0] + [c] + Join(parts[1..], [c]);
      assert s[..|parts[0]|] == parts[0];
      assert FindChar(s, c) == Some(|parts[0]|) by {
        FindCharAfter(parts[0], c, Join(parts[1..], [c]));
      }
      assert s[|parts[0]| + 1..] == Join(parts[1..], [c]);
      SplitJoin(parts[1..], c);
    }
  }

  lemma {:induction false} FindCharAfter(a: string, c: char, b: string)
    requires c !in a
    ensures FindChar(a + [c] + b, c) == Some(|a|)
  {
    if a != [] {
      assert (a + [c] + b)[1..] == a[1..] + [c] + b;
      FindCharAfter(a[1..], c, b);
    }
  }

  /**
   * `str::lines` on '\n' only: the pieces between line breaks, with the
   * empty piece after a final line break dropped. The empty string has no
   * lines.
   */
  function Lines(s: string): (r: seq<string>)
    ensures forall k :: 0 <= k < |r| ==> '\n' !in r[k]
    ensures s != [] ==> |r| >= 1
    ensures Join(r, "\n") + (if EndsWith(s, "\n") then "\n" else "") == s
  {
    if s == [] then []
    else
      var p := Split(s, '\n');
      if |p| >= 2 && p[|p| - 1] == [] then
        var q := p[..|p| - 1];
        assert p == q + [[]];
        JoinAppend(q, [], "\n");
        q
      else
        LastPieceEmpty(p, s);
        p
  }

  /** A join ends in a line break only when its last piece is empty. */
  lemma LastPieceEmpty(p: seq<string>, s: string)
    requires |p| >= 1 && Join(p, "\n") == s && s != []
    requires forall k :: 0 <= k < |p| ==> '\n' !in p[k]
    ensures EndsWith(s, "\n") <==> p[|p| - 1] == [] && |p| >= 2
  {
    JoinLast(p, "\n");
    LastChar(s, p[|p| - 1]);
    if |p| >= 2 {
      JoinLastSep(p, "\n");
    }
  }

  lemma LastChar(s: string, x: string)
    requires EndsWith(s, x)
    ensures x == [] || (s != [] && x[|x| - 1] == s[|s| - 1])
  {
  }

  lemma {:induction false} JoinLastSep(p: seq<string>, sep: string)
    requires |p| >= 2
    ensures EndsWith(Join(p, sep), sep + p[|p| - 1])
  {
    if |p| > 2 {
      JoinLastSep(p[1..], sep);
    }
  }

  lemma {:induction false} JoinLast(p: seq<string>, sep: string)
    requires |p| >= 1
    ensures EndsWith(Join(p, sep), p[|p| - 1])
  {
    if |p| > 1 {
      JoinLast(p[1..], sep);
    }
  }

  /** Each of `ls` mapped by `f`. */
  function MapSeq(ls: seq<string>, f: string -> string): (r: seq<string>)
    ensures |r| == |ls| && forall i :: 0 <= i < |ls| ==> r[i] == f(ls[i])
  {
    seq(|ls|, i requires 0 <= i < |ls| => f(ls[i]))
  }

  /** `s.lines().map(f).collect::<Vec<_>>().join("\n")`. */
  function MapLines(s: string, f: string -> string): string {
    Join(MapSeq(Lines(s), f), "\n")
  }

  /**
   * When `f` adds no line break, the result read back line by line is the
   * input's lines, each mapped by `f`: one output line per input line.
   */
  lemma MapLinesSplit(s: string, f: string -> string)
    requires s != []
    requires forall k :: 0 <= k < |Lines(s)| ==> '\n' !in f(Lines(s)[k])
    ensures Split(MapLines(s, f), '\n') == MapSeq(Lines(s), f)
    ensures |Split(MapLines(s, f), '\n')| == |Lines(s)|
  {
    SplitJoin(MapSeq(Lines(s), f), '\n');
  }

  /** `str::strip_prefix`. */
  function StripPrefix(s: string, p: string): (r: Option<string>)
    ensures r.Some? <==> StartsWith(s, p)
    ensures r.Some? ==> s == p + r.value
  {
    if StartsWith(s, p) then Some(s[|p|..]) else None
  }

  /** A prefix put in front of a text strips off again. */
  lemma StripPrefixConcat(p: string, s: string)
    ensures StripPrefix(p + s, p) == Some(s)
  {
    assert (p + s)[..|p|] == p;
    assert (p + s)[|p|..] == s;
  }

  /** Trailing whitespace after a non-whitespace character only trims what follows it. */
  lemma {:induction false} TrimEndAfter(a: string, b: string)
    requires a != [] && !IsWhitespace(a[|a| - 1])
    ensures TrimEnd(a + b) == a + TrimEnd(b)
  {
    if b != [] {
      assert (a + b)[..|a + b| - 1] == a + b[..|b| - 1];
      TrimEndAfter(a, b[..|b| - 1]);
    } else {
      assert a + b == a;
    }
  }

  /** A substring of the trimmed text holds no character the text lacks. */
  lemma TrimNoChar(s: string, c: char)
    requires c !in s
    ensures c !in Trim(s)
  {
    var t := TrimStart(s);
    assert c !in t;
  }

  /** A text ending in a line break: its lines are the pieces before the last, empty one. */
  lemma LinesBeforeBreak(s: string, p: seq<string>)
    requires s != [] && p == Split(s, '\n') && |p| >= 2 && p[|p| - 1] == []
    ensures Lines(s) == p[..|p| - 1]
  {
  }

  /** The lines of a join of line-break-free lines whose last line is not empty. */
  lemma LinesJoin(ls: seq<string>)
    requires forall k :: 0 <= k < |ls| ==> '\n' !in ls[k]
    requires ls != [] ==> ls[|ls| - 1] != []
    ensures Lines(Join(ls, "\n")) == ls
  {
    if ls != [] {
      SplitJoin(ls, '\n');
      assert Join(ls, "\n") != [] by { JoinLast(ls, "\n"); }
    }
  }

  /** The value of a string of decimal digits. */
  function DigitsValue(s: string): nat
    requires forall i :: 0 <= i < |s| ==> IsDigit(s[i])
  {
    if s == [] then 0
    else
      assert IsDigit(s[|s| - 1]);
      10 * DigitsValue(s[..|s| - 1]) + (s[|s| - 1] as int - '0' as int)
  }

  predicate AllDigits(s: string) {
    forall i :: 0 <= i < |s| ==> IsDigit(s[i])
  }

  const U64_LIMIT: nat := 0x1_0000_0000_0000_0000

  /**
   * `str::parse::<u64>`: an optional '+' and at least one decimal digit,
   * nothing else, with a value that fits in 64 bits.
   */
  function ParseU64(s: string): (r: Option<nat>)
    ensures r.Some? ==> r.value < U64_LIMIT
    ensures r.Some? ==> s != [] && s != "+"
  {
    var d := if StartsWith(s, "+") then s[1..] else s;
    if d != [] && AllDigits(d) && DigitsValue(d) < U64_LIMIT then Some(DigitsValue(d)) else None
  }

  function DigitChar(d: nat): (c: char)
    requires d < 10
    ensures IsDigit(c) && c as int - '0' as int == d
  {
    ('0' as int + d) as char
  }

  /** The decimal form of `n` without leading zeros (`to_string`). */
  function NatToString(n: nat): (r: string)
    ensures r != [] && AllDigits(r) && DigitsValue(r) == n
    ensures r[0] != '+'
  {
    if n < 10 then [DigitChar(n)]
    else
      var r := NatToString(n / 10) + [DigitChar(n % 10)];
      assert r[..|r| - 1] == NatToString(n / 10);
      r
  }

  /** `n.to_string().parse::<u64>()` gives `n` back. */
  lemma ParseNatToString(n: nat)
    requires n < U64_LIMIT
    ensures ParseU64(NatToString(n)) == Some(n)
  {
    var s := NatToString(n);
    assert s[..1][0] == s[0];
    assert !StartsWith(s, "+");
  }

  /** The longest prefix of decimal digits. */
  function LeadingDigits(s: string): (r: string)
    ensures StartsWith(s, r) && AllDigits(r)
    ensures |r| == |s| || !IsDigit(s[|r|])
  {
    if s != [] && IsDigit(s[0]) then [s[0]] + LeadingDigits(s[1..]) else []
  }

  /** A non-empty sequence is its front followed by its last element. */
  lemma SnocSplit<T>(s: seq<T>)
    requires s != []
    ensures s == s[..|s| - 1] + [s[|s| - 1]]
  {
  }

  /** Taking one more element appends it. */
  lemma TakeSnoc<T>(s: seq<T>, i: nat)
    requires i < |s|
    ensures s[..i + 1] == s[..i] + [s[i]]
  {
  }

  /** The front of a sequence with one element appended is the sequence. */
  lemma FrontOfSnoc<T>(s: seq<T>, x: T)
    ensures (s + [x])[..|s|] == s
  {
  }

  /** Dropping the first element commutes with appending one. */
  lemma TailOfSnoc<T>(s: seq<T>, x: T)
    requires s != []
    ensures (s + [x])[1..] == s[1..] + [x]
  {
  }

  /** A sequence is its prefix up to `i` followed by the rest. */
  lemma SliceSplit<T>(s: seq<T>, i: nat)
    requires i <= |s|
    ensures s[..i] + s[i..] == s
  {
  }

  /** An occurrence of `p` at `i` is a prefix of the suffix from `i`. */
  lemma OccursStarts(s: string, p: string, i: nat)
    requires OccursAt(s, p, i)
    ensures StartsWith(s[i..], p)
  {
    assert s[i..][..|p|] == s[i..i + |p|];
  }

  /** A suffix that is no longer than what remains from `i` is a suffix of that remainder. */
  lemma EndsWithDrop(s: string, p: string, i: nat)
    requires EndsWith(s, p) && i + |p| <= |s|
    ensures EndsWith(s[i..], p)
  {
    assert s[i..][|s[i..]| - |p|..] == s[|s| - |p|..];
  }

  /** Dropping one more element after dropping `i`. */
  lemma DropDrop<T>(s: seq<T>, i: nat)
    requires i < |s|
    ensures s[i..][1..] == s[i + 1..]
  {
  }

  /** Replacing element `i` keeps the length and the rest, and ends the prefix up to `i + 1`. */
  lemma UpdateSplit<T>(s: seq<T>, i: nat, x: T)
    requires i < |s|
    ensures |s[i := x]| == |s| && s[i := x][..i + 1] == s[..i] + [x] && s[i := x][i + 1..] == s[i + 1..]
  {
  }

  /** A text that differs from `p` at index `i` does not start with `p`. */
  lemma DiffersAt(s: string, p: string, i: nat)
    requires i < |s| && i < |p| && s[i] != p[i]
    ensures !StartsWith(s, p)
  {
    if |p| <= |s| {
      assert s[..|p|][i] == s[i];
    }
  }

  /** A prefix of `p` is a prefix of `p` followed by anything. */
  lemma PrefixGrows<T>(h: seq<T>, p: seq<T>, c: seq<T>)
    requires h <= p
    ensures h <= p + c
  {
    assert (p + c)[..|h|] == p[..|h|];
  }

  /** The two halves of a concatenation are recovered by slicing at the seam. */
  lemma JoinedParts<T>(a: seq<T>, b: seq<T>)
    ensures (a + b)[..|a|] == a && (a + b)[|a|..] == b
  {
  }

  /** Concatenation is associative. */
  lemma AppendAssoc<T>(a: seq<T>, b: seq<T>, c: seq<T>)
    ensures a + (b + c) == a + b + c
  {
  }

  /** Appending three sequences one by one is appending their concatenation. */
  lemma AppendAssoc3<T>(p: seq<T>, a: seq<T>, b: seq<T>, c: seq<T>)
    ensures p + a + b + c == p + (a + b + c)
  {
  }
}
