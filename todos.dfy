/**
 * Task files of src/todos.rs: the metadata read from a task's file name,
 * the priority that orders tasks, the section a task is added to, and the
 * tasks shown first once sorted. The file system, pandoc and the viewer
 * are not part of this model; whether a section exists is a parameter.
 */
module Todos {
  import opened Wrappers
  import opened Strings

  const DASH: char := '-'
  const MD_EXT: string := ".md"

  /** A decimal digit's value; a one-character `u8` parse yields nothing else. */
  type Digit = d: nat | d <= 9

  /**
   * What a file name says about a task: just its name, or the importance,
   * estimated hours, difficulty density and name of a sprint task.
   */
  datatype TaskMeta =
    | Simple(name: string)
    | Full(importance: Digit, estHours: real, difficultyDensity: Digit, name: string)

  datatype Task = Task(meta: TaskMeta, path: string)

  datatype MetaError = FormattingError(fileName: string)

  /** `trim_end_matches(".md")`: drops every trailing ".md". */
  function TrimMdSuffixes(s: string): (r: string)
    ensures |r| <= |s| && r == s[..|r|]
    ensures !EndsWith(r, MD_EXT)
    decreases |s|
  {
    if EndsWith(s, MD_EXT) then TrimMdSuffixes(s[..|s| - |MD_EXT|]) else s
  }

  /** `parse_simple`: the file name without its ".md" suffixes. */
  function ParseSimple(fileName: string): (r: TaskMeta)
    ensures r.Simple? && !EndsWith(r.name, MD_EXT)
  {
    Simple(TrimMdSuffixes(fileName))
  }

  /** A name that does not end in ".md" is kept as it is, and one ".md" added to it is removed. */
  lemma ParseSimpleStripsExtension(name: string)
    requires !EndsWith(name, MD_EXT)
    ensures ParseSimple(name) == Simple(name)
    ensures ParseSimple(name + MD_EXT) == Simple(name)
  {
    var f := name + MD_EXT;
    assert f[|f| - |MD_EXT|..] == MD_EXT;
    assert f[..|f| - |MD_EXT|] == name;
  }

  /** The value of a digit character. */
  function DigitOf(c: char): (d: Digit)
    requires IsDigit(c)
  {
    c as int - '0' as int
  }

  /** `str::parse::<u8>` of a one-character text: only a digit parses. */
  function ParseDigit(s: string): (r: Option<Digit>)
    requires |s| == 1
    ensures r.Some? <==> IsDigit(s[0])
  {
    if IsDigit(s[0]) then Some(DigitOf(s[0])) else None
  }

  /**
   * `try_parse_full` as written: at least four dash-separated parts, the
   * first and third one character long and digits, the second a number of
   * hours (`parseHours` stands for the float parse); the name is built
   * from the third part on.
   */
  function TryParseFullAsWritten(fileName: string, parseHours: string -> Option<real>): (r: Result<TaskMeta, MetaError>)
    ensures r.Ok? ==> r.value.Full?
    ensures r.Err? ==> r.error == FormattingError(fileName)
  {
    var split := Split(fileName, DASH);
    if |split| < 4 || |split[0]| != 1 || |split[2]| != 1 then Err(FormattingError(fileName))
    else match (ParseDigit(split[0]), parseHours(split[1]), ParseDigit(split[2]))
      case (Some(i), Some(h), Some(d)) => Ok(Full(i, h, d, TrimMdSuffixes(Join(split[2..], " "))))
      case _ => Err(FormattingError(fileName))
  }

  /** `try_parse_full` with the name built from the words after the difficulty density. */
  function TryParseFull(fileName: string, parseHours: string -> Option<real>): (r: Result<TaskMeta, MetaError>)
    ensures r.Ok? ==> r.value.Full?
    ensures r.Err? ==> r.error == FormattingError(fileName)
  {
    var split := Split(fileName, DASH);
    if |split| < 4 || |split[0]| != 1 || |split[2]| != 1 then Err(FormattingError(fileName))
    else match (ParseDigit(split[0]), parseHours(split[1]), ParseDigit(split[2]))
      case (Some(i), Some(h), Some(d)) => Ok(Full(i, h, d, TrimMdSuffixes(Join(split[3..], " "))))
      case _ => Err(FormattingError(fileName))
  }

  /** Both parsers refuse a name with fewer than four parts or with a first or third part that is not one digit. */
  lemma MalformedRefused(fileName: string, parseHours: string -> Option<real>)
    requires var split := Split(fileName, DASH);
             |split| < 4 || |split[0]| != 1 || |split[2]| != 1 || !IsDigit(split[0][0]) || !IsDigit(split[2][0])
    ensures TryParseFull(fileName, parseHours) == Err(FormattingError(fileName))
    ensures TryParseFullAsWritten(fileName, parseHours) == Err(FormattingError(fileName))
  {
  }

  /**
   * The file name a sprint task is stored under: its fields and its words
   * joined by dashes, then ".md". It opens with the importance digit and a
   * dash.
   */
  function FullFileName(importance: Digit, hours: string, density: Digit, words: seq<string>): (r: string)
    ensures |r| >= 2 + |MD_EXT| && r[0] == ('0' as int + importance) as char && r[1] == DASH
    ensures EndsWith(r, MD_EXT)
  {
    Join([[('0' as int + importance) as char], hours, [('0' as int + density) as char]] + words, [DASH]) + MD_EXT
  }

  /** The digit character of a digit reads back as that digit. */
  lemma DigitRoundTrip(d: Digit)
    ensures IsDigit(('0' as int + d) as char) && DigitOf(('0' as int + d) as char) == d
  {
  }

  /** Splitting a sprint task's file name gives back its fields and its words. */
  lemma {:induction false} FullFileNameSplit(importance: Digit, hours: string, density: Digit, words: seq<string>)
    requires DASH !in hours && words != [] && forall k :: 0 <= k < |words| ==> DASH !in words[k]
    ensures var split := Split(FullFileName(importance, hours, density, words), DASH);
            |split| == 3 + |words| &&
            split[0] == [('0' as int + importance) as char] && split[1] == hours &&
            split[2] == [('0' as int + density) as char] &&
            Join(split[3..], " ") == Join(words, " ") + MD_EXT
  {
    var head := [[('0' as int + importance) as char], hours, [('0' as int + density) as char]];
    var parts := head + words;
    forall k | 0 <= k < |parts|
      ensures DASH !in parts[k]
    {
      if k >= 3 {
        assert parts[k] == words[k - 3];
      }
    }
    SplitWithSuffix(parts, MD_EXT);
    var tailed := words[..|words| - 1] + [words[|words| - 1] + MD_EXT];
    LastAppendAfter(head, words, MD_EXT);
    var split := Split(FullFileName(importance, hours, density, words), DASH);
    assert split == head + tailed;
    assert split[3..] == tailed;
    JoinLastAppend(words, MD_EXT, " ");
  }

  /** Appending to the last part of `head + words` appends to the last word. */
  lemma LastAppendAfter(head: seq<string>, words: seq<string>, tail: string)
    requires words != []
    ensures var parts := head + words;
      parts[..|parts| - 1] + [parts[|parts| - 1] + tail] == head + (words[..|words| - 1] + [words[|words| - 1] + tail])
  {
    var parts := head + words;
    assert parts[..|parts| - 1] == head + words[..|words| - 1];
  }

  /** Splitting dash-free parts joined by dashes, with a dash-free tail after them. */
  lemma SplitWithSuffix(parts: seq<string>, tail: string)
    requires parts != [] && DASH !in tail
    requires forall k :: 0 <= k < |parts| ==> DASH !in parts[k]
    ensures Split(Join(parts, [DASH]) + tail, DASH) == parts[..|parts| - 1] + [parts[|parts| - 1] + tail]
  {
    var parts' := parts[..|parts| - 1] + [parts[|parts| - 1] + tail];
    forall k | 0 <= k < |parts'|
      ensures DASH !in parts'[k]
    {
      if k < |parts| - 1 {
        assert parts'[k] == parts[k];
      }
    }
    JoinLastAppend(parts, tail, [DASH]);
    SplitJoin(parts', DASH);
  }

  /** Appending to the last part appends to the joined text. */
  lemma {:induction false} JoinLastAppend(parts: seq<string>, tail: string, sep: string)
    requires parts != []
    ensures Join(parts[..|parts| - 1] + [parts[|parts| - 1] + tail], sep) == Join(parts, sep) + tail
  {
    var parts' := parts[..|parts| - 1] + [parts[|parts| - 1] + tail];
    if |parts| > 1 {
      assert parts'[1..] == parts[1..][..|parts| - 2] + [parts[1..][|parts| - 2] + tail];
      JoinLastAppend(parts[1..], tail, sep);
    }
  }

  /**
   * The corrected parser reads a sprint task's file name back: its
   * importance, hours, difficulty density, and its words joined by spaces
   * (without trailing ".md" suffixes).
   */
  lemma FullRoundTrip(importance: Digit, hours: string, density: Digit, words: seq<string>, parseHours: string -> Option<real>)
    requires DASH !in hours && parseHours(hours).Some?
    requires words != [] && forall k :: 0 <= k < |words| ==> DASH !in words[k]
    ensures TryParseFull(FullFileName(importance, hours, density, words), parseHours) ==
            Ok(Full(importance, parseHours(hours).value, density, TrimMdSuffixes(Join(words, " ") + MD_EXT)))
  {
    FullFileNameSplit(importance, hours, density, words);
    DigitRoundTrip(importance);
    DigitRoundTrip(density);
  }

  /** A ".md" suffix added to a name that has none is what trimming removes. */
  lemma TrimAddedMd(name: string)
    requires !EndsWith(name, MD_EXT)
    ensures TrimMdSuffixes(name + MD_EXT) == name
  {
    ParseSimpleStripsExtension(name);
  }

  /**
   * The parser as written puts the difficulty density's digit in front of
   * the name: "3-2-5-fix.md" is named "5 fix", where the corrected parser
   * gives "fix".
   */
  lemma DifficultyInNameAsWritten(importance: Digit, hours: string, density: Digit, words: seq<string>, parseHours: string -> Option<real>)
    requires DASH !in hours && parseHours(hours).Some?
    requires words != [] && forall k :: 0 <= k < |words| ==> DASH !in words[k]
    requires !EndsWith(Join(words, " "), MD_EXT)
    requires !EndsWith([('0' as int + density) as char] + " " + Join(words, " "), MD_EXT)
    ensures TryParseFullAsWritten(FullFileName(importance, hours, density, words), parseHours) ==
            Ok(Full(importance, parseHours(hours).value, density, [('0' as int + density) as char] + " " + Join(words, " ")))
    ensures TryParseFull(FullFileName(importance, hours, density, words), parseHours) ==
            Ok(Full(importance, parseHours(hours).value, density, Join(words, " ")))
  {
    AsWrittenRoundTrip(importance, hours, density, words, parseHours);
    AsWrittenNameText(importance, hours, density, words);
    FullRoundTrip(importance, hours, density, words, parseHours);
    TrimAddedMd(Join(words, " "));
    TrimAddedMd([('0' as int + density) as char] + " " + Join(words, " "));
  }

  /** What the parser as written makes of a sprint task's file name. */
  lemma AsWrittenRoundTrip(importance: Digit, hours: string, density: Digit, words: seq<string>, parseHours: string -> Option<real>)
    requires DASH !in hours && parseHours(hours).Some?
    requires words != [] && forall k :: 0 <= k < |words| ==> DASH !in words[k]
    ensures TryParseFullAsWritten(FullFileName(importance, hours, density, words), parseHours) ==
            Ok(Full(importance, parseHours(hours).value, density,
                    TrimMdSuffixes(Join(Split(FullFileName(importance, hours, density, words), DASH)[2..], " "))))
  {
    var f := FullFileName(importance, hours, density, words);
    var split := Split(f, DASH);
    var dc := [('0' as int + density) as char];
    var j := Join(words, " ");
    assert split[0] == [('0' as int + importance) as char] && split[1] == hours && split[2] == dc &&
           |split| >= 4 && Join(split[3..], " ") == j + MD_EXT by {
      FullFileNameSplit(importance, hours, density, words);
    }
    DigitRoundTrip(importance);
    DigitRoundTrip(density);
    AsWrittenShape(f, parseHours);
  }

  /** The as-written name's text: the difficulty digit, a space, then the words. */
  lemma AsWrittenNameText(importance: Digit, hours: string, density: Digit, words: seq<string>)
    requires DASH !in hours
    requires words != [] && forall k :: 0 <= k < |words| ==> DASH !in words[k]
    ensures Join(Split(FullFileName(importance, hours, density, words), DASH)[2..], " ") ==
            [('0' as int + density) as char] + " " + Join(words, " ") + MD_EXT
  {
    var split := Split(FullFileName(importance, hours, density, words), DASH);
    FullFileNameSplit(importance, hours, density, words);
    JoinFromThird(split, Join(words, " ") + MD_EXT);
    ConcatAssoc([('0' as int + density) as char] + " ", Join(words, " "), MD_EXT);
  }

  /** Joining from the third part puts it before the rest. */
  lemma JoinFromThird(split: seq<string>, tail: string)
    requires |split| >= 4 && Join(split[3..], " ") == tail
    ensures Join(split[2..], " ") == split[2] + " " + tail
  {
    assert split[2..][1..] == split[3..];
  }

  /** Concatenation regroups. */
  lemma ConcatAssoc(a: string, b: string, c: string)
    ensures a + (b + c) == a + b + c
  {
  }

  /** The parser as written joins the third part and the rest. */
  lemma {:induction false} AsWrittenShape(fileName: string, parseHours: string -> Option<real>)
    requires var split := Split(fileName, DASH);
             |split| >= 4 && |split[0]| == 1 && |split[2]| == 1 && IsDigit(split[0][0]) && IsDigit(split[2][0]) &&
             parseHours(split[1]).Some?
    ensures var split := Split(fileName, DASH);
            TryParseFullAsWritten(fileName, parseHours) ==
            Ok(Full(DigitOf(split[0][0]), parseHours(split[1]).value, DigitOf(split[2][0]),
                    TrimMdSuffixes(split[2] + " " + Join(split[3..], " "))))
  {
    var split := Split(fileName, DASH);
    assert split[2..][1..] == split[3..];
  }

  // ---------------------------------------------------------------------
  // Priority

  /** `TaskMeta::priority`: nothing for a simple task, importance times ten less the difficulty density otherwise. */
  function Priority(m: TaskMeta): (p: nat)
    ensures m.Simple? ==> p == 0
    ensures m.Full? ==> p <= 90 && (m.importance > 0 <==> p > 0)
  {
    match m
      case Simple(_) => 0
      case Full(i, _, d, _) => i * (10 - d)
  }

  /** The priority fits the `u8` it is computed in, so no wrap-around occurs. */
  lemma PriorityFitsByte(m: TaskMeta)
    ensures Priority(m) < 256
  {
  }

  /** More importance never lowers the priority, more difficulty density never raises it. */
  lemma PriorityMonotone(i1: Digit, i2: Digit, d1: Digit, d2: Digit, h: real, n: string)
    requires i1 <= i2 && d2 <= d1
    ensures Priority(Full(i1, h, d1, n)) <= Priority(Full(i2, h, d2, n))
  {
    ScaleMonotone(i1, i2, 10 - d1);
    ScaleMonotone(10 - d1, 10 - d2, i2);
  }

  lemma {:induction false} ScaleMonotone(a: nat, b: nat, c: nat)
    requires a <= b
    ensures a * c <= b * c && c * a <= c * b
  {
    if c > 0 {
      ScaleMonotone(a, b, c - 1);
      assert a * c == a * (c - 1) + a && b * c == b * (c - 1) + b;
    }
  }

  function TaskPriority(t: Task): nat {
    Priority(t.meta)
  }

  // ---------------------------------------------------------------------
  // Top tasks

  predicate SortedByPriority(s: seq<Task>) {
    forall i, j :: 0 <= i < j < |s| ==> TaskPriority(s[i]) <= TaskPriority(s[j])
  }

  /** What `compile_quickfix` shows: the last `n` sorted tasks, highest priority first. */
  function TopTasks(sorted: seq<Task>, n: nat): (r: seq<Task>)
    ensures |r| == if |sorted| > n then n else |sorted|
  {
    var cut := if |sorted| > n then |sorted| - n else 0;
    seq(|sorted| - cut, k requires 0 <= k < |sorted| - cut => sorted[|sorted| - 1 - k])
  }

  /** From sorted tasks, the shown ones go from highest priority down, and none outranks a hidden one. */
  lemma TopTasksAreHighest(sorted: seq<Task>, n: nat)
    requires SortedByPriority(sorted)
    ensures var top := TopTasks(sorted, n);
            (forall i, j :: 0 <= i < j < |top| ==> TaskPriority(top[i]) >= TaskPriority(top[j])) &&
            (forall i, j :: 0 <= i < |top| && 0 <= j < |sorted| - |top| ==> TaskPriority(sorted[j]) <= TaskPriority(top[i]))
  {
  }

  // ---------------------------------------------------------------------
  // Sections

  datatype SectionError = ExclusiveFlags | SectionMissing(section: string)

  /** The section directory chosen and whether it has to be created. */
  datatype Section = Section(path: string, create: bool)

  const SPRINTS_CONDITIONAL: string := "conditional"
  const SPRINTS_OTHER: string := "other"

  /** The section named by the flags: a sprint, "conditional" or "other", and never a sprint and "conditional" at once. */
  function FromRoot(sprints: Option<string>, conditional: bool): (r: Result<string, SectionError>)
    ensures r.Err? <==> sprints.Some? && conditional
    ensures r.Err? ==> r.error == ExclusiveFlags
  {
    match (sprints, conditional)
      case (Some(name), false) => Ok(name)
      case (None, true) => Ok(SPRINTS_CONDITIONAL)
      case (None, false) => Ok(SPRINTS_OTHER)
      case (Some(_), true) => Err(ExclusiveFlags)
  }

  /**
   * `section_path`: the chosen section under the task directory; an
   * absent section is created with `parents` and refused without it.
   */
  function SectionPath(todosDir: string, sprints: Option<string>, conditional: bool, parents: bool, exists_: string -> bool): (r: Result<Section, SectionError>)
    ensures r.Err? && r.error.SectionMissing? ==> !parents && FromRoot(sprints, conditional).Ok?
    ensures r.Ok? ==> FromRoot(sprints, conditional).Ok? &&
                      r.value.path == todosDir + "/" + FromRoot(sprints, conditional).value &&
                      (r.value.create <==> !exists_(r.value.path))
  {
    match FromRoot(sprints, conditional)
      case Err(e) => Err(e)
      case Ok(fromRoot) =>
        var path := todosDir + "/" + fromRoot;
        if exists_(path) then Ok(Section(path, false))
        else if parents then Ok(Section(path, true))
        else Err(SectionMissing(fromRoot))
  }

  /** Both a sprint and "conditional" are refused before anything is looked up. */
  lemma ExclusiveFlagsRefused(todosDir: string, name: string, parents: bool, exists_: string -> bool)
    ensures SectionPath(todosDir, Some(name), true, parents, exists_) == Err(ExclusiveFlags)
  {
  }

  /** With `parents` the flags are the only way to fail. */
  lemma ParentsNeverMissing(todosDir: string, sprints: Option<string>, conditional: bool, exists_: string -> bool)
    ensures SectionPath(todosDir, sprints, conditional, true, exists_).Err? <==> sprints.Some? && conditional
  {
  }
}
