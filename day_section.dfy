/**
 * The section of the day the user is in: a wake time ("H:M") and three
 * section borders (hours after waking, "2.5:10.5:16") place the current
 * time of day in the morning, work, evening or night section, and each
 * section has a fixed description.
 *
 * `src/day_section.rs` and `src/quickfix.rs` carry the same `Waketime`
 * and `DaySectionBorders` code; it is modelled once here. The current
 * time comes in as an hour and a minute, and the `f32` parse of a border
 * is a parameter.
 */
module DaySections {
  import opened Wrappers
  import opened Strings

  const COLON: char := ':'
  const U32_LIMIT: nat := 0x1_0000_0000
  const I32_MIN: int := -0x8000_0000
  const I32_MAX: int := 0x7fff_ffff
  const MINUTES_PER_DAY: int := 24 * 60
  /** Past this many minutes after waking it is morning again. */
  const MORNING_AGAIN_AFTER: int := 20 * 60

  datatype Waketime = Waketime(hours: nat, minutes: nat)

  datatype DaySection = Morning | Work | Evening | Night

  /** Minutes after waking at which the morning, work and evening end. */
  datatype Borders = Borders(morningEnd: int, workEnd: int, eveningEnd: int)

  /** The two ways the configuration panics: a wrong number of parts, or a part that is not a number. */
  datatype ConfigError = WrongPartCount(found: nat) | NotANumber(part: string)

  // ---------------------------------------------------------------------
  // Wake time
  // ---------------------------------------------------------------------

  /** `str::parse::<u32>`. */
  function ParseU32(s: string): (r: Option<nat>)
    ensures r.Some? ==> r.value < U32_LIMIT && ParseU64(s) == r
    ensures ParseU64(s).Some? && ParseU64(s).value < U32_LIMIT ==> r.Some?
  {
    match ParseU64(s)
    case Some(v) => if v < U32_LIMIT then Some(v) else None
    case None => None
  }

  /** `Waketime::from`: exactly two ':'-separated parts, each a `u32`. */
  function ParseWaketime(s: string): (r: Result<Waketime, ConfigError>)
    ensures r.Ok? ==> r.value.hours < U32_LIMIT && r.value.minutes < U32_LIMIT
    ensures r.Ok? ==> exists h, m :: s == h + [COLON] + m && ParseU32(h) == Some(r.value.hours)
                                                      && ParseU32(m) == Some(r.value.minutes)
    ensures COLON !in s ==> r == Err(WrongPartCount(1))
  {
    var parts := Split(s, COLON);
    if |parts| != 2 then Err(WrongPartCount(|parts|))
    else
      match ParseU32(parts[0])
      case None => Err(NotANumber(parts[0]))
      case Some(h) =>
        match ParseU32(parts[1])
        case None => Err(NotANumber(parts[1]))
        case Some(m) =>
          assert s == parts[0] + [COLON] + parts[1];
          Ok(Waketime(h, m))
  }

  /** The text `H:M` of a wake time. */
  function WaketimeText(wt: Waketime): (r: string)
    ensures |Split(r, COLON)| == 2
  {
    var parts := [NatToString(wt.hours), NatToString(wt.minutes)];
    NoColonInDigits(parts[0]);
    NoColonInDigits(parts[1]);
    SplitJoin(parts, COLON);
    Join(parts, [COLON])
  }

  lemma NoColonInDigits(d: string)
    requires AllDigits(d)
    ensures COLON !in d
  {
    forall i | 0 <= i < |d|
      ensures d[i] != COLON
    {
      assert IsDigit(d[i]);
    }
  }

  /** Every wake time with `u32` fields reads back from its text. */
  lemma WaketimeRoundTrip(wt: Waketime)
    requires wt.hours < U32_LIMIT && wt.minutes < U32_LIMIT
    ensures ParseWaketime(WaketimeText(wt)) == Ok(wt)
  {
    var parts := [NatToString(wt.hours), NatToString(wt.minutes)];
    NoColonInDigits(parts[0]);
    NoColonInDigits(parts[1]);
    SplitJoin(parts, COLON);
    ParseNatToString(wt.hours);
    ParseNatToString(wt.minutes);
  }

  /** The last part of a split ends in the last character when that is not the separator. */
  lemma {:induction false} SplitLastEndsWith(s: string, x: char)
    requires x != COLON
    ensures var parts := Split(s + [x], COLON);
            parts[|parts| - 1] != [] && parts[|parts| - 1][|parts[|parts| - 1]| - 1] == x
  {
    var parts := Split(s + [x], COLON);
    var last := parts[|parts| - 1];
    if |parts| == 1 {
      assert Join(parts, [COLON]) == last;
    } else {
      assert parts == parts[..|parts| - 1] + [last];
      JoinAppend(parts[..|parts| - 1], last, [COLON]);
      assert s + [x] == Join(parts[..|parts| - 1], [COLON]) + [COLON] + last;
      assert (s + [x])[|s|] == x;
    }
  }

  /** A number followed by a line break is not a `u32`. */
  lemma TrailingNewlineNotNumber(p: string)
    requires p != [] && p[|p| - 1] == '\n'
    ensures ParseU32(p) == None
  {
    var d := if StartsWith(p, "+") then p[1..] else p;
    if d != [] {
      assert d[|d| - 1] == '\n' && !IsDigit(d[|d| - 1]);
    }
  }

  /**
   * `quickfix::compile` reads the wake time as the output of `echo
   * $WAKETIME`, which ends in a line break; the minutes part then keeps
   * the line break and the parse refuses every such text.
   */
  lemma EchoedWaketimeRefused(s: string)
    ensures ParseWaketime(s + "\n").Err?
  {
    SplitLastEndsWith(s, '\n');
    var parts := Split(s + "\n", COLON);
    if |parts| == 2 {
      TrailingNewlineNotNumber(parts[1]);
    }
  }

  /**
   * The wake time read from command output with the surrounding whitespace
   * trimmed; blank output (an unset variable) is refused as one part.
   */
  function ReadWaketime(output: string): (r: Result<Waketime, ConfigError>)
    ensures AllWhitespace(output) ==> r == Err(WrongPartCount(1))
    ensures r.Ok? ==> r.value.hours < U32_LIMIT && r.value.minutes < U32_LIMIT
  {
    EmptyTrim(output);
    ParseWaketime(Trim(output))
  }

  lemma EmptyTrim(s: string)
    ensures AllWhitespace(s) ==> Trim(s) == []
  {
  }

  /** Trimming a text with no whitespace at either end after a line break was added gives back the text. */
  lemma TrimEchoed(t: string)
    requires t != [] && !IsWhitespace(t[0]) && !IsWhitespace(t[|t| - 1])
    ensures Trim(t + "\n") == t
  {
    var e := t + "\n";
    assert TrimStart(e) == e;
    assert e[..|e| - 1] == t;
  }

  /** The echoed text of a wake time reads back as that wake time once trimmed. */
  lemma EchoedWaketimeRead(wt: Waketime)
    requires wt.hours < U32_LIMIT && wt.minutes < U32_LIMIT
    ensures ReadWaketime(WaketimeText(wt) + "\n") == Ok(wt)
  {
    var t := WaketimeText(wt);
    var h := NatToString(wt.hours);
    var m := NatToString(wt.minutes);
    assert t == Join([h, m], [COLON]);
    assert [h, m][1..] == [m];
    assert Join([m], [COLON]) == m;
    assert t == h + [COLON] + m;
    assert t[0] == h[0] && t[|t| - 1] == m[|m| - 1];
    TrimEchoed(t);
    WaketimeRoundTrip(wt);
  }

  function WakeMinutes(wt: Waketime): nat {
    wt.hours * 60 + wt.minutes
  }

  // ---------------------------------------------------------------------
  // Section borders
  // ---------------------------------------------------------------------

  /** `x as i32` for a float: truncation toward zero, saturating at the `i32` bounds. */
  function CastToI32(x: real): (r: int)
    ensures I32_MIN <= r <= I32_MAX
    ensures I32_MIN as real <= x <= I32_MAX as real && x >= 0.0 ==> r as real <= x < r as real + 1.0
    ensures I32_MIN as real <= x <= I32_MAX as real && x < 0.0 ==> r as real - 1.0 < x <= r as real
    ensures x > I32_MAX as real ==> r == I32_MAX
    ensures x < I32_MIN as real ==> r == I32_MIN
  {
    var t := if x >= 0.0 then x.Floor else -((-x).Floor);
    if t > I32_MAX then I32_MAX else if t < I32_MIN then I32_MIN else t
  }

  /** A border given in hours, in minutes. */
  function BorderMinutes(hours: real): int {
    CastToI32(hours * 60.0)
  }

  /** A whole or fractional number of minutes converts exactly. */
  lemma BorderExact(minutes: int)
    requires I32_MIN <= minutes <= I32_MAX
    ensures BorderMinutes(minutes as real / 60.0) == minutes
  {
  }

  /**
   * `DaySectionBorders::from`: exactly three ':'-separated parts, each an
   * `f32` number of hours (read by `parseF32`), converted to minutes.
   */
  function ParseBorders(s: string, parseF32: string -> Option<real>): (r: Result<Borders, ConfigError>)
    ensures r.Ok? <==> |Split(s, COLON)| == 3 && (forall k :: 0 <= k < 3 ==> parseF32(Split(s, COLON)[k]).Some?)
    ensures r.Ok? ==> (r.value.morningEnd == BorderMinutes(parseF32(Split(s, COLON)[0]).value)
                       && r.value.workEnd == BorderMinutes(parseF32(Split(s, COLON)[1]).value)
                       && r.value.eveningEnd == BorderMinutes(parseF32(Split(s, COLON)[2]).value))
    ensures |Split(s, COLON)| != 3 ==> r == Err(WrongPartCount(|Split(s, COLON)|))
  {
    var parts := Split(s, COLON);
    if |parts| != 3 then Err(WrongPartCount(|parts|))
    else if parseF32(parts[0]).None? then Err(NotANumber(parts[0]))
    else if parseF32(parts[1]).None? then Err(NotANumber(parts[1]))
    else if parseF32(parts[2]).None? then Err(NotANumber(parts[2]))
    else
      Ok(Borders(BorderMinutes(parseF32(parts[0]).value),
                 BorderMinutes(parseF32(parts[1]).value),
                 BorderMinutes(parseF32(parts[2]).value)))
  }

  // ---------------------------------------------------------------------
  // Classification
  // ---------------------------------------------------------------------

  /**
   * The current minute of the day shifted back by the wake time: one day
   * is added when the difference is negative.
   */
  function ShiftedMinutes(nowMinutes: int, wakeMinutes: int): (r: int)
    ensures r == nowMinutes - wakeMinutes || r == nowMinutes - wakeMinutes + MINUTES_PER_DAY
    ensures (r - (nowMinutes - wakeMinutes)) % MINUTES_PER_DAY == 0
  {
    var d := nowMinutes - wakeMinutes;
    if d < 0 then d + MINUTES_PER_DAY else d
  }

  /**
   * For a time of day, the shifted time lies within one day exactly when
   * the wake time is at most a day past the current minute; every wake
   * time before 24:00 qualifies.
   */
  lemma ShiftedWithinDay(nowMinutes: int, wakeMinutes: nat)
    requires 0 <= nowMinutes < MINUTES_PER_DAY
    ensures ShiftedMinutes(nowMinutes, wakeMinutes) < MINUTES_PER_DAY
    ensures 0 <= ShiftedMinutes(nowMinutes, wakeMinutes) <==> wakeMinutes <= nowMinutes + MINUTES_PER_DAY
  {
  }

  /**
   * The shift is the remainder of the difference by a day (what the
   * comment's Python `%` means) for every wake time up to a day past the
   * current minute.
   */
  lemma ShiftedIsRemainder(nowMinutes: int, wakeMinutes: nat)
    requires 0 <= nowMinutes < MINUTES_PER_DAY
    ensures wakeMinutes <= nowMinutes + MINUTES_PER_DAY ==>
      ShiftedMinutes(nowMinutes, wakeMinutes) == (nowMinutes - wakeMinutes) % MINUTES_PER_DAY
  {
    if wakeMinutes <= nowMinutes + MINUTES_PER_DAY {
      var d := nowMinutes - wakeMinutes;
      var r := ShiftedMinutes(nowMinutes, wakeMinutes);
      assert 0 <= r < MINUTES_PER_DAY;
      assert d == r || d == r - MINUTES_PER_DAY;
    }
  }

  /** The guarded match of `now_in`, on a shifted time. */
  function Classify(b: Borders, t: int): (r: DaySection)
    ensures r == Morning <==> t > MORNING_AGAIN_AFTER || t <= b.morningEnd
    ensures r == Work <==> !(t > MORNING_AGAIN_AFTER || t <= b.morningEnd) && t <= b.workEnd
    ensures r == Evening <==> !(t > MORNING_AGAIN_AFTER || t <= b.morningEnd) && b.workEnd < t <= b.eveningEnd
    ensures r == Night <==> b.morningEnd < t <= MORNING_AGAIN_AFTER && b.workEnd < t && b.eveningEnd < t
  {
    if t > MORNING_AGAIN_AFTER || t <= b.morningEnd then Morning
    else if t <= b.workEnd then Work
    else if t <= b.eveningEnd then Evening
    else Night
  }

  /**
   * `DaySectionBorders::now_in` with the current time as hour and minute:
   * for a wake time at most a day past the current minute, the section of
   * the time since waking, taken modulo a day.
   */
  function NowIn(b: Borders, hour: nat, minute: nat, wt: Waketime): (r: DaySection)
    requires hour < 24 && minute < 60
    ensures WakeMinutes(wt) <= hour * 60 + minute + MINUTES_PER_DAY ==>
      r == Classify(b, (hour * 60 + minute - WakeMinutes(wt)) % MINUTES_PER_DAY)
  {
    ShiftedIsRemainder(hour * 60 + minute, WakeMinutes(wt));
    Classify(b, ShiftedMinutes(hour * 60 + minute, WakeMinutes(wt)))
  }

  /** The order of the sections through the day. */
  function Rank(s: DaySection): nat {
    match s
    case Morning => 0
    case Work => 1
    case Evening => 2
    case Night => 3
  }

  predicate Ordered(b: Borders) {
    b.morningEnd <= b.workEnd <= b.eveningEnd
  }

  /**
   * With ordered borders, the sections follow each other in order from
   * waking until twenty hours later, after which it is morning again.
   */
  lemma SectionsInOrder(b: Borders, t1: int, t2: int)
    requires Ordered(b)
    requires 0 <= t1 <= t2 <= MORNING_AGAIN_AFTER
    ensures Rank(Classify(b, t1)) <= Rank(Classify(b, t2))
  {
  }

  /** With borders strictly inside the twenty hours, every section is reached. */
  lemma EverySectionReached(b: Borders, s: DaySection)
    requires 0 <= b.morningEnd < b.workEnd < b.eveningEnd < MORNING_AGAIN_AFTER
    ensures exists t :: 0 <= t < MINUTES_PER_DAY && Classify(b, t) == s
  {
    match s
    case Morning => assert Classify(b, 0) == Morning;
    case Work => assert Classify(b, b.workEnd) == Work;
    case Evening => assert Classify(b, b.eveningEnd) == Evening;
    case Night => assert Classify(b, b.eveningEnd + 1) == Night;
  }

  /** The morning check comes first: at the wake time itself it is morning whenever the morning border is not negative. */
  lemma MorningAtWaking(b: Borders, hour: nat, minute: nat, wt: Waketime)
    requires hour < 24 && minute < 60
    requires WakeMinutes(wt) == hour * 60 + minute
    requires b.morningEnd >= 0
    ensures NowIn(b, hour, minute, wt) == Morning
  {
  }

  /**
   * A wake time more than a day past the current minute (a wake hour
   * of 24 or more, which the parse accepts) leaves the shifted time
   * negative, and a negative time is always morning.
   */
  lemma LateWaketimeMorning(b: Borders, hour: nat, minute: nat, wt: Waketime)
    requires hour < 24 && minute < 60
    requires WakeMinutes(wt) > hour * 60 + minute + MINUTES_PER_DAY
    requires b.morningEnd >= -1
    ensures NowIn(b, hour, minute, wt) == Morning
  {
    ShiftedWithinDay(hour * 60 + minute, WakeMinutes(wt));
  }

  // ---------------------------------------------------------------------
  // Descriptions
  // ---------------------------------------------------------------------

  function SectionName(s: DaySection): string {
    match s
    case Morning => "Morning"
    case Work => "Work"
    case Evening => "Evening"
    case Night => "Night"
  }

  /** The first line of a section's description, after a leading blank line. */
  function Heading(s: DaySection): string {
    "\n# " + SectionName(s) + "\n"
  }

  const MORNING_BODY: string :=
    "for physical things\n\n## Talking\nOn constructive topics. No unprompted monologues, but can be interacted with to schedule plans or answer a question.\n"
  const WORK_BODY: string :=
    "for necessary things\n\n## Talking\nAbsolutely none, except for strictly work-related reasons, in which case the conversation is immediately to the point, and to be cut down for time.\n"
  const EVENING_BODY: string :=
    "fun and reflection\n\n## Talking\nWhatever you feel like, no limits whatsoever.\n"
  const NIGHT_BODY: string :=
    "## SLEEP\n"

  /** The rest of a section's description after its heading. */
  function Body(s: DaySection): string {
    match s
    case Morning => MORNING_BODY
    case Work => WORK_BODY
    case Evening => EVENING_BODY
    case Night => NIGHT_BODY
  }

  /** `DaySection::description`: a fixed Markdown text per section. */
  function Description(s: DaySection): (r: string)
    ensures StartsWith(r, "\n# " + SectionName(s) + "\n")
    ensures r[3] == SectionName(s)[0]
  {
    var r := Heading(s) + Body(s);
    assert r[..|Heading(s)|] == Heading(s);
    r
  }

  /** The section names begin with different letters. */
  lemma InitialsDistinct(s1: DaySection, s2: DaySection)
    requires s1 != s2
    ensures SectionName(s1)[0] != SectionName(s2)[0]
  {
  }

  /** Different sections have different descriptions. */
  lemma DescriptionsDistinct(s1: DaySection, s2: DaySection)
    requires s1 != s2
    ensures Description(s1) != Description(s2)
  {
    InitialsDistinct(s1, s2);
  }
}
