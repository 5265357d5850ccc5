/**
 * The daily record updates of src/manual_stats.rs: checking the flags of
 * an EV entry, applying it or a counter step to the day's record, and
 * advancing the streaks kept beside the personal bests. Reading and
 * writing the JSON files, notifications and the per-metric conditions on
 * yesterday's record are not part of this model; whether each condition
 * held is a parameter.
 */
module ManualStats {
  import opened Wrappers

  const I32_MIN: int := -0x8000_0000
  const I32_MAX: int := 0x7fff_ffff

  /** A value of Rust's `i32`. */
  type I32 = x: int | I32_MIN <= x <= I32_MAX

  /** The arguments of `todo manual ev`. */
  datatype ManualEv = ManualEv(ev: I32, open: bool, add: bool, subtract: bool, replace: bool)

  datatype CounterStep = CounterStep(cargoWatch: bool, devRuns: bool)

  datatype Command = Ev(args: ManualEv) | Step(step: CounterStep)

  datatype ManualError =
    | NotExactlyOneMode
    | UninitializedNeedsReplace
    | EvOverflow

  // ---------------------------------------------------------------------
  // EV arguments

  /**
   * `ManualEv::validate`: adding and subtracting together, or none of the
   * three modes, is refused; `replace` is dropped whenever adding or
   * subtracting, and every other field is kept.
   */
  function Validate(e: ManualEv): (r: Result<ManualEv, ManualError>)
    ensures r.Err? ==> r.error == NotExactlyOneMode
    ensures r.Ok? ==> r.value == e.(replace := if e.add || e.subtract then false else e.replace)
  {
    var replace := if e.add || e.subtract then false else e.replace;
    if e.add && e.subtract then Err(NotExactlyOneMode)
    else if !e.add && !e.subtract && !e.replace then Err(NotExactlyOneMode)
    else Ok(e.(replace := replace))
  }

  /** Exactly one of the three modes is set. */
  predicate ExactlyOneMode(e: ManualEv) {
    (if e.add then 1 else 0) + (if e.subtract then 1 else 0) + (if e.replace then 1 else 0) == 1
  }

  /** Validation fails exactly when both add and subtract, or no mode at all, is given. */
  lemma ValidateErrIff(e: ManualEv)
    ensures Validate(e).Err? <==> (e.add && e.subtract) || (!e.add && !e.subtract && !e.replace)
  {
  }

  /** A validated entry has exactly one mode, and validating it again changes nothing. */
  lemma ValidatedHasOneMode(e: ManualEv)
    requires Validate(e).Ok?
    ensures ExactlyOneMode(Validate(e).value)
    ensures Validate(Validate(e).value) == Validate(e)
  {
  }

  // ---------------------------------------------------------------------
  // EV update

  /** What the EV becomes, in unbounded integers: the old value plus, minus, or replaced by the entry. */
  function IntendedEv(old_: int, e: ManualEv): (r: int)
    ensures e.add ==> r - old_ == e.ev
    ensures !e.add && e.subtract ==> old_ - r == e.ev
    ensures !e.add && !e.subtract ==> r == e.ev
    ensures e.ev >= 0 ==> (e.add ==> r >= old_) && (!e.add && e.subtract ==> r <= old_)
  {
    if e.add then old_ + e.ev else if e.subtract then old_ - e.ev else e.ev
  }

  /** The update in `i32` arithmetic; a result outside `i32` is an overflow, which a debug build stops on. */
  function UpdatedEv(old_: I32, e: ManualEv): (r: Result<I32, ManualError>)
    requires ExactlyOneMode(e)
    ensures r.Ok? <==> I32_MIN <= IntendedEv(old_, e) <= I32_MAX
    ensures r.Ok? ==> r.value == IntendedEv(old_, e)
    ensures r.Err? ==> r.error == EvOverflow
  {
    var v := IntendedEv(old_, e);
    if I32_MIN <= v <= I32_MAX then Ok(v) else Err(EvOverflow)
  }

  /** Replacing ignores the old value. */
  lemma ReplaceIgnoresOld(a: I32, b: I32, e: ManualEv)
    requires ExactlyOneMode(e) && e.replace
    ensures UpdatedEv(a, e) == UpdatedEv(b, e) == Ok(e.ev)
  {
  }

  /** Subtracting an entry undoes adding it. */
  lemma SubtractUndoesAdd(old_: I32, e: ManualEv)
    requires ExactlyOneMode(e) && e.add && UpdatedEv(old_, e).Ok?
    ensures UpdatedEv(UpdatedEv(old_, e).value, e.(add := false, subtract := true)) == Ok(old_)
  {
  }

  /** Adding a non-negative entry never lowers the EV. */
  lemma AddNeverLowers(old_: I32, e: ManualEv)
    requires ExactlyOneMode(e) && e.add && e.ev >= 0 && UpdatedEv(old_, e).Ok?
    ensures UpdatedEv(old_, e).value >= old_
  {
  }

  // ---------------------------------------------------------------------
  // The day's record

  /** The counters after a step: each flagged counter goes up by one, the others stay. */
  function Stepped(count: nat, flagged: bool): (r: nat)
    ensures flagged ==> r == count + 1
    ensures !flagged ==> r == count
  {
    if flagged then count + 1 else count
  }

  /** The fields of a day's record that these commands touch. */
  class Day {
    var date: string
    var ev: I32
    var cargoWatch: nat
    var devRuns: nat

    /** `Day::default()`. */
    constructor Default()
      ensures date == [] && ev == 0 && cargoWatch == 0 && devRuns == 0
    {
      date := [];
      ev := 0;
      cargoWatch := 0;
      devRuns := 0;
    }

    /** Applies a validated EV entry to a loaded day; an overflow leaves it unchanged. */
    method ApplyEv(e: ManualEv) returns (r: Result<(), ManualError>)
      requires ExactlyOneMode(e)
      modifies this
      ensures r.Ok? <==> UpdatedEv(old(ev), e).Ok?
      ensures r.Ok? ==> ev == UpdatedEv(old(ev), e).value
      ensures r.Err? ==> ev == old(ev)
      ensures date == old(date) && cargoWatch == old(cargoWatch) && devRuns == old(devRuns)
    {
      match UpdatedEv(ev, e) {
        case Ok(v) =>
          ev := v;
          r := Ok(());
        case Err(err) =>
          r := Err(err);
      }
    }

    /** Applies a counter step: exactly the flagged counters go up by one. */
    method ApplyStep(s: CounterStep)
      modifies this
      ensures cargoWatch == Stepped(old(cargoWatch), s.cargoWatch)
      ensures devRuns == Stepped(old(devRuns), s.devRuns)
      ensures date == old(date) && ev == old(ev)
    {
      if s.cargoWatch {
        cargoWatch := cargoWatch + 1;
      }
      if s.devRuns {
        devRuns := devRuns + 1;
      }
    }

    /**
     * The branch for a day with no record yet: an EV entry must replace,
     * a counter step sets the flagged counters to one, and the date is set.
     */
    method Initialize(d: string, c: Command) returns (r: Result<(), ManualError>)
      requires c.Ev? ==> ExactlyOneMode(c.args)
      requires ev == 0 && cargoWatch == 0 && devRuns == 0
      modifies this
      ensures r.Err? <==> c.Ev? && !c.args.replace
      ensures r.Err? ==> r.error == UninitializedNeedsReplace
      ensures r.Ok? ==> date == d
      ensures r.Ok? && c.Ev? ==> ev == c.args.ev && cargoWatch == 0 && devRuns == 0
      ensures r.Ok? && c.Step? ==> ev == 0 && cargoWatch == (if c.step.cargoWatch then 1 else 0) &&
                                   devRuns == (if c.step.devRuns then 1 else 0)
    {
      match c {
        case Ev(e) =>
          if !e.replace {
            return Err(UninitializedNeedsReplace);
          }
          ev := e.ev;
        case Step(s) =>
          if s.cargoWatch {
            cargoWatch := 1;
          }
          if s.devRuns {
            devRuns := 1;
          }
      }
      date := d;
      r := Ok(());
    }
  }

  /** Adding or subtracting on a day with no record is refused once validated. */
  lemma FreshDayNeedsReplace(e: ManualEv)
    requires Validate(e).Ok? && (e.add || e.subtract)
    ensures !Validate(e).value.replace
  {
  }

  /** A step on a fresh day gives the same counters as the same step on a zeroed record. */
  lemma FreshStepMatchesStep(s: CounterStep)
    ensures Stepped(0, s.cargoWatch) == (if s.cargoWatch then 1 else 0)
    ensures Stepped(0, s.devRuns) == (if s.devRuns then 1 else 0)
  {
  }

  // ---------------------------------------------------------------------
  // Streaks

  datatype Streak = Streak(pb: nat, current: nat)

  /**
   * The rule inside `streak_update`: nothing moves when yesterday was
   * already processed; otherwise the streak grows by one if yesterday met
   * the condition and restarts at zero if not, and the best is raised to
   * the current streak when it is exceeded.
   */
  function NextStreak(read: Streak, validated: bool, skip: bool): (r: Streak)
    ensures skip ==> r == read
    ensures !skip ==> r.current == (if validated then read.current + 1 else 0)
    ensures !skip ==> r.pb == if r.current > read.pb then r.current else read.pb
  {
    if skip then read
    else
      var current := if validated then read.current + 1 else 0;
      Streak(if current > read.pb then current else read.pb, current)
  }

  /** The best never goes down, and after an update it is at least the current streak. */
  lemma BestNeverDrops(read: Streak, validated: bool, skip: bool)
    ensures NextStreak(read, validated, skip).pb >= read.pb
    ensures !skip ==> NextStreak(read, validated, skip).pb >= NextStreak(read, validated, skip).current
  {
  }

  /** The streak after updating on each of a run of days in turn. */
  function StreakAfter(s: Streak, days: seq<bool>): Streak {
    if days == [] then s else NextStreak(StreakAfter(s, days[..|days| - 1]), days[|days| - 1], false)
  }

  function Max(a: nat, b: nat): nat {
    if a < b then b else a
  }

  /** After `n` met days in a row from a broken streak, the streak is `n` and the best at least `n`. */
  lemma {:induction false} ConsecutiveDays(s: Streak, days: seq<bool>)
    requires s.current == 0
    requires forall k :: 0 <= k < |days| ==> days[k]
    ensures StreakAfter(s, days) == Streak(Max(s.pb, |days|), |days|)
  {
    if days != [] {
      ConsecutiveDays(s, days[..|days| - 1]);
    }
  }

  /** A missed day ends any streak. */
  lemma MissedDayResets(s: Streak, days: seq<bool>)
    requires days != [] && !days[|days| - 1]
    ensures StreakAfter(s, days).current == 0
  {
  }

  /** The streaks kept beside the personal bests, and the last day they were advanced for. */
  datatype Streaks = Streaks(byMetric: map<string, Streak>, lastDateProcessed: Option<string>)

  /** A streak never recorded reads as zero. */
  function ReadStreak(st: Streaks, metric: string): Streak {
    if metric in st.byMetric then st.byMetric[metric] else Streak(0, 0)
  }

  /** The metrics whose streaks are advanced, in the order they are. */
  const STREAK_METRICS: seq<string> := [
    "no_jofv", "stable_sleep", "focus_meditation", "math", "nsdr", "perfect_morning",
    "NOs_streak", "responsible_caffeine", "responsible_messengers", "running_streak",
    "rejection_streak", "locked_phone_streak"
  ]

  /** Every metric's streak after one update, where `met(m)` says whether yesterday met `m`'s condition. */
  function AdvancedStreaks(st: Streaks, ydDate: string, ydExists: bool, met: string -> bool, metrics: seq<string>): (r: map<string, Streak>)
    ensures forall m :: m in r <==> m in st.byMetric || m in metrics
  {
    if metrics == [] then st.byMetric
    else
      var m := metrics[|metrics| - 1];
      var prev := AdvancedStreaks(st, ydDate, ydExists, met, metrics[..|metrics| - 1]);
      prev[m := NextStreak(ReadStreak(st, m), ydExists && met(m), st.lastDateProcessed == Some(ydDate))]
  }

  /**
   * The streak part of `update_pbs`: each metric in turn, then yesterday's
   * date is recorded as processed.
   */
  method UpdateStreaks(st: Streaks, ydDate: string, ydExists: bool, met: string -> bool, metrics: seq<string>) returns (r: Streaks)
    ensures r == Streaks(AdvancedStreaks(st, ydDate, ydExists, met, metrics), Some(ydDate))
  {
    var skip := st.lastDateProcessed == Some(ydDate);
    var byMetric := st.byMetric;
    for i := 0 to |metrics|
      invariant byMetric == AdvancedStreaks(st, ydDate, ydExists, met, metrics[..i])
    {
      assert metrics[..i + 1][..i] == metrics[..i];
      var m := metrics[i];
      var validated := ydExists && met(m);
      byMetric := byMetric[m := NextStreak(ReadStreak(st, m), validated, skip)];
    }
    assert metrics[..|metrics|] == metrics;
    r := Streaks(byMetric, Some(ydDate));
  }

  /** Each listed metric ends with its own rule applied once to what was read. */
  lemma {:induction false} AdvancedListed(st: Streaks, ydDate: string, ydExists: bool, met: string -> bool, metrics: seq<string>, m: string)
    requires m in metrics
    ensures var r := AdvancedStreaks(st, ydDate, ydExists, met, metrics);
            m in r && r[m] == NextStreak(ReadStreak(st, m), ydExists && met(m), st.lastDateProcessed == Some(ydDate))
  {
    if metrics[|metrics| - 1] != m {
      assert m in metrics[..|metrics| - 1] by {
        var k :| 0 <= k < |metrics| && metrics[k] == m;
        assert metrics[..|metrics| - 1][k] == m;
      }
      AdvancedListed(st, ydDate, ydExists, met, metrics[..|metrics| - 1], m);
    }
  }

  /** Metrics not listed keep what they had. */
  lemma {:induction false} AdvancedUnlisted(st: Streaks, ydDate: string, ydExists: bool, met: string -> bool, metrics: seq<string>, m: string)
    requires m !in metrics
    ensures var r := AdvancedStreaks(st, ydDate, ydExists, met, metrics);
            (m in r <==> m in st.byMetric) && (m in r ==> r[m] == st.byMetric[m])
  {
    if metrics != [] {
      assert metrics[|metrics| - 1] in metrics;
      assert m !in metrics[..|metrics| - 1];
      AdvancedUnlisted(st, ydDate, ydExists, met, metrics[..|metrics| - 1], m);
    }
  }

  /** Running the update a second time for the same day changes nothing. */
  lemma SecondRunChangesNothing(st: Streaks, ydDate: string, ydExists: bool, met: string -> bool, metrics: seq<string>)
    ensures var once := Streaks(AdvancedStreaks(st, ydDate, ydExists, met, metrics), Some(ydDate));
            Streaks(AdvancedStreaks(once, ydDate, ydExists, met, metrics), Some(ydDate)) == once
  {
    var once := Streaks(AdvancedStreaks(st, ydDate, ydExists, met, metrics), Some(ydDate));
    var twice := AdvancedStreaks(once, ydDate, ydExists, met, metrics);
    forall m
      ensures (m in twice <==> m in once.byMetric) && (m in twice ==> twice[m] == once.byMetric[m])
    {
      if m in metrics {
        AdvancedListed(once, ydDate, ydExists, met, metrics, m);
        AdvancedListed(st, ydDate, ydExists, met, metrics, m);
      } else {
        AdvancedUnlisted(once, ydDate, ydExists, met, metrics, m);
      }
    }
    assert twice == once.byMetric;
  }
}
