/**
 * Milestone lookup of src/milestones.rs: the description of the milestone
 * titled after a timeframe, provided it has a due date that has not passed,
 * and the health check over the key timeframes. The current time, the
 * timeframe's text and the date's text are parameters; fetching the
 * milestones and writing the status file are not part of this model.
 */
module Milestones {
  import opened Wrappers
  import opened Strings

  datatype Designator = Minutes | Hours | Days | Weeks | Months | Quarters | Years

  datatype Timeframe = Timeframe(designator: Designator, n: nat)

  /** A milestone as fetched; times are whole seconds since the epoch. */
  datatype Milestone = Milestone(title: string, dueOn: Option<int>, description: Option<string>)

  datatype MilestoneError =
    | MissingDueOn
    | MilestoneOutdated(dueOn: int)
    | MinuteMilestone
    | MilestoneNotFound(existing: seq<string>)
    | MissingDescription

  datatype GetMilestoneError = GetMilestoneError(requestedTf: Timeframe, source: MilestoneError)

  const SECONDS_PER_HOUR: nat := 3600
  const NL: char := '\n'
  const OK: string := "OK"

  /** The timeframes the health check requires: 1 day, 2 weeks, 1 quarter, 1, 3 and 7 years. */
  const KEY_MILESTONES: seq<Timeframe> := [
    Timeframe(Days, 1), Timeframe(Weeks, 2), Timeframe(Quarters, 1),
    Timeframe(Years, 1), Timeframe(Years, 3), Timeframe(Years, 7)
  ]

  /** Whole hours in a span of seconds, rounded toward zero (`Duration::num_hours`). */
  function NumHours(seconds: int): (h: int)
    ensures h < 0 <==> seconds <= -(SECONDS_PER_HOUR as int)
  {
    if seconds >= 0 then seconds / SECONDS_PER_HOUR else -((-seconds) / SECONDS_PER_HOUR)
  }

  /** The first milestone with the given title. */
  function FindTitled(ms: seq<Milestone>, title: string): (r: Option<nat>)
    ensures r.Some? ==> r.value < |ms| && ms[r.value].title == title && forall j :: 0 <= j < r.value ==> ms[j].title != title
    ensures r.None? <==> forall j :: 0 <= j < |ms| ==> ms[j].title != title
  {
    if ms == [] then None
    else if ms[0].title == title then Some(0)
    else match FindTitled(ms[1..], title)
      case None => None
      case Some(i) => Some(i + 1)
  }

  /** The titles of all milestones, in order. */
  function Titles(ms: seq<Milestone>): (r: seq<string>)
    ensures |r| == |ms| && forall j :: 0 <= j < |ms| ==> r[j] == ms[j].title
  {
    seq(|ms|, j requires 0 <= j < |ms| => ms[j].title)
  }

  /**
   * Checks one found milestone against the current time: its description is
   * returned exactly when it has one and a due date less than an hour past.
   */
  function CheckMilestone(tf: Timeframe, m: Milestone, now: int): (r: Result<string, GetMilestoneError>)
    ensures r.Ok? <==> m.dueOn.Some? && now < m.dueOn.value + SECONDS_PER_HOUR && m.description.Some?
    ensures r.Ok? ==> r.value == m.description.value
    ensures r.Err? ==> r.error.requestedTf == tf
    ensures r.Err? && m.dueOn.None? ==> r.error.source == MissingDueOn
  {
    match m.dueOn
      case None => Err(GetMilestoneError(tf, MissingDueOn))
      case Some(due) =>
        if NumHours(due - now) < 0 then Err(GetMilestoneError(tf, MilestoneOutdated(due)))
        else match m.description
          case Some(d) => Ok(d)
          case None => Err(GetMilestoneError(tf, MissingDescription))
  }

  /**
   * `get_milestone`: minute timeframes are refused outright; otherwise the
   * first milestone titled `show(tf)` is checked, and an absent one is
   * reported with every title there is.
   */
  function GetMilestone(tf: Timeframe, show: Timeframe -> string, ms: seq<Milestone>, now: int): (r: Result<string, GetMilestoneError>)
    ensures r.Err? ==> r.error.requestedTf == tf
  {
    if tf.designator == Minutes then Err(GetMilestoneError(tf, MinuteMilestone))
    else match FindTitled(ms, show(tf))
      case Some(i) => CheckMilestone(tf, ms[i], now)
      case None => Err(GetMilestoneError(tf, MilestoneNotFound(Titles(ms))))
  }

  /** A minute timeframe is refused before any milestone is looked at. */
  lemma MinutesRefused(n: nat, show: Timeframe -> string, ms: seq<Milestone>, now: int)
    ensures GetMilestone(Timeframe(Minutes, n), show, ms, now) == Err(GetMilestoneError(Timeframe(Minutes, n), MinuteMilestone))
  {
  }

  /** With no milestone of that title the error lists every existing title. */
  lemma AbsentListsAllTitles(tf: Timeframe, show: Timeframe -> string, ms: seq<Milestone>, now: int)
    requires tf.designator != Minutes
    requires forall j :: 0 <= j < |ms| ==> ms[j].title != show(tf)
    ensures var r := GetMilestone(tf, show, ms, now);
            r.Err? && r.error.source.MilestoneNotFound? &&
            |r.error.source.existing| == |ms| &&
            forall j :: 0 <= j < |ms| ==> r.error.source.existing[j] == ms[j].title
  {
  }

  /**
   * The outcome for a found milestone: no due date is MissingDueOn; a due
   * date an hour or more in the past is MilestoneOutdated; otherwise its
   * description, or MissingDescription. A milestone less than an hour
   * overdue still counts, because whole hours are rounded toward zero.
   */
  lemma FoundOutcome(tf: Timeframe, show: Timeframe -> string, ms: seq<Milestone>, now: int, k: nat)
    requires tf.designator != Minutes
    requires k < |ms| && ms[k].title == show(tf)
    requires forall j :: 0 <= j < k ==> ms[j].title != show(tf)
    ensures var r := GetMilestone(tf, show, ms, now);
            var m := ms[k];
            (m.dueOn.None? ==> r == Err(GetMilestoneError(tf, MissingDueOn))) &&
            (m.dueOn.Some? && m.dueOn.value + SECONDS_PER_HOUR <= now ==>
               r == Err(GetMilestoneError(tf, MilestoneOutdated(m.dueOn.value)))) &&
            (m.dueOn.Some? && now < m.dueOn.value + SECONDS_PER_HOUR ==>
               r == (if m.description.Some? then Ok(m.description.value) else Err(GetMilestoneError(tf, MissingDescription))))
  {
    var i := FindTitled(ms, show(tf));
    assert i.Some? && i.value == k;
  }

  /** A description is returned only for a titled milestone whose due date is less than an hour past. */
  lemma OkMeansCurrent(tf: Timeframe, show: Timeframe -> string, ms: seq<Milestone>, now: int)
    requires GetMilestone(tf, show, ms, now).Ok?
    ensures tf.designator != Minutes
    ensures exists k :: 0 <= k < |ms| && ms[k].title == show(tf) && ms[k].dueOn.Some? &&
                        now < ms[k].dueOn.value + SECONDS_PER_HOUR &&
                        ms[k].description == Some(GetMilestone(tf, show, ms, now).value)
  {
    var k := FindTitled(ms, show(tf)).value;
    assert ms[k].title == show(tf);
  }

  // ---------------------------------------------------------------------
  // Messages

  /** `Vec<String>`'s debug form: the titles quoted, between brackets. */
  function QuotedList(titles: seq<string>): string {
    "[" + Join(seq(|titles|, j requires 0 <= j < |titles| => "\"" + titles[j] + "\""), ", ") + "]"
  }

  /**
   * The display text of each error kind; `showDate` renders a due date. A
   * missing milestone's text ends with the list of every existing title.
   */
  function SourceMessage(e: MilestoneError, showDate: int -> string): (r: string)
    ensures e.MilestoneNotFound? ==> EndsWith(r, QuotedList(e.existing))
  {
    match e
      case MissingDueOn => "Milestone is missing due_on date"
      case MilestoneOutdated(due) => "Milestone is outdated (due_on: " + showDate(due) + "). Try moving it to a later date."
      case MinuteMilestone => "Requested milestone on minute-designated timeframe (`m`). You likely meant to request Monthly (`M`)."
      case MilestoneNotFound(existing) => "Milestone not found. Here are all the existing milestones:\n" + QuotedList(existing)
      case MissingDescription => "Missing description"
  }

  const ERROR_ON: string := "Error on `"
  const MILESTONE_SEP: string := "` milestone: "

  /**
   * The display text of a failed lookup: the timeframe between backticks,
   * the word "milestone", then the error kind's own text.
   */
  function Message(e: GetMilestoneError, show: Timeframe -> string, showDate: int -> string): (r: string)
    ensures StartsWith(r, ERROR_ON)
    ensures StartsWith(r[|ERROR_ON|..], show(e.requestedTf) + MILESTONE_SEP)
    ensures EndsWith(r, SourceMessage(e.source, showDate))
    ensures |r| == |ERROR_ON| + |show(e.requestedTf)| + |MILESTONE_SEP| + |SourceMessage(e.source, showDate)|
  {
    ERROR_ON + show(e.requestedTf) + MILESTONE_SEP + SourceMessage(e.source, showDate)
  }

  /**
   * A message reads back: when the timeframe's text holds no backtick, it is
   * the text up to the first backtick after the prefix, and the error kind's
   * text is all that follows the separator.
   */
  lemma MessageReadBack(e: GetMilestoneError, show: Timeframe -> string, showDate: int -> string)
    requires '`' !in show(e.requestedTf)
    ensures var r := Message(e, show, showDate);
            FindChar(r[|ERROR_ON|..], '`') == Some(|show(e.requestedTf)|) &&
            r[|ERROR_ON| + |show(e.requestedTf)| + |MILESTONE_SEP|..] == SourceMessage(e.source, showDate)
  {
    var t := show(e.requestedTf);
    var m := SourceMessage(e.source, showDate);
    var r := Message(e, show, showDate);
    assert r[|ERROR_ON|..] == t + ['`'] + (MILESTONE_SEP[1..] + m);
    FindCharAfter(t, '`', MILESTONE_SEP[1..] + m);
  }

  /** Two failures with backtick-free timeframe texts have the same message only when both parts agree. */
  lemma MessageDetermines(e1: GetMilestoneError, e2: GetMilestoneError, show: Timeframe -> string, showDate: int -> string)
    requires '`' !in show(e1.requestedTf) && '`' !in show(e2.requestedTf)
    requires Message(e1, show, showDate) == Message(e2, show, showDate)
    ensures show(e1.requestedTf) == show(e2.requestedTf)
    ensures SourceMessage(e1.source, showDate) == SourceMessage(e2.source, showDate)
  {
    var r := Message(e1, show, showDate);
    var t1, t2 := show(e1.requestedTf), show(e2.requestedTf);
    assert |t1| == |t2| by {
      MessageReadBack(e1, show, showDate);
      MessageReadBack(e2, show, showDate);
    }
    assert t1 == r[|ERROR_ON|..][..|t1|];
    assert t2 == r[|ERROR_ON|..][..|t2|];
    MessageReadBack(e1, show, showDate);
    MessageReadBack(e2, show, showDate);
  }

  // ---------------------------------------------------------------------
  // Health check

  /** The messages of the failed lookups, in order. */
  function FailureMessages(results: seq<Result<string, GetMilestoneError>>, show: Timeframe -> string, showDate: int -> string): (r: seq<string>)
    ensures |r| <= |results|
    ensures r == [] <==> forall j :: 0 <= j < |results| ==> results[j].Ok?
    ensures forall k :: 0 <= k < |r| ==> StartsWith(r[k], ERROR_ON)
  {
    if results == [] then []
    else
      var prev := FailureMessages(results[..|results| - 1], show, showDate);
      var last := results[|results| - 1];
      if last.Ok? then prev else prev + [Message(last.error, show, showDate)]
  }

  /** Each failure message is the full text of one of the failed lookups. */
  lemma {:induction false} FailureMessagesFrom(results: seq<Result<string, GetMilestoneError>>, show: Timeframe -> string, showDate: int -> string, k: nat)
    requires k < |FailureMessages(results, show, showDate)|
    ensures exists j :: 0 <= j < |results| && results[j].Err? && FailureMessages(results, show, showDate)[k] == Message(results[j].error, show, showDate)
  {
    var init := results[..|results| - 1];
    var prev := FailureMessages(init, show, showDate);
    if k < |prev| {
      FailureMessagesFrom(init, show, showDate, k);
      var j :| 0 <= j < |init| && init[j].Err? && prev[k] == Message(init[j].error, show, showDate);
      assert results[j] == init[j];
    } else {
      assert results[|results| - 1].Err?;
    }
  }

  /**
   * The status the health check writes: "OK", or the failure messages one
   * per line. It is "OK" exactly when every lookup succeeded.
   */
  function HealthReport(results: seq<Result<string, GetMilestoneError>>, show: Timeframe -> string, showDate: int -> string): (r: string)
    ensures r == OK <==> forall j :: 0 <= j < |results| ==> results[j].Ok?
  {
    var failures := FailureMessages(results, show, showDate);
    FailuresNotOk(failures);
    if failures == [] then OK else Join(failures, [NL])
  }

  /** The lookups of every key timeframe. */
  function KeyResults(show: Timeframe -> string, ms: seq<Milestone>, now: int): (r: seq<Result<string, GetMilestoneError>>)
    ensures |r| == |KEY_MILESTONES|
    ensures forall j :: 0 <= j < |r| ==> r[j] == GetMilestone(KEY_MILESTONES[j], show, ms, now)
  {
    seq(|KEY_MILESTONES|, j requires 0 <= j < |KEY_MILESTONES| => GetMilestone(KEY_MILESTONES[j], show, ms, now))
  }

  /** `healthcheck`, without the file it writes: the loop that builds the status text. */
  method Healthcheck(show: Timeframe -> string, showDate: int -> string, ms: seq<Milestone>, now: int) returns (health: string)
    ensures health == HealthReport(KeyResults(show, ms, now), show, showDate)
  {
    var results := KeyResults(show, ms, now);
    health := [];
    for i := 0 to |results|
      invariant health == Join(FailureMessages(results[..i], show, showDate), [NL])
    {
      FailureMessagesStep(results, i, show, showDate);
      var r := results[i];
      if r.Err? {
        var failures := FailureMessages(results[..i], show, showDate);
        if failures != [] {
          JoinAppend(failures, Message(r.error, show, showDate), [NL]);
        }
        health := AppendLine(health, Message(r.error, show, showDate));
      }
    }
    assert results[..|results|] == results;
    if health == [] {
      health := OK;
    }
  }

  /** One more lookup adds its message when it failed and nothing otherwise. */
  lemma FailureMessagesStep(results: seq<Result<string, GetMilestoneError>>, i: nat, show: Timeframe -> string, showDate: int -> string)
    requires i < |results|
    ensures FailureMessages(results[..i + 1], show, showDate) ==
      if results[i].Ok? then FailureMessages(results[..i], show, showDate)
      else FailureMessages(results[..i], show, showDate) + [Message(results[i].error, show, showDate)]
  {
    assert results[..i + 1][..i] == results[..i];
  }

  /** Appends a line, with a line break before it unless the text is empty. */
  method AppendLine(text: string, line: string) returns (r: string)
    ensures text == [] ==> r == line
    ensures text != [] ==> r == text + [NL] + line
  {
    r := text;
    if r != [] {
      r := r + [NL];
    }
    r := r + line;
  }

  /** Joined failure messages are empty exactly when there are none. */
  lemma {:induction false} JoinEmptyIff(failures: seq<string>)
    requires forall k :: 0 <= k < |failures| ==> StartsWith(failures[k], ERROR_ON)
    ensures Join(failures, [NL]) == [] <==> failures == []
    ensures failures != [] ==> StartsWith(Join(failures, [NL]), ERROR_ON)
  {
    if |failures| > 1 {
      assert Join(failures, [NL]) == failures[0] + [NL] + Join(failures[1..], [NL]);
      assert Join(failures, [NL])[..|failures[0]|] == failures[0];
    }
  }

  /** Failure messages, joined, never read "OK". */
  lemma FailuresNotOk(failures: seq<string>)
    requires forall k :: 0 <= k < |failures| ==> StartsWith(failures[k], ERROR_ON)
    ensures failures != [] ==> Join(failures, [NL]) != OK
  {
    if failures != [] {
      JoinEmptyIff(failures);
      var h := Join(failures, [NL]);
      assert h[0] == ERROR_ON[0] != OK[0];
    }
  }

  /** The status is "OK" exactly when every key milestone resolves. */
  lemma HealthyIff(show: Timeframe -> string, showDate: int -> string, ms: seq<Milestone>, now: int)
    ensures HealthReport(KeyResults(show, ms, now), show, showDate) == OK <==>
            forall j :: 0 <= j < |KEY_MILESTONES| ==> GetMilestone(KEY_MILESTONES[j], show, ms, now).Ok?
  {
  }

  /** Without a milestone titled after the day timeframe, the status is never "OK". */
  lemma MissingDayMilestoneUnhealthy(show: Timeframe -> string, showDate: int -> string, ms: seq<Milestone>, now: int)
    requires forall j :: 0 <= j < |ms| ==> ms[j].title != show(Timeframe(Days, 1))
    ensures HealthReport(KeyResults(show, ms, now), show, showDate) != OK
  {
    HealthyIff(show, showDate, ms, now);
    assert GetMilestone(KEY_MILESTONES[0], show, ms, now).Err?;
  }
}
