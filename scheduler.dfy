/** The scheduler (src/scheduler.js): two cron jobs in the Australia/Brisbane
    time zone. The race-list job fires at 9:00 every day. The details job
    fires at the top of every hour and runs the details scraper only from
    9 to 23 o'clock inclusive. Each job catches its own errors, logs them and
    never rethrows. The wall-clock time (already in that zone) is an input. */
module Scheduler {
  import opened Common

  /** One field of a cron expression: `*`, or a fixed number. */
  datatype CronField = Every | At(n: nat)

  /** A five-field cron expression: minute, hour, day of month, month, day of week. */
  datatype Cron = Cron(minute: CronField, hour: CronField, dayOfMonth: CronField, month: CronField, dayOfWeek: CronField)

  /** A moment in the schedule's time zone. */
  datatype Moment = Moment(minute: nat, hour: nat, dayOfMonth: nat, month: nat, dayOfWeek: nat)

  predicate FieldMatches(f: CronField, v: nat)
  {
    f.Every? || f.n == v
  }

  /** The expression fires at `t` when every field matches. */
  predicate Fires(c: Cron, t: Moment)
  {
    && FieldMatches(c.minute, t.minute) && FieldMatches(c.hour, t.hour)
    && FieldMatches(c.dayOfMonth, t.dayOfMonth) && FieldMatches(c.month, t.month)
    && FieldMatches(c.dayOfWeek, t.dayOfWeek)
  }

  /** A field as written: `*` or a run of digits. */
  function ParseField(s: string): (f: Option<CronField>)
    ensures f.Some? && f.value.At? ==> s != [] && AllDigits(s) && f.value.n == DecimalValue(s)
    ensures f == Some(Every) <==> s == "*"
  {
    if s == "*" then Some(Every)
    else if s != [] && AllDigits(s) then Some(At(DecimalValue(s)))
    else None
  }

  /** The five space-separated fields of an expression, or nothing when it
      does not have exactly five well-formed ones. */
  function ParseCron(s: string): (c: Option<Cron>)
    ensures c.Some? <==> |SplitWhitespace(s)| == 5 && forall k :: 0 <= k < 5 ==> ParseField(SplitWhitespace(s)[k]).Some?
    ensures c.Some? ==>
      var parts := SplitWhitespace(s);
      && ParseField(parts[0]) == Some(c.value.minute) && ParseField(parts[1]) == Some(c.value.hour)
      && ParseField(parts[2]) == Some(c.value.dayOfMonth) && ParseField(parts[3]) == Some(c.value.month)
      && ParseField(parts[4]) == Some(c.value.dayOfWeek)
  {
    var parts := SplitWhitespace(s);
    if |parts| != 5 then None
    else match (ParseField(parts[0]), ParseField(parts[1]), ParseField(parts[2]), ParseField(parts[3]), ParseField(parts[4]))
      case (Some(mi), Some(h), Some(dm), Some(mo), Some(dw)) => Some(Cron(mi, h, dm, mo, dw))
      case _ => None
  }

  const RaceListCron := "0 9 * * *"
  const DetailsCron := "0 * * * *"

  /** Minute 0 of hour 9, every day. */
  const RaceListSchedule := Cron(At(0), At(9), Every, Every, Every)
  /** Minute 0 of every hour. */
  const DetailsSchedule := Cron(At(0), Every, Every, Every, Every)

  /** Splitting a single non-space character followed by a space and more text. */
  lemma {:induction false} SplitFirstField(c: char, rest: string)
    requires !IsWhitespace(c)
    ensures SplitWhitespace([c, ' '] + rest) == [[c]] + SplitWhitespace(rest)
  {
    var s := [c, ' '] + rest;
    var tail := s[1..];
    assert tail == [' '] + rest && tail[1..] == rest;
    assert IsWhitespace(tail[0]);
    var split := SplitWhitespace(tail);
    assert split == [""] + SplitWhitespace(rest);
    assert SplitWhitespace(s) == [[s[0]] + split[0]] + split[1..];
    assert [s[0]] + split[0] == [c];
    assert split[1..] == SplitWhitespace(rest);
  }

  /** Five one-character fields separated by single spaces. */
  lemma {:induction false} SplitFiveFields(a: char, b: char, c: char, d: char, e: char)
    requires !IsWhitespace(a) && !IsWhitespace(b) && !IsWhitespace(c) && !IsWhitespace(d) && !IsWhitespace(e)
    ensures SplitWhitespace([a, ' '] + ([b, ' '] + ([c, ' '] + ([d, ' '] + [e])))) == [[a], [b], [c], [d], [e]]
  {
    var s1: string := [e];
    assert SplitWhitespace(s1) == [[e]] by {
      assert s1[1..] == "";
      assert SplitWhitespace(s1[1..]) == [""];
      assert [s1[0]] + "" == [e];
    }
    SplitFirstField(d, s1);
    SplitFirstField(c, [d, ' '] + s1);
    SplitFirstField(b, [c, ' '] + ([d, ' '] + s1));
    SplitFirstField(a, [b, ' '] + ([c, ' '] + ([d, ' '] + s1)));
  }

  /** The race-list expression splits into `0`, `9` and three stars. */
  lemma RaceListCronFields()
    ensures SplitWhitespace(RaceListCron) == ["0", "9", "*", "*", "*"]
  {
    SplitFiveFields('0', '9', '*', '*', '*');
    assert RaceListCron == ['0', ' '] + (['9', ' '] + (['*', ' '] + (['*', ' '] + ['*'])));
  }

  /** The details expression splits into `0` and four stars. */
  lemma DetailsCronFields()
    ensures SplitWhitespace(DetailsCron) == ["0", "*", "*", "*", "*"]
  {
    SplitFiveFields('0', '*', '*', '*', '*');
    assert DetailsCron == ['0', ' '] + (['*', ' '] + (['*', ' '] + (['*', ' '] + ['*'])));
  }

  /** The fields the two expressions use. */
  lemma FieldValues()
    ensures ParseField("0") == Some(At(0)) && ParseField("9") == Some(At(9)) && ParseField("*") == Some(Every)
  {
    OneDigitField('0');
    OneDigitField('9');
  }

  /** The race-list expression means minute 0 of hour 9, every day. */
  lemma RaceListCronParses()
    ensures ParseCron(RaceListCron) == Some(RaceListSchedule)
  {
    RaceListCronFields();
    FieldValues();
    FiveFields(RaceListCron, Some(At(0)), Some(At(9)), Some(Every), Some(Every), Some(Every));
  }

  /** The details expression means minute 0 of every hour. */
  lemma DetailsCronParses()
    ensures ParseCron(DetailsCron) == Some(DetailsSchedule)
  {
    DetailsCronFields();
    FieldValues();
    FiveFields(DetailsCron, Some(At(0)), Some(Every), Some(Every), Some(Every), Some(Every));
  }

  /** A one-digit field stands for that digit's value. */
  lemma OneDigitField(c: char)
    requires IsDigit(c)
    ensures ParseField([c]) == Some(At(DigitValue(c)))
  {
    var s: string := [c];
    assert s[..0] == [] && s[0] == c;
    assert DecimalValue(s) == DigitValue(c);
  }

  /** An expression of five fields that each parse is the schedule they make. */
  lemma FiveFields(s: string, f0: Option<CronField>, f1: Option<CronField>, f2: Option<CronField>,
                   f3: Option<CronField>, f4: Option<CronField>)
    requires |SplitWhitespace(s)| == 5
    requires ParseField(SplitWhitespace(s)[0]) == f0 && ParseField(SplitWhitespace(s)[1]) == f1
    requires ParseField(SplitWhitespace(s)[2]) == f2 && ParseField(SplitWhitespace(s)[3]) == f3
    requires ParseField(SplitWhitespace(s)[4]) == f4
    requires f0.Some? && f1.Some? && f2.Some? && f3.Some? && f4.Some?
    ensures ParseCron(s) == Some(Cron(f0.value, f1.value, f2.value, f3.value, f4.value))
  {
  }

  /** The race-list job fires exactly at 9:00. */
  lemma RaceListFiresAtNine(t: Moment)
    ensures Fires(RaceListSchedule, t) <==> t.minute == 0 && t.hour == 9
  {
  }

  /** The details trigger fires exactly on the hour. */
  lemma DetailsFiresHourly(t: Moment)
    ensures Fires(DetailsSchedule, t) <==> t.minute == 0
  {
  }

  // ---------------------------------------------------------------------------
  // What a tick does

  /** How an awaited scraper call ends. */
  datatype JobResult = Completed | Threw(message: string)

  /** What a tick of a job leaves behind: the scraper was not started (the
      hour is outside the window), or it ran and completed, or it ran and the
      error was caught and logged; or, in the callback as written, a
      `RangeError` escaped before the scraper was started. */
  datatype TickOutcome = SkippedOutsideWindow | Succeeded | FailedLogged(message: string) | ThrewBeforeTry

  /** The details window: 9 to 23 o'clock, both ends included. */
  predicate InDetailsWindow(hour: nat)
  {
    hour >= 9 && hour <= 23
  }

  /** The try/catch around an awaited job. */
  function Contain(result: JobResult): (o: TickOutcome)
    ensures o != SkippedOutsideWindow && o != ThrewBeforeTry
    ensures o == Succeeded <==> result == Completed
    ensures result.Threw? ==> o == FailedLogged(result.message)
  {
    match result
    case Completed => Succeeded
    case Threw(message) => FailedLogged(message)
  }

  /** The race-list callback at a moment: nothing when the expression does not
      fire, otherwise the contained outcome of the scraper run. */
  function RaceListTick(t: Moment, result: JobResult): Option<TickOutcome>
  {
    if Fires(RaceListSchedule, t) then Some(Contain(result)) else None
  }

  /** The details callback at a moment: nothing when the expression does not
      fire; when it fires, a logged skip outside the window, otherwise the
      contained outcome of the scraper run. */
  function DetailsTick(t: Moment, result: JobResult): Option<TickOutcome>
  {
    if !Fires(DetailsSchedule, t) then None
    else if InDetailsWindow(t.hour) then Some(Contain(result))
    else Some(SkippedOutsideWindow)
  }

  /** The tick started the scraper. */
  predicate Attempted(o: Option<TickOutcome>)
  {
    o.Some? && (o.value.Succeeded? || o.value.FailedLogged?)
  }

  /** The details scraper is started exactly at minute 0 of the hours 9 to 23. */
  lemma DetailsRunsIffInWindow(t: Moment, result: JobResult)
    ensures Attempted(DetailsTick(t, result)) <==> t.minute == 0 && 9 <= t.hour <= 23
  {
  }

  /** The race-list scraper is started exactly at 9:00. */
  lemma RaceListRunsAtNine(t: Moment, result: JobResult)
    ensures Attempted(RaceListTick(t, result)) <==> t.minute == 0 && t.hour == 9
  {
  }

  /** A thrown error is logged with its message and goes no further. */
  lemma ErrorsAreContained(t: Moment, message: string)
    ensures DetailsTick(t, Threw(message)) == None
         || DetailsTick(t, Threw(message)) == Some(SkippedOutsideWindow)
         || DetailsTick(t, Threw(message)) == Some(FailedLogged(message))
    ensures RaceListTick(t, Threw(message)) == None
         || RaceListTick(t, Threw(message)) == Some(FailedLogged(message))
  {
  }

  // ---------------------------------------------------------------------------
  // The ticks as written: the hour read back from a formatted string

  /** The hour of `getAESTTime()`. It formats the Brisbane time as an `en-AU`
      string (day/month/year) and parses that string back with `new Date`,
      which reads a slashed date as month/day/year. The parse succeeds and
      keeps the hour only when the day of month is at most 12; from the 13th
      on the result is an invalid date, whose hour is `NaN`. */
  function ReparsedHour(t: Moment): (h: Option<nat>)
    ensures h.Some? <==> 1 <= t.dayOfMonth <= 12
    ensures h.Some? ==> h.value == t.hour
  {
    if 1 <= t.dayOfMonth <= 12 then Some(t.hour) else None
  }

  /** The race-list callback as written: `now.toISOString()` runs before the
      `try`, and on an invalid date it throws, so the scraper is not started
      and the error is not caught by the callback. */
  function RaceListTickAsWritten(t: Moment, result: JobResult): Option<TickOutcome>
  {
    if !Fires(RaceListSchedule, t) then None
    else if ReparsedHour(t).None? then Some(ThrewBeforeTry)
    else Some(Contain(result))
  }

  /** The details callback as written: a `NaN` hour fails both comparisons,
      so the run is skipped as if outside the window. */
  function DetailsTickAsWritten(t: Moment, result: JobResult): Option<TickOutcome>
  {
    if !Fires(DetailsSchedule, t) then None
    else match ReparsedHour(t)
      case None => Some(SkippedOutsideWindow)
      case Some(hour) => if InDetailsWindow(hour) then Some(Contain(result)) else Some(SkippedOutsideWindow)
  }

  /** As written, neither scraper is ever started from the 13th of a month on. */
  lemma AsWrittenIdleFromThirteenth(t: Moment, result: JobResult)
    requires t.dayOfMonth >= 13
    ensures !Attempted(RaceListTickAsWritten(t, result))
    ensures !Attempted(DetailsTickAsWritten(t, result))
    ensures Fires(RaceListSchedule, t) ==> RaceListTickAsWritten(t, result) == Some(ThrewBeforeTry)
  {
  }

  /** The 16th of October at 9:00 and 10:00: the intended ticks start the
      scrapers, the ticks as written do not. */
  lemma AsWrittenMissesSixteenth(result: JobResult)
    ensures Attempted(RaceListTick(Moment(0, 9, 16, 10, 5), result))
    ensures !Attempted(RaceListTickAsWritten(Moment(0, 9, 16, 10, 5), result))
    ensures Attempted(DetailsTick(Moment(0, 10, 16, 10, 5), result))
    ensures !Attempted(DetailsTickAsWritten(Moment(0, 10, 16, 10, 5), result))
  {
  }

  /** On days 1 to 12 the ticks as written do what was intended. */
  lemma AsWrittenAgreesToTwelfth(t: Moment, result: JobResult)
    requires 1 <= t.dayOfMonth <= 12
    ensures RaceListTickAsWritten(t, result) == RaceListTick(t, result)
    ensures DetailsTickAsWritten(t, result) == DetailsTick(t, result)
  {
  }
}
