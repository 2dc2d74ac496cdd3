/**
 * Trigger-time calculation: countdown strings, the first trigger of a new task, and the
 * bounded search over cron candidates filtered by start/end time, lunar date and day type.
 * The cron library, the lunar calendar and the holiday table are parameters.
 */
module DateCalculator {
  import opened Wrappers
  import opened Text
  import opened CivilTime
  import opened Models
  import opened Schemas

  const DefaultMaxAttempts: nat := 366 * 2

  /**
   * The cron library: whether an expression can be parsed, and the fire time following an
   * instant (`None` where asking for the next time raises).
   */
  datatype CronEngine = CronEngine(parses: string -> bool, next: (string, int) -> Option<int>)

  /** Each fire time lies strictly after the instant it follows. */
  ghost predicate StrictlyIncreasing(e: CronEngine)
  {
    forall x: string, t: int :: e.next(x, t).Some? ==> e.next(x, t).value > t
  }

  /** Solar-to-lunar conversion of a date: the lunar month and day, or the kind of error it raises. */
  datatype LunarOutcome = LunarMonthDay(month: int, day: int) | LunarValueError | LunarOtherError

  type LunarConverter = Date -> LunarOutcome

  /** The calendar table: the day records stored for a year. */
  type HolidayGetter = int -> seq<HolidayDate>

  datatype TriggerResult = TriggerResult(trigger: Option<int>, status: TaskStatus)

  // ---------------------------------------------------------------- countdown

  datatype CountdownError = InvalidFormat | EmptyDuration

  function GroupSeconds(g: Option<string>, weight: nat): nat
  {
    if g.Some? && AllDigits(g.value) then DigitsValue(g.value) * weight else 0
  }

  /** The `timedelta` of the captured groups, in seconds. */
  function TotalSeconds(p: CountdownParts): nat
  {
    GroupSeconds(p.days, SecondsPerDay) + GroupSeconds(p.hours, SecondsPerHour) +
    GroupSeconds(p.minutes, SecondsPerMinute) + GroupSeconds(p.seconds, 1)
  }

  /** `parse_countdown_duration`: the lower-cased text must match; at least one group must take part. */
  function ParseCountdownDuration(s: string): Result<int, CountdownError>
  {
    match MatchCountdownPattern(Lower(s))
    case None => Err(InvalidFormat)
    case Some(p) => if HasUnit(p) then Ok(TotalSeconds(p)) else Err(EmptyDuration)
  }

  lemma {:induction false} LowerOfRenderGroups(gs: seq<Option<string>>, i: nat)
    requires |gs| + i == 4 && GroupsOk(gs)
    ensures Lower(RenderGroups(gs, i)) == RenderGroups(gs, i)
    decreases |gs|
  {
    RenderGroupsChars(gs, i);
    var r := RenderGroups(gs, i);
    forall k | 0 <= k < |r| ensures LowerChar(r[k]) == r[k] {
      assert r[k] in r;
    }
  }

  /**
   * The outcome for a text that renders well-formed groups `p`, whatever the letter case and
   * with or without one final newline: their total when a unit is present, else the empty error.
   */
  lemma CountdownParse(s: string, p: CountdownParts)
    requires WellFormedParts(p)
    requires Lower(s) == Render(p) || Lower(s) == Render(p) + "\n"
    ensures ParseCountdownDuration(s) == if HasUnit(p) then Ok(TotalSeconds(p)) else Err(EmptyDuration)
  {
    CountdownPatternComplete(p);
  }

  /** A text that renders no well-formed groups is rejected as malformed, and only such a text is. */
  lemma CountdownRejects(s: string)
    ensures ParseCountdownDuration(s) == Err(InvalidFormat) <==>
      forall p :: WellFormedParts(p) ==> Lower(s) != Render(p) && Lower(s) != Render(p) + "\n"
  {
    if ParseCountdownDuration(s) != Err(InvalidFormat) {
      var p := MatchCountdownPattern(Lower(s)).value;
      CountdownPatternSound(Lower(s), p);
    } else {
      forall p | WellFormedParts(p)
        ensures Lower(s) != Render(p) && Lower(s) != Render(p) + "\n"
      {
        CountdownPatternComplete(p);
      }
    }
  }

  /** Rendering groups and parsing the text back gives their total. */
  lemma CountdownRoundTrip(p: CountdownParts)
    requires WellFormedParts(p) && HasUnit(p)
    ensures ParseCountdownDuration(Render(p)) == Ok(TotalSeconds(p))
  {
    LowerOfRenderGroups(Groups(p), 0);
    CountdownParse(Render(p), p);
  }

  /** A text whose lower-cased form renders groups with a unit parses to their total. */
  lemma ParsesTo(s: string, p: CountdownParts, seconds: int)
    requires WellFormedParts(p) && HasUnit(p) && Lower(s) == Render(p) && TotalSeconds(p) == seconds
    ensures ParseCountdownDuration(s) == Ok(seconds)
  {
    CountdownParse(s, p);
  }

  /** "1d2h3m4s" is one day, two hours, three minutes and four seconds. */
  lemma CountdownExampleFull()
    ensures ParseCountdownDuration("1d2h3m4s") == Ok(93784)
  {
    var full := CountdownParts(Some("1"), Some("2"), Some("3"), Some("4"));
    assert RenderGroups([Some("4")], 3) == "4s" by { assert [Some("4")][1..] == []; }
    assert RenderGroups([Some("3"), Some("4")], 2) == "3m4s" by { assert [Some("3"), Some("4")][1..] == [Some("4")]; }
    assert RenderGroups([Some("2"), Some("3"), Some("4")], 1) == "2h3m4s" by {
      assert [Some("2"), Some("3"), Some("4")][1..] == [Some("3"), Some("4")];
    }
    assert Render(full) == "1d2h3m4s" by { assert Groups(full)[1..] == [Some("2"), Some("3"), Some("4")]; }
    assert DigitsValue("1") == 1 && DigitsValue("2") == 2 && DigitsValue("3") == 3 && DigitsValue("4") == 4 by {
      assert "1"[..0] == "" && "2"[..0] == "" && "3"[..0] == "" && "4"[..0] == "";
    }
    LowerOfRenderGroups(Groups(full), 0);
    assert TotalSeconds(full) == 93784;
    ParsesTo("1d2h3m4s", full, 93784);
  }

  /** Units are matched case-insensitively. */
  lemma CountdownExampleUpperCase()
    ensures ParseCountdownDuration("1D2H") == Ok(93600)
  {
    var p := CountdownParts(Some("1"), Some("2"), None, None);
    var absent: seq<Option<string>> := [None, None];
    assert RenderGroups(absent, 2) == "" by { assert absent[1..] == [None]; }
    assert RenderGroups([Some("2"), None, None], 1) == "2h" by { assert [Some("2"), None, None][1..] == [None, None]; }
    assert Render(p) == "1d2h" by { assert Groups(p)[1..] == [Some("2"), None, None]; }
    var upper, lower := "1D2H", "1d2h";
    assert Lower(upper) == lower by {
      var l := Lower(upper);
      assert l[0] == LowerChar('1') == '1' && l[1] == LowerChar('D') == 'd';
      assert l[2] == LowerChar('2') == '2' && l[3] == LowerChar('H') == 'h';
    }
    assert DigitsValue("1") == 1 && DigitsValue("2") == 2 by { assert "1"[..0] == "" && "2"[..0] == ""; }
    assert TotalSeconds(p) == 93600;
    ParsesTo(upper, p, 93600);
  }

  /** "0d" has a captured group, so it is a zero duration, not an empty one. */
  lemma CountdownExampleZero()
    ensures ParseCountdownDuration("0d") == Ok(0)
  {
    var zero := CountdownParts(Some("0"), None, None, None);
    var absent: seq<Option<string>> := [None, None, None];
    assert RenderGroups(absent, 1) == "" by {
      assert absent[1..] == [None, None] && absent[1..][1..] == [None];
    }
    assert Render(zero) == "0d" by { assert Groups(zero)[1..] == absent; }
    assert DigitsValue("0") == 0 by { assert "0"[..0] == ""; }
    LowerOfRenderGroups(Groups(zero), 0);
    assert TotalSeconds(zero) == 0;
    ParsesTo("0d", zero, 0);
  }

  /** The empty text matches the pattern but has no unit. */
  lemma CountdownExampleEmpty()
    ensures ParseCountdownDuration("") == Err(EmptyDuration)
  {
    var none := CountdownParts(None, None, None, None);
    assert Lower("") == Render(none);
    CountdownParse("", none);
  }

  /**
   * The countdown validator admits only texts the parser does not call malformed.
   */
  lemma CountdownValidatorAgreesWithParser(c: CountdownConfig)
    requires ValidateCountdown(c).Ok?
    ensures ParseCountdownDuration(c.countdownDuration) != Err(InvalidFormat)
  {
  }

  /**
   * A lone newline passes the countdown validator, since the pattern's `$` also matches
   * before a final newline, but the parser finds no unit in it. The calculation then yields
   * FAILED without a trigger, and task creation refuses such a task with 400.
   */
  lemma NewlineOnlyCountdown()
    ensures ValidateCountdown(CountdownConfig("\n")).Ok?
    ensures ParseCountdownDuration("\n") == Err(EmptyDuration)
  {
    var none := CountdownParts(None, None, None, None);
    assert Lower("\n") == Render(none) + "\n";
    CountdownParse("\n", none);
  }

  // ---------------------------------------------------------------- cron search

  /** The first record of a year's table stored for `date`. */
  function FindDay(days: seq<HolidayDate>, date: string): (r: Option<HolidayDate>)
    ensures r.Some? ==> r.value in days && r.value.date == date
    ensures r.None? <==> forall i :: 0 <= i < |days| ==> days[i].date != date
  {
    if days == [] then None
    else if days[0].date == date then Some(days[0])
    else FindDay(days[1..], date)
  }

  /** One `limit_days` entry, compared upper-cased, against the day record and the candidate's weekday. */
  predicate LimitMatches(kind: string, h: HolidayDate, candidate: int)
  {
    var k := Upper(kind);
    (k == "WORKDAY" && IsWorkday(h)) ||
    (k == "HOLIDAY" && IsHoliday(h)) ||
    (k == "WEEKEND" && IsWeekend(h)) ||
    (k == "WEEKDAY_ONLY" && 1 <= IsoWeekday(candidate) <= 5)
  }

  predicate AnyLimitMatches(limits: seq<string>, h: HolidayDate, candidate: int)
  {
    exists i :: 0 <= i < |limits| && LimitMatches(limits[i], h, candidate)
  }

  /** The rule restricts day types, which is when the calendar table is consulted. */
  predicate NeedsCalendar(c: CronConfig)
  {
    c.limitDays.Some? && c.limitDays.value != []
  }

  /** What the search does with one candidate: go on to the next one, or stop with a result. */
  datatype Verdict = Skip | Stop(result: TriggerResult)

  function CandidateVerdict(c: CronConfig, candidate: int, holidays: HolidayGetter, lunar: LunarConverter): Verdict
  {
    var date := DateOf(candidate);
    var yearData := if NeedsCalendar(c) then holidays(date.year) else [];
    var dayInfo := if NeedsCalendar(c) then FindDay(yearData, DateString(date)) else None;
    if c.endTime.Some? && candidate > c.endTime.value then Stop(TriggerResult(None, Completed))
    else if c.startTime.Some? && candidate < c.startTime.value then Skip
    else if NeedsCalendar(c) && yearData == [] then Stop(TriggerResult(Some(candidate), PendingCalculation))
    else if NeedsCalendar(c) && dayInfo.None? then Stop(TriggerResult(Some(candidate), PendingCalculation))
    else if c.isLunar && (c.lunarMonth.None? || c.lunarDay.None?) then Stop(TriggerResult(None, Failed))
    else if c.isLunar && lunar(date).LunarValueError? then Stop(TriggerResult(None, Failed))
    else if c.isLunar && lunar(date).LunarOtherError? then Skip
    else if c.isLunar && !(lunar(date).month == c.lunarMonth.value && lunar(date).day == c.lunarDay.value) then Skip
    else if NeedsCalendar(c) && !AnyLimitMatches(c.limitDays.value, dayInfo.value, candidate) then Skip
    else Stop(TriggerResult(Some(candidate), Pending))
  }

  /** The outcome of asking the iterator, positioned at `cur`, for at most `attempts` more candidates. */
  function Search(c: CronConfig, e: CronEngine, holidays: HolidayGetter, lunar: LunarConverter, cur: int, attempts: nat): TriggerResult
    decreases attempts
  {
    if attempts == 0 then TriggerResult(None, Failed)
    else
      match e.next(c.cronExpression, cur)
      case None => TriggerResult(None, Failed)
      case Some(candidate) =>
        match CandidateVerdict(c, candidate, holidays, lunar)
        case Stop(r) => r
        case Skip => Search(c, e, holidays, lunar, candidate, attempts - 1)
  }

  /** One iteration of the search: a skipped candidate hands the remaining attempts on to the next one. */
  lemma SearchStep(c: CronConfig, e: CronEngine, holidays: HolidayGetter, lunar: LunarConverter, cur: int, attempts: nat, v: Verdict)
    requires attempts > 0 && e.next(c.cronExpression, cur).Some?
    requires v == CandidateVerdict(c, e.next(c.cronExpression, cur).value, holidays, lunar)
    ensures v.Stop? ==> Search(c, e, holidays, lunar, cur, attempts) == v.result
    ensures v.Skip? ==>
      Search(c, e, holidays, lunar, cur, attempts) == Search(c, e, holidays, lunar, e.next(c.cronExpression, cur).value, attempts - 1)
  {
  }

  /** Where the iterator starts: one second before `start_time` when the base lies before it. */
  function SearchBase(c: CronConfig, base: int): int
  {
    if c.startTime.Some? && base < c.startTime.value then c.startTime.value - 1 else base
  }

  /** `get_next_cron_run_time` as a function of its inputs. */
  function NextCronRun(c: CronConfig, base: int, e: CronEngine, holidays: HolidayGetter, lunar: LunarConverter, maxAttempts: nat): TriggerResult
  {
    if !e.parses(c.cronExpression) then TriggerResult(None, Failed)
    else Search(c, e, holidays, lunar, SearchBase(c, base), maxAttempts)
  }

  /** The first record for `date`, scanning the year's table. */
  method FindDayRecord(days: seq<HolidayDate>, date: string) returns (r: Option<HolidayDate>)
    ensures r == FindDay(days, date)
  {
    r := None;
    var i := 0;
    while i < |days|
      invariant 0 <= i <= |days|
      invariant FindDay(days, date) == FindDay(days[i..], date)
    {
      if days[i].date == date {
        r := Some(days[i]);
        return;
      }
      assert days[i..][1..] == days[i + 1..];
      i := i + 1;
    }
  }

  /** Whether some `limit_days` entry admits the day, stopping at the first that does. */
  method MatchLimitDays(limits: seq<string>, h: HolidayDate, candidate: int) returns (matched: bool)
    ensures matched == AnyLimitMatches(limits, h, candidate)
  {
    matched := false;
    for i := 0 to |limits|
      invariant forall j :: 0 <= j < i ==> !LimitMatches(limits[j], h, candidate)
    {
      var kind := Upper(limits[i]);
      if kind == "WORKDAY" && IsWorkday(h) { matched := true; break; }
      if kind == "HOLIDAY" && IsHoliday(h) { matched := true; break; }
      if kind == "WEEKEND" && IsWeekend(h) { matched := true; break; }
      if kind == "WEEKDAY_ONLY" && 1 <= IsoWeekday(candidate) <= 5 { matched := true; break; }
    }
  }

  /** The body of the search loop for one candidate: the filters in the order the source applies them. */
  method EvaluateCandidate(c: CronConfig, candidate: int, holidays: HolidayGetter, lunar: LunarConverter) returns (v: Verdict)
    ensures v == CandidateVerdict(c, candidate, holidays, lunar)
  {
    if c.endTime.Some? && candidate > c.endTime.value {
      return Stop(TriggerResult(None, Completed));
    }
    if c.startTime.Some? && candidate < c.startTime.value {
      return Skip;
    }
    var date := DateOf(candidate);
    var dateText := DateString(date);
    var needsCalendar := c.limitDays.Some? && |c.limitDays.value| > 0;
    var dayInfo: Option<HolidayDate> := None;
    if needsCalendar {
      var yearData := holidays(date.year);
      if |yearData| == 0 {
        return Stop(TriggerResult(Some(candidate), PendingCalculation));
      }
      dayInfo := FindDayRecord(yearData, dateText);
      if dayInfo.None? {
        return Stop(TriggerResult(Some(candidate), PendingCalculation));
      }
    }
    if c.isLunar {
      if c.lunarMonth.None? || c.lunarDay.None? {
        return Stop(TriggerResult(None, Failed));
      }
      var lunarDate := lunar(date);
      if lunarDate.LunarValueError? {
        return Stop(TriggerResult(None, Failed));
      }
      if lunarDate.LunarOtherError? {
        return Skip;
      }
      if !(lunarDate.month == c.lunarMonth.value && lunarDate.day == c.lunarDay.value) {
        return Skip;
      }
    }
    if needsCalendar {
      var matched := MatchLimitDays(c.limitDays.value, dayInfo.value, candidate);
      if !matched {
        return Skip;
      }
    }
    return Stop(TriggerResult(Some(candidate), Pending));
  }

  /**
   * `get_next_cron_run_time`: a bounded loop over the iterator's candidates. Its result is the
   * specification `NextCronRun`, whose properties are the lemmas below.
   */
  method GetNextCronRunTime(c: CronConfig, base: int, e: CronEngine, holidays: HolidayGetter, lunar: LunarConverter, maxAttempts: nat)
    returns (r: TriggerResult)
    ensures r == NextCronRun(c, base, e, holidays, lunar, maxAttempts)
  {
    var baseTime := base;
    if c.startTime.Some? && baseTime < c.startTime.value {
      baseTime := c.startTime.value - 1;
    }
    if !e.parses(c.cronExpression) {
      return TriggerResult(None, Failed);
    }
    r := SearchLoop(c, e, holidays, lunar, baseTime, maxAttempts);
  }

  /** The loop of `get_next_cron_run_time`, from the iterator's start for at most `maxAttempts` candidates. */
  method SearchLoop(c: CronConfig, e: CronEngine, holidays: HolidayGetter, lunar: LunarConverter, start: int, maxAttempts: nat)
    returns (r: TriggerResult)
    ensures r == Search(c, e, holidays, lunar, start, maxAttempts)
  {
    var cur := start;
    for attempt := 0 to maxAttempts
      invariant Search(c, e, holidays, lunar, cur, maxAttempts - attempt) == Search(c, e, holidays, lunar, start, maxAttempts)
    {
      var next, verdict := Attempt(c, e, holidays, lunar, cur, maxAttempts - attempt);
      if next.None? {
        return TriggerResult(None, Failed);
      }
      cur := next.value;
      if verdict.Stop? {
        return verdict.result;
      }
    }
    return TriggerResult(None, Failed);
  }

  /** One pass of the search loop: the iterator's next candidate and the filters' verdict on it. */
  method Attempt(c: CronConfig, e: CronEngine, holidays: HolidayGetter, lunar: LunarConverter, cur: int, attempts: nat)
    returns (next: Option<int>, verdict: Verdict)
    requires attempts > 0
    ensures next == e.next(c.cronExpression, cur)
    ensures next.None? ==> Search(c, e, holidays, lunar, cur, attempts) == TriggerResult(None, Failed)
    ensures next.Some? && verdict.Stop? ==> Search(c, e, holidays, lunar, cur, attempts) == verdict.result
    ensures next.Some? && verdict.Skip? ==> Search(c, e, holidays, lunar, cur, attempts) == Search(c, e, holidays, lunar, next.value, attempts - 1)
  {
    next := e.next(c.cronExpression, cur);
    verdict := Skip;
    if next.Some? {
      verdict := EvaluateCandidate(c, next.value, holidays, lunar);
      SearchStep(c, e, holidays, lunar, cur, attempts, verdict);
    }
  }

  // ---------------------------------------------------------------- properties of the search

  /** The `k`-th candidate the iterator yields after `cur` (`cur` itself for `k` = 0), unless it raises first. */
  function Candidate(e: CronEngine, expr: string, cur: int, k: nat): Option<int>
    decreases k
  {
    if k == 0 then Some(cur)
    else
      match e.next(expr, cur)
      case None => None
      case Some(n) => Candidate(e, expr, n, k - 1)
  }

  lemma CandidateShift(e: CronEngine, expr: string, cur: int, j: nat)
    requires j >= 1 && e.next(expr, cur).Some?
    ensures Candidate(e, expr, cur, j) == Candidate(e, expr, e.next(expr, cur).value, j - 1)
  {
  }

  /**
   * A candidate every filter admits: not past `end_time`, not before `start_time`, on the
   * configured lunar month and day, and, when day types are restricted, on a stored day
   * that one of them admits.
   */
  ghost predicate Admissible(c: CronConfig, t: int, holidays: HolidayGetter, lunar: LunarConverter)
  {
    var date := DateOf(t);
    var dayInfo := FindDay(holidays(date.year), DateString(date));
    (c.endTime.None? || t <= c.endTime.value) &&
    (c.startTime.None? || t >= c.startTime.value) &&
    (c.isLunar ==> c.lunarMonth.Some? && c.lunarDay.Some? && lunar(date) == LunarMonthDay(c.lunarMonth.value, c.lunarDay.value)) &&
    (NeedsCalendar(c) ==> dayInfo.Some? && AnyLimitMatches(c.limitDays.value, dayInfo.value, t))
  }

  /** A candidate ends the search with PENDING exactly when every filter admits it. */
  lemma PendingVerdictIffAdmissible(c: CronConfig, t: int, holidays: HolidayGetter, lunar: LunarConverter)
    ensures CandidateVerdict(c, t, holidays, lunar) == Stop(TriggerResult(Some(t), Pending)) <==> Admissible(c, t, holidays, lunar)
  {
  }

  lemma VerdictShape(c: CronConfig, t: int, holidays: HolidayGetter, lunar: LunarConverter)
    ensures var v := CandidateVerdict(c, t, holidays, lunar);
      v.Stop? ==>
        (v.result.trigger.Some? <==> v.result.status == Pending || v.result.status == PendingCalculation) &&
        v.result.status != Running &&
        (v.result.trigger.Some? ==> v.result.trigger.value == t)
  {
  }

  /** The trigger is present exactly for the two scheduling outcomes; the search never yields RUNNING. */
  lemma {:induction false} SearchOutcomeShape(c: CronConfig, e: CronEngine, holidays: HolidayGetter, lunar: LunarConverter, cur: int, attempts: nat)
    ensures var r := Search(c, e, holidays, lunar, cur, attempts);
      (r.trigger.Some? <==> r.status == Pending || r.status == PendingCalculation) && r.status != Running
    decreases attempts
  {
    if attempts > 0 && e.next(c.cronExpression, cur).Some? {
      var candidate := e.next(c.cronExpression, cur).value;
      var v := CandidateVerdict(c, candidate, holidays, lunar);
      SearchStep(c, e, holidays, lunar, cur, attempts, v);
      if v.Stop? {
        VerdictShape(c, candidate, holidays, lunar);
      } else {
        SearchOutcomeShape(c, e, holidays, lunar, candidate, attempts - 1);
      }
    }
  }

  lemma NextCronRunShape(c: CronConfig, base: int, e: CronEngine, holidays: HolidayGetter, lunar: LunarConverter, maxAttempts: nat)
    ensures var r := NextCronRun(c, base, e, holidays, lunar, maxAttempts);
      (r.trigger.Some? <==> r.status == Pending || r.status == PendingCalculation) && r.status != Running
  {
    SearchOutcomeShape(c, e, holidays, lunar, SearchBase(c, base), maxAttempts);
  }

  /**
   * PENDING_CALCULATION arises only for a rule that restricts day types, when the
   * candidate's year has no records or its date is missing from them.
   */
  lemma {:induction false} PendingCalculationNeedsCalendar(c: CronConfig, e: CronEngine, holidays: HolidayGetter, lunar: LunarConverter, cur: int, attempts: nat)
    requires Search(c, e, holidays, lunar, cur, attempts).status == PendingCalculation
    ensures var r := Search(c, e, holidays, lunar, cur, attempts);
      NeedsCalendar(c) && r.trigger.Some? &&
      var date := DateOf(r.trigger.value);
      FindDay(holidays(date.year), DateString(date)).None?
    decreases attempts
  {
    var candidate := e.next(c.cronExpression, cur).value;
    if CandidateVerdict(c, candidate, holidays, lunar).Skip? {
      PendingCalculationNeedsCalendar(c, e, holidays, lunar, candidate, attempts - 1);
    }
  }

  /** Without `limit_days` (for instance a lunar-only rule) the search never yields PENDING_CALCULATION. */
  lemma NoPendingCalculationWithoutLimitDays(c: CronConfig, base: int, e: CronEngine, holidays: HolidayGetter, lunar: LunarConverter, maxAttempts: nat)
    requires !NeedsCalendar(c)
    ensures NextCronRun(c, base, e, holidays, lunar, maxAttempts).status != PendingCalculation
  {
    if NextCronRun(c, base, e, holidays, lunar, maxAttempts).status == PendingCalculation {
      PendingCalculationNeedsCalendar(c, e, holidays, lunar, SearchBase(c, base), maxAttempts);
    }
  }

  lemma {:induction false} SearchIgnoresCalendar(c: CronConfig, e: CronEngine, h1: HolidayGetter, h2: HolidayGetter, lunar: LunarConverter, cur: int, attempts: nat)
    requires !NeedsCalendar(c)
    ensures Search(c, e, h1, lunar, cur, attempts) == Search(c, e, h2, lunar, cur, attempts)
    decreases attempts
  {
    if attempts > 0 && e.next(c.cronExpression, cur).Some? {
      var candidate := e.next(c.cronExpression, cur).value;
      assert CandidateVerdict(c, candidate, h1, lunar) == CandidateVerdict(c, candidate, h2, lunar);
      SearchIgnoresCalendar(c, e, h1, h2, lunar, candidate, attempts - 1);
    }
  }

  /** The calendar table is never consulted when `limit_days` is empty: any two tables give the same result. */
  lemma CalendarIgnoredWithoutLimitDays(c: CronConfig, base: int, e: CronEngine, h1: HolidayGetter, h2: HolidayGetter, lunar: LunarConverter, maxAttempts: nat)
    requires !NeedsCalendar(c)
    ensures NextCronRun(c, base, e, h1, lunar, maxAttempts) == NextCronRun(c, base, e, h2, lunar, maxAttempts)
  {
    SearchIgnoresCalendar(c, e, h1, h2, lunar, SearchBase(c, base), maxAttempts);
  }

  /**
   * A PENDING result is the `k`-th candidate, `k` within the attempt budget: the first one
   * every filter admits, all earlier candidates having been skipped.
   */
  lemma {:induction false} SearchPendingIsFirstAdmissible(c: CronConfig, e: CronEngine, holidays: HolidayGetter, lunar: LunarConverter, cur: int, attempts: nat)
    returns (k: nat)
    requires Search(c, e, holidays, lunar, cur, attempts).status == Pending
    ensures var r := Search(c, e, holidays, lunar, cur, attempts);
      1 <= k <= attempts && r.trigger.Some? &&
      Candidate(e, c.cronExpression, cur, k) == r.trigger && Admissible(c, r.trigger.value, holidays, lunar) &&
      forall j :: 1 <= j < k ==>
        Candidate(e, c.cronExpression, cur, j).Some? &&
        CandidateVerdict(c, Candidate(e, c.cronExpression, cur, j).value, holidays, lunar) == Skip
    decreases attempts
  {
    var candidate := e.next(c.cronExpression, cur).value;
    var v := CandidateVerdict(c, candidate, holidays, lunar);
    SearchStep(c, e, holidays, lunar, cur, attempts, v);
    if v.Stop? {
      VerdictShape(c, candidate, holidays, lunar);
      PendingVerdictIffAdmissible(c, candidate, holidays, lunar);
      k := 1;
    } else {
      var k' := SearchPendingIsFirstAdmissible(c, e, holidays, lunar, candidate, attempts - 1);
      k := k' + 1;
      CandidateShift(e, c.cronExpression, cur, k);
      forall j | 1 <= j < k
        ensures Candidate(e, c.cronExpression, cur, j).Some? &&
          CandidateVerdict(c, Candidate(e, c.cronExpression, cur, j).value, holidays, lunar) == Skip
      {
        CandidateShift(e, c.cronExpression, cur, j);
      }
    }
  }

  lemma PendingIsFirstAdmissible(c: CronConfig, base: int, e: CronEngine, holidays: HolidayGetter, lunar: LunarConverter, maxAttempts: nat)
    returns (k: nat)
    requires NextCronRun(c, base, e, holidays, lunar, maxAttempts).status == Pending
    ensures var r := NextCronRun(c, base, e, holidays, lunar, maxAttempts);
      var b := SearchBase(c, base);
      1 <= k <= maxAttempts && r.trigger.Some? &&
      Candidate(e, c.cronExpression, b, k) == r.trigger && Admissible(c, r.trigger.value, holidays, lunar) &&
      forall j :: 1 <= j < k ==>
        Candidate(e, c.cronExpression, b, j).Some? &&
        CandidateVerdict(c, Candidate(e, c.cronExpression, b, j).value, holidays, lunar) == Skip
  {
    k := SearchPendingIsFirstAdmissible(c, e, holidays, lunar, SearchBase(c, base), maxAttempts);
  }

  /** COMPLETED means the `k`-th candidate, within the budget, lay after `end_time`. */
  lemma {:induction false} SearchCompletedPastEnd(c: CronConfig, e: CronEngine, holidays: HolidayGetter, lunar: LunarConverter, cur: int, attempts: nat)
    returns (k: nat)
    requires Search(c, e, holidays, lunar, cur, attempts).status == Completed
    ensures 1 <= k <= attempts && c.endTime.Some?
    ensures Candidate(e, c.cronExpression, cur, k).Some? && Candidate(e, c.cronExpression, cur, k).value > c.endTime.value
    decreases attempts
  {
    var candidate := e.next(c.cronExpression, cur).value;
    if CandidateVerdict(c, candidate, holidays, lunar).Stop? {
      k := 1;
    } else {
      var k' := SearchCompletedPastEnd(c, e, holidays, lunar, candidate, attempts - 1);
      k := k' + 1;
    }
  }

  /** With an increasing iterator, any trigger found lies strictly after the instant the search started from. */
  lemma {:induction false} SearchTriggerAfterStart(c: CronConfig, e: CronEngine, holidays: HolidayGetter, lunar: LunarConverter, cur: int, attempts: nat)
    requires StrictlyIncreasing(e)
    requires Search(c, e, holidays, lunar, cur, attempts).trigger.Some?
    ensures Search(c, e, holidays, lunar, cur, attempts).trigger.value > cur
    decreases attempts
  {
    var candidate := e.next(c.cronExpression, cur).value;
    if CandidateVerdict(c, candidate, holidays, lunar).Skip? {
      SearchTriggerAfterStart(c, e, holidays, lunar, candidate, attempts - 1);
    }
  }

  lemma TriggerAfterBase(c: CronConfig, base: int, e: CronEngine, holidays: HolidayGetter, lunar: LunarConverter, maxAttempts: nat)
    requires StrictlyIncreasing(e)
    requires NextCronRun(c, base, e, holidays, lunar, maxAttempts).trigger.Some?
    ensures NextCronRun(c, base, e, holidays, lunar, maxAttempts).trigger.value > SearchBase(c, base)
    ensures c.startTime.Some? && base < c.startTime.value ==> NextCronRun(c, base, e, holidays, lunar, maxAttempts).trigger.value >= c.startTime.value
  {
    SearchTriggerAfterStart(c, e, holidays, lunar, SearchBase(c, base), maxAttempts);
  }

  /** A rule with no day-type, lunar or range restriction fires on the iterator's first candidate. */
  lemma UnrestrictedRuleTakesFirstCandidate(c: CronConfig, base: int, e: CronEngine, holidays: HolidayGetter, lunar: LunarConverter, maxAttempts: nat)
    requires !NeedsCalendar(c) && !c.isLunar && c.startTime.None? && c.endTime.None?
    requires e.parses(c.cronExpression) && maxAttempts > 0 && e.next(c.cronExpression, base).Some?
    ensures NextCronRun(c, base, e, holidays, lunar, maxAttempts) == TriggerResult(e.next(c.cronExpression, base), Pending)
  {
  }

  /** A `WEEKDAY_ONLY` rule still needs calendar data: with no records for the year it yields PENDING_CALCULATION. */
  lemma WeekdayOnlyNeedsCalendar(c: CronConfig, base: int, e: CronEngine, holidays: HolidayGetter, lunar: LunarConverter, maxAttempts: nat)
    requires c.limitDays == Some(["WEEKDAY_ONLY"]) && c.startTime.None? && c.endTime.None?
    requires e.parses(c.cronExpression) && maxAttempts > 0 && e.next(c.cronExpression, base).Some?
    requires holidays(DateOf(e.next(c.cronExpression, base).value).year) == []
    ensures NextCronRun(c, base, e, holidays, lunar, maxAttempts) == TriggerResult(e.next(c.cronExpression, base), PendingCalculation)
  {
  }

  /** An expression the library cannot parse, or a budget of no attempts, fails without a trigger. */
  lemma UnparsableOrNoAttemptsFails(c: CronConfig, base: int, e: CronEngine, holidays: HolidayGetter, lunar: LunarConverter, maxAttempts: nat)
    requires !e.parses(c.cronExpression) || maxAttempts == 0
    ensures NextCronRun(c, base, e, holidays, lunar, maxAttempts) == TriggerResult(None, Failed)
  {
  }

  // ---------------------------------------------------------------- first trigger of a new task

  /** The configurations `calculate_initial_trigger_time` refuses with `ValueError`. */
  datatype TriggerConfigError = MissingCronConfig | MissingOneShotConfig

  /** The countdown branch: fire after the parsed duration, or give FAILED without a trigger. */
  function CountdownTriggerResult(duration: string, now: int): TriggerResult
  {
    match ParseCountdownDuration(duration)
    case Ok(d) => TriggerResult(Some(now + d), Pending)
    case Err(_) => TriggerResult(None, Failed)
  }

  /** `calculate_initial_trigger_time` at the instant `now`. */
  function InitialTrigger(t: TaskInfo, now: int, e: CronEngine, holidays: HolidayGetter, lunar: LunarConverter): Result<TriggerResult, TriggerConfigError>
  {
    if t.isRecurring then
      if t.cronConfig.None? then Err(MissingCronConfig)
      else Ok(NextCronRun(t.cronConfig.value, now, e, holidays, lunar, DefaultMaxAttempts))
    else if t.oneTimeConfig.Some? then
      var at := t.oneTimeConfig.value.triggerAt;
      Ok(if at <= now then TriggerResult(Some(now + 1), Pending) else TriggerResult(Some(at), Pending))
    else if t.countdownConfig.Some? then
      Ok(CountdownTriggerResult(t.countdownConfig.value.countdownDuration, now))
    else Err(MissingOneShotConfig)
  }

  /** The calculation refuses a task exactly when its schedule configuration is missing. */
  lemma InitialTriggerErrors(t: TaskInfo, now: int, e: CronEngine, holidays: HolidayGetter, lunar: LunarConverter)
    ensures InitialTrigger(t, now, e, holidays, lunar).Err? <==>
      (t.isRecurring && t.cronConfig.None?) || (!t.isRecurring && t.oneTimeConfig.None? && t.countdownConfig.None?)
  {
  }

  /** A task that passed validation always gets a trigger result. */
  lemma ValidatedTaskGetsTrigger(t: TaskInfo, email: EmailCheck, now: int, e: CronEngine, holidays: HolidayGetter, lunar: LunarConverter)
    requires ValidateTaskInfo(t, email).Ok?
    ensures InitialTrigger(ValidateTaskInfo(t, email).value, now, e, holidays, lunar).Ok?
  {
    InitialTriggerErrors(ValidateTaskInfo(t, email).value, now, e, holidays, lunar);
  }

  /**
   * An absolute one-shot time in the past (or now) fires one second from now; a future one
   * is kept; either way the task is PENDING with a trigger after `now`.
   */
  lemma OneShotTrigger(t: TaskInfo, now: int, e: CronEngine, holidays: HolidayGetter, lunar: LunarConverter)
    requires !t.isRecurring && t.oneTimeConfig.Some?
    ensures var r := InitialTrigger(t, now, e, holidays, lunar);
      r.Ok? && r.value.status == Pending && r.value.trigger.Some? && r.value.trigger.value > now &&
      (t.oneTimeConfig.value.triggerAt > now ==> r.value.trigger.value == t.oneTimeConfig.value.triggerAt) &&
      (t.oneTimeConfig.value.triggerAt <= now ==> r.value.trigger.value == now + 1)
  {
  }

  /**
   * The countdown branch keeps the task PENDING exactly when the duration parses, and then
   * fires that many seconds after `now`; otherwise the task is FAILED without a trigger
   * instead of the calculation raising.
   */
  lemma CountdownTrigger(d: string, now: int)
    ensures var r := CountdownTriggerResult(d, now);
      (r.status == Pending <==> ParseCountdownDuration(d).Ok?) &&
      (r.status == Pending ==> r.trigger == Some(now + ParseCountdownDuration(d).value)) &&
      (r.status != Pending ==> r.status == Failed && r.trigger.None?)
  {
  }

  /** A recurring task searches from `now` with the default budget of 732 attempts. */
  lemma RecurringTrigger(t: TaskInfo, now: int, e: CronEngine, holidays: HolidayGetter, lunar: LunarConverter)
    requires t.isRecurring && t.cronConfig.Some?
    ensures InitialTrigger(t, now, e, holidays, lunar) == Ok(NextCronRun(t.cronConfig.value, now, e, holidays, lunar, 732))
  {
  }
}
