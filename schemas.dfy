/**
 * The validated request records (`CronConfig`, `CountdownConfig`, `TaskInfoBase`, ...) and
 * their validators. A validator yields `Ok` with the value Pydantic would keep, or `Err`
 * where Pydantic raises a validation error.
 */
module Schemas {
  import opened Wrappers
  import opened Text
  import opened JsonTree
  import opened Models

  datatype WebhookChannel = WebhookChannel(
    url: string,
    httpMethod: string,
    headers: Option<map<string, string>>,
    payloadTemplate: Option<map<string, Json>>)

  datatype EmailChannel = EmailChannel(subject: string, recipientEmail: string)

  /**
   * Pydantic's `EmailStr`: the normalised address when the text is an acceptable email
   * address, `None` when it is not. The address grammar itself is not part of this model.
   */
  type EmailCheck = string -> Option<string>

  /** Checking an address the check produced gives it back unchanged. */
  ghost predicate StableEmailCheck(email: EmailCheck)
  {
    forall a :: email(a).Some? ==> email(email(a).value) == email(a)
  }

  datatype CronConfig = CronConfig(
    cronExpression: string,
    startTime: Option<int>,
    endTime: Option<int>,
    limitDays: Option<seq<string>>,
    isLunar: bool,
    lunarMonth: Option<int>,
    lunarDay: Option<int>)

  datatype CountdownConfig = CountdownConfig(countdownDuration: string)

  datatype OneTimeConfig = OneTimeConfig(triggerAt: int)

  /** `TaskInfoBase`; `taskCreationTime` is set only on the stored `TaskInfo` form. */
  datatype TaskInfo = TaskInfo(
    taskName: string,
    description: Option<string>,
    triggeringUserId: Option<string>,
    targetChatId: Option<string>,
    mentionUserNickname: Option<string>,
    webhookChannel: Option<WebhookChannel>,
    emailChannel: Option<EmailChannel>,
    reminderContent: string,
    isDifyGenerated: bool,
    isRecurring: bool,
    cronConfig: Option<CronConfig>,
    countdownConfig: Option<CountdownConfig>,
    oneTimeConfig: Option<OneTimeConfig>,
    taskCreationTime: Option<int>)

  datatype SchemaError =
    | LunarMonthOutOfRange
    | LunarDayOutOfRange
    | InvalidLimitDay(item: string)
    | LunarFieldsMissing
    | LunarFieldsUnexpected
    | InvalidCountdown
    | InvalidEmail
    | EmptyTaskName
    | EmptyReminderContent
    | ChannelCount
    | RecurringWithoutCron
    | RecurringWithOneShotConfig
    | OneShotWithCron
    | OneShotConfigCount

  // ---------------------------------------------------------------- limit_days

  const AllowedLimitDays: set<string> := {"WORKDAY", "HOLIDAY", "WEEKEND", "WEEKDAY_ONLY"}

  /** The first item whose upper-cased form is not an allowed day type. */
  function FirstInvalidLimitDay(items: seq<string>): (r: Option<nat>)
    ensures r.None? <==> forall i :: 0 <= i < |items| ==> Upper(items[i]) in AllowedLimitDays
    ensures r.Some? ==> r.value < |items| && Upper(items[r.value]) !in AllowedLimitDays
    ensures r.Some? ==> forall i :: 0 <= i < r.value ==> Upper(items[i]) in AllowedLimitDays
  {
    if items == [] then None
    else if Upper(items[0]) !in AllowedLimitDays then Some(0)
    else
      match FirstInvalidLimitDay(items[1..])
      case None => None
      case Some(k) => Some(k + 1)
  }

  /** `check_limit_days`: `None` passes; otherwise every item is upper-cased, or the first bad one is reported. */
  function NormalizeLimitDays(v: Option<seq<string>>): (r: Result<Option<seq<string>>, SchemaError>)
    ensures v.None? ==> r == Ok(None)
    ensures v.Some? ==> (r.Ok? <==> forall i :: 0 <= i < |v.value| ==> Upper(v.value[i]) in AllowedLimitDays)
    ensures v.Some? && r.Ok? ==>
      r.value.Some? && |r.value.value| == |v.value| &&
      forall i :: 0 <= i < |v.value| ==> r.value.value[i] == Upper(v.value[i]) && r.value.value[i] in AllowedLimitDays
    ensures r.Err? ==> v.Some? && exists i :: 0 <= i < |v.value| && r.error == InvalidLimitDay(v.value[i])
  {
    match v
    case None => Ok(None)
    case Some(items) =>
      match FirstInvalidLimitDay(items)
      case Some(k) => Err(InvalidLimitDay(items[k]))
      case None => Ok(Some(seq(|items|, i requires 0 <= i < |items| => Upper(items[i]))))
  }

  /** Normalising an already normalised list changes nothing. */
  lemma {:induction false} NormalizeLimitDaysIdempotent(v: Option<seq<string>>)
    requires NormalizeLimitDays(v).Ok?
    ensures NormalizeLimitDays(NormalizeLimitDays(v).value) == NormalizeLimitDays(v)
  {
    var w := NormalizeLimitDays(v).value;
    if w.Some? {
      forall i | 0 <= i < |w.value|
        ensures Upper(w.value[i]) == w.value[i]
      {
        UpperIdempotent(v.value[i]);
      }
      var again := seq(|w.value|, i requires 0 <= i < |w.value| => Upper(w.value[i]));
      assert again == w.value;
      assert FirstInvalidLimitDay(w.value).None?;
    }
  }

  // ---------------------------------------------------------------- CronConfig

  /** The lunar fields are present exactly when the rule is lunar. */
  predicate LunarConsistent(c: CronConfig)
  {
    (c.isLunar ==> c.lunarMonth.Some? && c.lunarDay.Some?) &&
    (!c.isLunar ==> c.lunarMonth.None? && c.lunarDay.None?)
  }

  predicate LunarBounds(c: CronConfig)
  {
    (c.lunarMonth.Some? ==> 1 <= c.lunarMonth.value <= 12) &&
    (c.lunarDay.Some? ==> 1 <= c.lunarDay.value <= 30)
  }

  /** A `CronConfig` as it stands after validation. */
  predicate WellFormedCron(c: CronConfig)
  {
    LunarBounds(c) && LunarConsistent(c) &&
    (c.limitDays.Some? ==> forall i :: 0 <= i < |c.limitDays.value| ==> c.limitDays.value[i] in AllowedLimitDays)
  }

  /** Field bounds and `check_limit_days` first, then `check_lunar_fields_consistency`. */
  function ValidateCron(c: CronConfig): (r: Result<CronConfig, SchemaError>)
    ensures r.Ok? <==> LunarBounds(c) && LunarConsistent(c) && NormalizeLimitDays(c.limitDays).Ok?
    ensures r.Ok? ==> r.value == c.(limitDays := NormalizeLimitDays(c.limitDays).value) && WellFormedCron(r.value)
  {
    if c.lunarMonth.Some? && !(1 <= c.lunarMonth.value <= 12) then Err(LunarMonthOutOfRange)
    else if c.lunarDay.Some? && !(1 <= c.lunarDay.value <= 30) then Err(LunarDayOutOfRange)
    else
      match NormalizeLimitDays(c.limitDays)
      case Err(e) => Err(e)
      case Ok(days) =>
        if c.isLunar && (c.lunarMonth.None? || c.lunarDay.None?) then Err(LunarFieldsMissing)
        else if !c.isLunar && (c.lunarMonth.Some? || c.lunarDay.Some?) then Err(LunarFieldsUnexpected)
        else Ok(c.(limitDays := days))
  }

  /** A validated cron configuration validates to itself. */
  lemma ValidateCronIdempotent(c: CronConfig)
    requires ValidateCron(c).Ok?
    ensures ValidateCron(ValidateCron(c).value) == ValidateCron(c)
  {
    NormalizeLimitDaysIdempotent(c.limitDays);
  }

  // ---------------------------------------------------------------- countdown grammar

  /**
   * The groups `^((\d+)d)?((\d+)h)?((\d+)m)?((\d+)s)?$` captures: for each unit, the digit
   * text before it, or `None` when the group did not take part.
   */
  datatype CountdownParts = CountdownParts(days: Option<string>, hours: Option<string>, minutes: Option<string>, seconds: Option<string>)

  const Units: seq<char> := ['d', 'h', 'm', 's']

  function Groups(p: CountdownParts): (gs: seq<Option<string>>)
    ensures |gs| == 4
  {
    [p.days, p.hours, p.minutes, p.seconds]
  }

  function PartsOf(gs: seq<Option<string>>): (p: CountdownParts)
    requires |gs| == 4
    ensures Groups(p) == gs
  {
    CountdownParts(gs[0], gs[1], gs[2], gs[3])
  }

  predicate GroupOk(g: Option<string>)
  {
    g.Some? ==> g.value != [] && AllDigits(g.value)
  }

  predicate GroupsOk(gs: seq<Option<string>>)
  {
    forall k :: 0 <= k < |gs| ==> GroupOk(gs[k])
  }

  /** Every captured group is a non-empty run of digits. */
  predicate WellFormedParts(p: CountdownParts)
  {
    GroupsOk(Groups(p))
  }

  /** At least one group took part: the parsed duration is not empty. */
  predicate HasUnit(p: CountdownParts)
  {
    p.days.Some? || p.hours.Some? || p.minutes.Some? || p.seconds.Some?
  }

  function RenderGroup(g: Option<string>, unit: char): string
  {
    if g.Some? then g.value + [unit] else ""
  }

  /** The text the groups of the slots `i` to 3 stand for. */
  function RenderGroups(gs: seq<Option<string>>, i: nat): string
    requires |gs| + i == 4
    decreases |gs|
  {
    if gs == [] then "" else RenderGroup(gs[0], Units[i]) + RenderGroups(gs[1..], i + 1)
  }

  /** The text a set of groups stands for, e.g. `1d2h` for days "1" and hours "2". */
  function Render(p: CountdownParts): string
  {
    RenderGroups(Groups(p), 0)
  }

  /** Length of the digit run `s` starts with. */
  function DigitRun(s: string): (n: nat)
    ensures n <= |s| && AllDigits(s[..n]) && (n < |s| ==> !IsDigit(s[n]))
  {
    if s != [] && IsDigit(s[0]) then
      var k := DigitRun(s[1..]);
      assert s[..k + 1] == [s[0]] + s[1..][..k];
      k + 1
    else 0
  }

  /**
   * One optional group `((\d+)u)?`: it takes part exactly when the whole leading digit run
   * is followed by `u` (a shorter digit run would be followed by a digit, not by `u`).
   */
  function TakeGroup(s: string, unit: char): (r: (Option<string>, string))
    ensures s == RenderGroup(r.0, unit) + r.1
    ensures GroupOk(r.0)
  {
    var n := DigitRun(s);
    if 0 < n < |s| && s[n] == unit then
      assert s == s[..n] + [unit] + s[n + 1..];
      (Some(s[..n]), s[n + 1..])
    else (None, s)
  }

  /** The groups of slots `i` to 3, when they consume all of `s`. */
  function MatchGroupsFrom(s: string, i: nat): (r: Option<seq<Option<string>>>)
    requires i <= 4
    ensures r.Some? ==> |r.value| == 4 - i
    decreases 4 - i
  {
    if i == 4 then (if s == [] then Some([]) else None)
    else
      var taken := TakeGroup(s, Units[i]);
      match MatchGroupsFrom(taken.1, i + 1)
      case None => None
      case Some(gs) => Some([taken.0] + gs)
  }

  /** The groups when the whole of `s` is matched. */
  function MatchBody(s: string): Option<CountdownParts>
  {
    match MatchGroupsFrom(s, 0)
    case None => None
    case Some(gs) => Some(PartsOf(gs))
  }

  /**
   * `re.match` of the countdown pattern: Python's `$` also matches just before a final
   * newline, so a trailing "\n" is allowed.
   */
  function MatchCountdownPattern(s: string): Option<CountdownParts>
  {
    var whole := MatchBody(s);
    if whole.Some? then whole
    else if s != [] && s[|s| - 1] == '\n' then MatchBody(s[..|s| - 1])
    else None
  }

  lemma {:induction false} MatchGroupsSound(s: string, i: nat)
    requires i <= 4 && MatchGroupsFrom(s, i).Some?
    ensures var gs := MatchGroupsFrom(s, i).value; GroupsOk(gs) && s == RenderGroups(gs, i)
    decreases 4 - i
  {
    if i < 4 {
      var rest := TakeGroup(s, Units[i]).1;
      MatchGroupsSound(rest, i + 1);
      var gs := MatchGroupsFrom(s, i).value;
      assert gs[1..] == MatchGroupsFrom(rest, i + 1).value;
    }
  }

  lemma {:induction false} DigitRunOfDigitsThen(ds: string, c: char, t: string)
    requires AllDigits(ds) && !IsDigit(c)
    ensures DigitRun(ds + [c] + t) == |ds|
  {
    if ds != [] {
      assert (ds + [c] + t)[1..] == ds[1..] + [c] + t;
      DigitRunOfDigitsThen(ds[1..], c, t);
    }
  }

  /** No later group can be taken for the unit of an earlier slot. */
  lemma {:induction false} LaterGroupsSkip(gs: seq<Option<string>>, j: nat, u: char)
    requires |gs| + j == 4 && GroupsOk(gs)
    requires forall k :: j <= k < 4 ==> Units[k] != u
    ensures TakeGroup(RenderGroups(gs, j), u) == (None, RenderGroups(gs, j))
    decreases |gs|
  {
    if gs != [] {
      var rest := RenderGroups(gs[1..], j + 1);
      if gs[0].Some? {
        DigitRunOfDigitsThen(gs[0].value, Units[j], rest);
      } else {
        assert GroupsOk(gs[1..]) by { forall k | 0 <= k < |gs| - 1 ensures GroupOk(gs[1..][k]) { assert gs[1..][k] == gs[k + 1]; } }
        LaterGroupsSkip(gs[1..], j + 1, u);
      }
    }
  }

  lemma TakeGroupOfRendered(ds: string, u: char, rest: string)
    requires ds != [] && AllDigits(ds) && !IsDigit(u)
    ensures TakeGroup(ds + [u] + rest, u) == (Some(ds), rest)
  {
    var s := ds + [u] + rest;
    DigitRunOfDigitsThen(ds, u, rest);
    assert s[|ds|] == u;
    assert s[..|ds|] == ds;
    assert s[|ds| + 1..] == rest;
  }

  lemma MatchGroupsStep(s: string, i: nat, gs: seq<Option<string>>)
    requires i < 4
    requires MatchGroupsFrom(TakeGroup(s, Units[i]).1, i + 1) == Some(gs)
    ensures MatchGroupsFrom(s, i) == Some([TakeGroup(s, Units[i]).0] + gs)
  {
  }

  /** The first group of a rendering is taken back, leaving the rendering of the others. */
  lemma TakeFirstGroup(gs: seq<Option<string>>, i: nat)
    requires |gs| + i == 4 && GroupsOk(gs) && gs != []
    ensures GroupsOk(gs[1..])
    ensures TakeGroup(RenderGroups(gs, i), Units[i]) == (gs[0], RenderGroups(gs[1..], i + 1))
  {
    var s := RenderGroups(gs, i);
    var rest := RenderGroups(gs[1..], i + 1);
    assert s == RenderGroup(gs[0], Units[i]) + rest;
    assert GroupsOk(gs[1..]) by { forall k | 0 <= k < |gs| - 1 ensures GroupOk(gs[1..][k]) { assert gs[1..][k] == gs[k + 1]; } }
    assert !IsDigit(Units[i]);
    if gs[0].Some? {
      TakeGroupOfRendered(gs[0].value, Units[i], rest);
    } else {
      assert s == rest;
      LaterGroupsSkip(gs[1..], i + 1, Units[i]);
    }
  }

  lemma {:induction false} MatchGroupsComplete(gs: seq<Option<string>>, i: nat)
    requires |gs| + i == 4 && GroupsOk(gs)
    ensures MatchGroupsFrom(RenderGroups(gs, i), i) == Some(gs)
    decreases |gs|
  {
    if gs != [] {
      TakeFirstGroup(gs, i);
      MatchGroupsComplete(gs[1..], i + 1);
      MatchGroupsStep(RenderGroups(gs, i), i, gs[1..]);
      assert [gs[0]] + gs[1..] == gs;
    }
  }

  lemma {:induction false} RenderGroupsChars(gs: seq<Option<string>>, i: nat)
    requires |gs| + i == 4 && GroupsOk(gs)
    ensures forall c :: c in RenderGroups(gs, i) ==> IsDigit(c) || c in Units
    decreases |gs|
  {
    if gs != [] {
      assert GroupsOk(gs[1..]) by { forall k | 0 <= k < |gs| - 1 ensures GroupOk(gs[1..][k]) { assert gs[1..][k] == gs[k + 1]; } }
      RenderGroupsChars(gs[1..], i + 1);
    }
  }

  lemma MatchBodySound(s: string)
    requires MatchBody(s).Some?
    ensures WellFormedParts(MatchBody(s).value) && s == Render(MatchBody(s).value)
  {
    MatchGroupsSound(s, 0);
  }

  lemma MatchBodyComplete(p: CountdownParts)
    requires WellFormedParts(p)
    ensures MatchBody(Render(p)) == Some(p)
  {
    MatchGroupsComplete(Groups(p), 0);
  }

  lemma RenderHasNoNewline(p: CountdownParts)
    requires WellFormedParts(p)
    ensures '\n' !in Render(p)
  {
    RenderGroupsChars(Groups(p), 0);
  }

  lemma MatchAfterNewline(s: string, p: CountdownParts)
    requires MatchCountdownPattern(s) == Some(p) && MatchBody(s).None?
    ensures s != [] && s[|s| - 1] == '\n' && MatchBody(s[..|s| - 1]) == Some(p)
  {
  }

  lemma LastNewline(s: string)
    requires s != [] && s[|s| - 1] == '\n'
    ensures s == s[..|s| - 1] + "\n"
  {
  }

  /** Whatever the pattern matches is well-formed groups, rendered, possibly with one trailing newline. */
  lemma CountdownPatternSound(s: string, p: CountdownParts)
    requires MatchCountdownPattern(s) == Some(p)
    ensures WellFormedParts(p) && (s == Render(p) || s == Render(p) + "\n")
  {
    if MatchBody(s).Some? {
      assert MatchBody(s) == Some(p);
      MatchBodySound(s);
    } else {
      MatchAfterNewline(s, p);
      var t := s[..|s| - 1];
      MatchBodySound(t);
      LastNewline(s);
    }
  }

  /** Every well-formed set of groups is matched back from its rendering, with or without a final newline. */
  lemma CountdownPatternComplete(p: CountdownParts)
    requires WellFormedParts(p)
    ensures MatchCountdownPattern(Render(p)) == Some(p)
    ensures MatchCountdownPattern(Render(p) + "\n") == Some(p)
  {
    MatchBodyComplete(p);
    var s := Render(p) + "\n";
    if MatchBody(s).Some? {
      MatchBodySound(s);
      RenderHasNoNewline(MatchBody(s).value);
      assert false;
    }
    assert s[..|s| - 1] == Render(p);
  }

  /** `check_countdown_duration_format`: the pattern must match the lower-cased text and the text must not be empty. */
  function ValidateCountdown(c: CountdownConfig): (r: Result<CountdownConfig, SchemaError>)
    ensures r.Ok? <==> MatchCountdownPattern(Lower(c.countdownDuration)).Some? && c.countdownDuration != ""
    ensures r.Ok? ==> r.value == c
  {
    if MatchCountdownPattern(Lower(c.countdownDuration)).None? || c.countdownDuration == "" then Err(InvalidCountdown)
    else Ok(c)
  }

  // ---------------------------------------------------------------- TaskInfoBase

  /** Exactly one notification channel is configured. */
  predicate ExactlyOneChannel(t: TaskInfo)
  {
    t.webhookChannel.Some? != t.emailChannel.Some?
  }

  /**
   * A recurring task has a cron rule and no one-shot configuration; a one-shot task has no
   * cron rule and exactly one of countdown and absolute time.
   */
  predicate ScheduleConsistent(t: TaskInfo)
  {
    if t.isRecurring then t.cronConfig.Some? && t.countdownConfig.None? && t.oneTimeConfig.None?
    else t.cronConfig.None? && (t.countdownConfig.Some? != t.oneTimeConfig.Some?)
  }

  predicate FieldsAcceptable(t: TaskInfo, email: EmailCheck)
  {
    |t.taskName| >= 1 && |t.reminderContent| >= 1 &&
    (t.emailChannel.Some? ==> email(t.emailChannel.value.recipientEmail).Some?) &&
    (t.cronConfig.Some? ==> ValidateCron(t.cronConfig.value).Ok?) &&
    (t.countdownConfig.Some? ==> ValidateCountdown(t.countdownConfig.value).Ok?)
  }

  function NormalizedCron(c: Option<CronConfig>): Option<CronConfig>
  {
    if c.Some? && ValidateCron(c.value).Ok? then Some(ValidateCron(c.value).value) else c
  }

  /** The email channel with its address in the normalised form the check returns. */
  function NormalizedEmail(c: Option<EmailChannel>, email: EmailCheck): Option<EmailChannel>
  {
    if c.Some? && email(c.value.recipientEmail).Some? then Some(c.value.(recipientEmail := email(c.value.recipientEmail).value))
    else c
  }

  function FieldError(t: TaskInfo, email: EmailCheck): Option<SchemaError>
  {
    if |t.taskName| < 1 then Some(EmptyTaskName)
    else if t.emailChannel.Some? && email(t.emailChannel.value.recipientEmail).None? then Some(InvalidEmail)
    else if |t.reminderContent| < 1 then Some(EmptyReminderContent)
    else if t.cronConfig.Some? && ValidateCron(t.cronConfig.value).Err? then Some(ValidateCron(t.cronConfig.value).error)
    else if t.countdownConfig.Some? && ValidateCountdown(t.countdownConfig.value).Err? then Some(InvalidCountdown)
    else None
  }

  function ChannelError(t: TaskInfo): Option<SchemaError>
  {
    if (if t.webhookChannel.Some? then 1 else 0) + (if t.emailChannel.Some? then 1 else 0) != 1 then Some(ChannelCount)
    else None
  }

  function ScheduleError(t: TaskInfo): Option<SchemaError>
  {
    if t.isRecurring then
      if t.cronConfig.None? then Some(RecurringWithoutCron)
      else if t.countdownConfig.Some? || t.oneTimeConfig.Some? then Some(RecurringWithOneShotConfig)
      else None
    else if t.cronConfig.Some? then Some(OneShotWithCron)
    else if (if t.countdownConfig.Some? then 1 else 0) + (if t.oneTimeConfig.Some? then 1 else 0) != 1 then Some(OneShotConfigCount)
    else None
  }

  /**
   * Field checks (lengths, nested configurations), then the channel validator, then the
   * schedule validator, in declaration order.
   */
  function ValidateTaskInfo(t: TaskInfo, email: EmailCheck): (r: Result<TaskInfo, SchemaError>)
    ensures r.Ok? <==> FieldsAcceptable(t, email) && ExactlyOneChannel(t) && ScheduleConsistent(t)
    ensures r.Ok? ==> r.value == t.(cronConfig := NormalizedCron(t.cronConfig), emailChannel := NormalizedEmail(t.emailChannel, email))
    ensures r.Ok? && r.value.cronConfig.Some? ==> WellFormedCron(r.value.cronConfig.value)
    ensures r.Ok? && r.value.emailChannel.Some? ==> email(t.emailChannel.value.recipientEmail) == Some(r.value.emailChannel.value.recipientEmail)
  {
    if FieldError(t, email).Some? then Err(FieldError(t, email).value)
    else if ChannelError(t).Some? then Err(ChannelError(t).value)
    else if ScheduleError(t).Some? then Err(ScheduleError(t).value)
    else Ok(t.(cronConfig := NormalizedCron(t.cronConfig), emailChannel := NormalizedEmail(t.emailChannel, email)))
  }

  /** Validation is idempotent, for an address check that is: a validated record validates to itself. */
  lemma ValidateTaskInfoIdempotent(t: TaskInfo, email: EmailCheck)
    requires StableEmailCheck(email)
    requires ValidateTaskInfo(t, email).Ok?
    ensures ValidateTaskInfo(ValidateTaskInfo(t, email).value, email) == ValidateTaskInfo(t, email)
  {
    if t.cronConfig.Some? {
      ValidateCronIdempotent(t.cronConfig.value);
    }
  }

  /** `TaskUpdateRequest`; absent fields are `None`. */
  datatype TaskUpdateRequest = TaskUpdateRequest(
    taskInfo: Option<TaskInfo>,
    status: Option<TaskStatus>,
    nextTriggerTime: Option<int>)
}
