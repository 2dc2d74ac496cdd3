# simple-aitodo in Dafny

A Dafny model of the core of simple-aitodo: a reminder service. The service stores tasks,
computes when each one should next fire and arms a job for it. It fires the task through a
webhook or a mail channel and then re-arms or retires it. A WeChat bridge sits next to it
and forwards chat messages to a Dify assistant.

The model covers the reminder **trigger-time engine**, the **task lifecycle** around it and
the text logic of the **WeChat/Dify bridge**. Each source file has its own module:

- `Models` (app/models.py): task status enum, task and calendar-day records, the four day predicates.
- `Schemas` (app/schemas.py): validators as functions returning `Ok`/`Err` (cron, countdown and task-information rules).
- `DateCalculator` (app/utils/date_calculator.py): countdown parsing and the first trigger as functions; the cron candidate search as a method with a bounded loop, proved against a recursive specification.
- `Crud` (app/crud.py): class `Database`: the task table and holiday table as sequences of rows, with update, delete and holiday-upsert methods.
- `TaskScheduler` (app/services/task_scheduler.py): class `SchedulerService`: the job store as `map<string, Job>`, arming, removal, start-up and the daily maintenance pass.
- `TaskExecutor` (app/services/task_executor.py): `ExecuteTaskById`: the in-place status writes of one run and the re-arm or remove decision.
- `Notification` (app/services/notification_service.py): placeholder substitution over JSON trees, the webhook payload and its fix-ups.
- `MainApi` (app/main.py): the API-key check, deep merge, create/update/delete decisions and scheduler sync, the query filter and target resolution.
- `NlpService` (app/services/nlp_service.py): the prompt, code-fence stripping and the `limit_days` repair.
- `MessageProcessor` (simple_dify_on_wechat/message_processor.py): Dify user ids, class `ConversationStore`, the message filter, voice padding, query assembly and the reply split.
- `WechatClient` (simple_dify_on_wechat/wechat_client.py): the sync URL, raw-message normalisation and the text-send body.
- `DifyHandler` (simple_dify_on_wechat/dify_handler.py): the size limit, header selection, chat body, and the upload and speech-to-text checks.

Supporting modules:
- `Wrappers`: `Option` and `Result`.
- `Text`: Python `str` semantics such as `strip`, `split`, `find`, `replace` and `in`.
- `CivilTime`: naive local date-times as whole seconds, with Gregorian calendar fields.
- `JsonTree`: the `dict`/`list` values stored in `task_info` and sent in payloads.

Conventions:
- **Wall clock:** `datetime.now()` is an explicit `now` parameter.
- **Cron library:** croniter is a `CronEngine` parameter. It says whether an expression parses, and gives the successor of an instant, or `None` where the iterator raises.
- **Lunar calendar:** `LunarDate.fromSolarDate` is a partial `LunarConverter` parameter.
- **Holiday table:** the holiday getter is a function from a year to its day records.
- **Pydantic re-validation:** where the source rebuilds a model from a merged dictionary, the result is a `normalize` or `parseInfo` parameter that fails where Pydantic raises.
- **I/O:** every HTTP request, download, conversion and mail transfer is a function parameter whose result the model takes as given.
- **Errors:** raised exceptions become `Err` values carrying the HTTP status or the error kind.

## Model

| member | source | states |
|---|---|---|
| Models.StatusByName | app/models.py:13-18 | `TaskStatusEnum[name]`: the member found has that name; no member is found exactly when no member has it |
| Models.StatusNamesAndValuesDistinct | app/models.py:13-18 | distinct status members never share a name or a stored value |
| Models.IsWorkday | app/models.py:50-53 | `is_workday`: day type 0; no day type is never a workday (the four predicates are related in `Models.DayClassification`) |
| Models.IsHoliday | app/models.py:55-58 | `is_holiday`: day type 1 or 2; no day type is never a holiday |
| Models.IsLegalHoliday | app/models.py:60-63 | `is_legal_holiday`: day type 2; no day type is never a legal holiday |
| Models.IsWeekend | app/models.py:65-69 | `is_weekend`: week day 6 or 7 with day type 1; no day type is never a weekend |
| Models.DayClassification | app/models.py:50-69 | the four day predicates as the day type gives them: a workday is never a holiday, a legal holiday is a holiday but not a weekend, a weekend is a rest day on day 6 or 7, and with no day type all four are false |
| CivilTime.PadNumberDigits | app/utils/date_calculator.py:89 | a `strftime` field is all decimal digits, reads back as the number, and has a leading zero only as padding to the width |
| DateCalculator.ParseCountdownDuration | app/utils/date_calculator.py:11-18 | `parse_countdown_duration` as a function to seconds: the invalid-format error, the empty-duration error, or the total of the groups (its behaviour is stated by the countdown lemmas below) |
| DateCalculator.CountdownParse | app/utils/date_calculator.py:11-18 | a text whose lower-cased form is the rendering of well-formed groups, with or without one final newline, yields their total in seconds when some group is present and the empty-duration error otherwise |
| DateCalculator.CountdownRejects | app/utils/date_calculator.py:13-14 | the invalid-format error is raised exactly when the lower-cased text renders no well-formed groups (with or without a trailing newline) |
| DateCalculator.CountdownRoundTrip | app/utils/date_calculator.py:11-18 | rendering groups that contain a unit and parsing the text back gives their total |
| DateCalculator.ParsesTo | app/utils/date_calculator.py:11-18 | a text whose lower-cased form renders groups with a unit parses to the given total |
| DateCalculator.CountdownExampleFull | app/utils/date_calculator.py:12 | "1d2h3m4s" is 93784 seconds |
| DateCalculator.CountdownExampleUpperCase | app/utils/date_calculator.py:13 | the text is lower-cased first: "1D2H" is 93600 seconds |
| DateCalculator.CountdownExampleZero | app/utils/date_calculator.py:16-17 | "0d" captures a group, so it is a zero duration and not the empty-duration error |
| DateCalculator.CountdownExampleEmpty | app/utils/date_calculator.py:13-17 | the empty text matches the pattern but captures no group, so it is the empty-duration error |
| DateCalculator.CountdownValidatorAgreesWithParser | app/schemas.py:54-59 | a duration the schema validator accepts is never called malformed by the parser |
| DateCalculator.NewlineOnlyCountdown | app/schemas.py:54-59 | the text "\n" passes the schema validator, yet the parser gives the empty-duration error for it |
| DateCalculator.FindDay | app/utils/date_calculator.py:99-102 | the record found is in the year's table and has the date; none is found exactly when no record has the date |
| DateCalculator.CandidateVerdict | app/utils/date_calculator.py:83-153 | the specification of one candidate's filters: skip it, or stop with a result (stated by `EvaluateCandidate`, `PendingVerdictIffAdmissible` and `VerdictShape`) |
| DateCalculator.Search | app/utils/date_calculator.py:76-156 | the specification of the bounded search loop, candidate after candidate until a verdict stops it or the attempts run out (stated by `SearchLoop` and the search lemmas) |
| DateCalculator.NextCronRun | app/utils/date_calculator.py:52-156 | the specification of `get_next_cron_run_time`: the base shifted before `start_time`, FAILED for an unparsable rule, then `Search` (stated by `GetNextCronRunTime`, `NextCronRunShape` and `PendingIsFirstAdmissible`) |
| DateCalculator.SearchStep | app/utils/date_calculator.py:76-153 | one loop iteration: a stopping verdict is the search result, a skipped candidate hands one fewer attempt to the search from that candidate |
| DateCalculator.FindDayRecord | app/utils/date_calculator.py:99-102 | the scan with `break` returns the first record with the date, as `FindDay` |
| DateCalculator.MatchLimitDays | app/utils/date_calculator.py:142-151 | the loop over `limit_days` with `break` yields true exactly when some entry, upper-cased, admits the day |
| DateCalculator.EvaluateCandidate | app/utils/date_calculator.py:83-153 | the filters of one candidate applied in the source's order (end time, start time, calendar lookup, lunar check and its errors, day types) give the specified verdict |
| DateCalculator.GetNextCronRunTime | app/utils/date_calculator.py:52-156 | the method's result equals the specification `NextCronRun`: base shifted before `start_time`, FAILED for an unparsable expression, then the bounded search |
| DateCalculator.SearchLoop | app/utils/date_calculator.py:76-156 | the `for attempt in range(max_attempts)` loop returns the search result for the full budget, FAILED when the budget runs out |
| DateCalculator.Attempt | app/utils/date_calculator.py:77-153 | one pass of the loop: the iterator's next candidate (FAILED when it raises) and the verdict, tied to the search result |
| DateCalculator.CandidateShift | app/utils/date_calculator.py:78 | the j-th candidate after the current instant is the (j-1)-th after the next one |
| DateCalculator.PendingVerdictIffAdmissible | app/utils/date_calculator.py:83-153 | a candidate ends the loop with PENDING exactly when it passes every filter |
| DateCalculator.VerdictShape | app/utils/date_calculator.py:83-153 | a stopping verdict has a trigger exactly for PENDING and PENDING_CALCULATION, that trigger is the candidate, and it is never RUNNING |
| DateCalculator.SearchOutcomeShape | app/utils/date_calculator.py:76-156 | every search result has a trigger exactly when its status is PENDING or PENDING_CALCULATION, and is never RUNNING |
| DateCalculator.NextCronRunShape | app/utils/date_calculator.py:52-156 | the same shape holds for the whole computation, including the unparsable-expression failure |
| DateCalculator.PendingCalculationNeedsCalendar | app/utils/date_calculator.py:93-105 | PENDING_CALCULATION only arises for a rule with `limit_days`, with the trigger on a date missing from that year's records |
| DateCalculator.NoPendingCalculationWithoutLimitDays | app/utils/date_calculator.py:90-105 | without `limit_days` the result is never PENDING_CALCULATION |
| DateCalculator.SearchIgnoresCalendar | app/utils/date_calculator.py:90-94 | without `limit_days` the search gives the same result for any two calendar tables |
| DateCalculator.CalendarIgnoredWithoutLimitDays | app/utils/date_calculator.py:90-94 | without `limit_days` the whole computation gives the same result for any two calendar tables |
| DateCalculator.SearchPendingIsFirstAdmissible | app/utils/date_calculator.py:76-153 | a PENDING result is the k-th candidate, k within the budget, every filter admits it, and every earlier candidate was skipped |
| DateCalculator.PendingIsFirstAdmissible | app/utils/date_calculator.py:52-153 | the same, counted from the (possibly shifted) base of the whole computation |
| DateCalculator.SearchCompletedPastEnd | app/utils/date_calculator.py:83-84 | COMPLETED means an `end_time` is set and some candidate within the budget lies after it |
| DateCalculator.SearchTriggerAfterStart | app/utils/date_calculator.py:76-153 | with an iterator whose fire times increase, any trigger found lies after the search's starting instant |
| DateCalculator.TriggerAfterBase | app/utils/date_calculator.py:62-64 | a trigger lies after the search base, and is not before `start_time` when the base lay before it |
| DateCalculator.UnrestrictedRuleTakesFirstCandidate | app/utils/date_calculator.py:76-153 | a rule without day types, lunar date or time range fires PENDING on the iterator's first candidate |
| DateCalculator.WeekdayOnlyNeedsCalendar | app/utils/date_calculator.py:93-97 | a `WEEKDAY_ONLY` rule still consults the calendar: with no records for the year it yields PENDING_CALCULATION on the first candidate |
| DateCalculator.UnparsableOrNoAttemptsFails | app/utils/date_calculator.py:68-74 | an expression the library refuses, or a budget of zero attempts, gives FAILED without a trigger |
| DateCalculator.InitialTrigger | app/utils/date_calculator.py:20-50 | the specification of `calculate_initial_trigger_time`: the recurring, one-shot and countdown branches and the two configuration errors (stated by the lemmas below) |
| DateCalculator.InitialTriggerErrors | app/utils/date_calculator.py:29-50 | the calculation raises exactly when a recurring task lacks `cron_config` or a one-shot task lacks both one-shot configurations |
| DateCalculator.ValidatedTaskGetsTrigger | app/utils/date_calculator.py:20-50 | a task that passed schema validation never makes the calculation raise |
| DateCalculator.OneShotTrigger | app/utils/date_calculator.py:37-41 | an absolute time in the future is kept, one at or before now becomes now plus one second, and the task is PENDING |
| DateCalculator.CountdownTrigger | app/utils/date_calculator.py:43-48 | the countdown branch is PENDING exactly when the duration parses, firing that many seconds after now, and FAILED without a trigger otherwise |
| DateCalculator.RecurringTrigger | app/utils/date_calculator.py:29-35 | a recurring task with a rule searches from now with the default budget of 732 attempts |
| Schemas.FirstInvalidLimitDay | app/schemas.py:44-47 | the first item whose upper-cased form is not an allowed day type; none exactly when every item is allowed |
| Schemas.NormalizeLimitDays | app/schemas.py:40-48 | `None` passes unchanged; a list passes exactly when every item upper-cased is allowed and then becomes the upper-cased items, in order; the error names an item of the list |
| Schemas.NormalizeLimitDaysIdempotent | app/schemas.py:40-48 | normalising a normalised list gives the same result |
| Schemas.ValidateCron | app/schemas.py:22-48 | a rule passes exactly when the lunar bounds hold, the lunar fields are present exactly for a lunar rule and `limit_days` normalises; the result is the rule with `limit_days` normalised, and is well-formed |
| Schemas.ValidateCronIdempotent | app/schemas.py:22-48 | a validated rule validates to itself |
| Schemas.DigitRun | app/schemas.py:57 | the leading run of digits: all digits, and followed by a non-digit or the end |
| Schemas.TakeGroup | app/schemas.py:57 | one optional group `((\d+)u)?` reads back a non-empty digit run followed by the unit, and the text is the group's rendering followed by the rest |
| Schemas.MatchGroupsSound | app/schemas.py:57 | what the four optional groups match is well-formed groups whose rendering is the whole text |
| Schemas.MatchGroupsComplete | app/schemas.py:57 | the rendering of any well-formed groups is matched back to exactly those groups |
| Schemas.LaterGroupsSkip | app/schemas.py:57 | a rendering of later slots never lets the group of an earlier unit take part |
| Schemas.TakeFirstGroup | app/schemas.py:57 | the first group of a rendering is taken back, leaving the rendering of the others |
| Schemas.RenderGroupsChars | app/schemas.py:57 | a rendering holds only digits and the four unit letters |
| Schemas.MatchBodySound | app/schemas.py:57 | a full match gives well-formed groups that render to the text |
| Schemas.MatchBodyComplete | app/schemas.py:57 | the rendering of well-formed groups fully matches to them |
| Schemas.RenderHasNoNewline | app/schemas.py:57 | a rendering holds no newline |
| Schemas.MatchAfterNewline | app/schemas.py:57 | a match that is not a full match comes from `$` matching before one final newline |
| Schemas.CountdownPatternSound | app/schemas.py:57 | whatever `re.match` of the countdown pattern accepts is the rendering of well-formed groups, possibly followed by one newline |
| Schemas.CountdownPatternComplete | app/schemas.py:57 | the rendering of well-formed groups, with or without one final newline, is matched to exactly those groups |
| Schemas.ValidateCountdown | app/schemas.py:54-59 | the duration passes exactly when the pattern matches its lower-cased form and it is not empty; it is kept unchanged |
| Schemas.PartsOf | app/schemas.py:57 | the four groups put into named slots come back unchanged |
| Schemas.ValidateTaskInfo | app/schemas.py:66-108 | a task passes exactly when its fields are acceptable (the recipient address included, as the `EmailStr` check of app/schemas.py:19 judges it), exactly one channel is configured and the schedule configuration fits the task type; the result has its cron rule normalised and well-formed and its address in the normalised form the check returned |
| Schemas.ValidateTaskInfoIdempotent | app/schemas.py:66-108 | with an address check (app/schemas.py:19) that accepts its own output unchanged, a validated task validates to itself |
| JsonTree.DeepMergeSelf | app/main.py:491-497 | merging a dictionary into itself changes nothing |
| JsonTree.DeepMergeIdempotent | app/main.py:491-497 | applying the same update twice gives the result of applying it once |
| JsonTree.DeepMergeEmptyUpdate | app/main.py:491-497 | an empty update leaves the target unchanged |
| JsonTree.DeepMergeEmptyTarget | app/main.py:491-497 | merging into an empty dictionary gives the update itself |
| Crud.IndexOfTask | app/crud.py:9-10 | the position of the first row with the id; none exactly when no row has it |
| Crud.FindTask | app/crud.py:9-10 | `get_task`: a row of the table with the id; none exactly when no row has it |
| Crud.InsertByCreation | app/crud.py:13 | inserting a row into a newest-first list adds exactly that row and keeps the list newest first |
| Crud.InsertKeepsRows | app/crud.py:13 | putting a row back in front of an insertion keeps every row and adds the inserted one once |
| Crud.InsertKeepsOrder | app/crud.py:13 | a row no newer than the head keeps the list newest first when inserted behind it |
| Crud.ByCreation | app/crud.py:13 | `ORDER BY created_at DESC`: a permutation of the table, newest first |
| Crud.Window | app/crud.py:13 | `.offset(skip).limit(limit)`: at most `limit` rows, the rows from position `skip` on in order |
| Crud.GetTasksPage | app/crud.py:12-13 | `get_tasks`: the page has the requested number of rows (fewer at the end), newest first, all rows of the table |
| Crud.GetTasksAll | app/crud.py:12-13 | a first page at least as large as the table holds every row exactly once |
| Crud.ReplaceTask | app/crud.py:67 | committing a changed row keeps the number of rows |
| Crud.ReplaceTaskRows | app/crud.py:67 | with unique ids, the row with the committed row's id is replaced, every other row is kept, and ids stay unique |
| Crud.WithStatus | app/crud.py:21-22 | `get_tasks_for_recalculation`: exactly the rows with the status, no more rows than the table |
| Crud.ArmableAtStart | app/services/task_scheduler.py:29-32 | exactly the rows that are PENDING and have a trigger time |
| Crud.DaysOfYear | app/crud.py:83-84 | exactly the calendar rows of the year |
| Crud.IndexOfDate | app/crud.py:80-81 | `get_holiday_date` over the rows present at the start of the call: a row with the date, or none among them |
| Crud.ApplyUpdateColumns | app/crud.py:43-69 | the update fails exactly when new information does not validate; the id and creation time never change, status and trigger change exactly when set, the stored information is the validated shallow merge, and with a dumped partial the name and recurrence columns take the partial's values when present and keep theirs otherwise |
| Crud.ShallowMergeReplaces | app/crud.py:53 | `{**stored, **partial}`: the keys of both, the partial's value under its keys (a nested dictionary replaced whole), the stored value elsewhere |
| Crud.NewRow | app/crud.py:107-113 | the inserted row carries the day's date |
| Crud.ApplyUpdate | app/crud.py:43-69 | the row an update produces from the stored row, specified column by column in `ApplyUpdateColumns` |
| Crud.UpsertDay | app/crud.py:93-114 | processing one day never removes a row |
| Crud.UpsertDays | app/crud.py:92-114 | processing the days in order never removes a row |
| Crud.UpsertDaysAppend | app/crud.py:92-114 | processing `a + b` is processing `a` and then `b`, and stops at an error in `a` |
| Crud.UpsertDayCounts | app/crud.py:99-114 | one day adds at most one row and counts it as created, or counts at most one update |
| Crud.UpsertCounts | app/crud.py:88-114 | every inserted row is counted as created, and created plus updated is at most the number of days |
| Crud.UpsertExistingDay | app/crud.py:99-105 | a date already stored keeps its row, which takes the three fields and the raw data; the update is counted exactly when a field changed |
| Crud.UpsertNewDay | app/crud.py:106-114 | a date not stored before the call is appended as built, counted as created, and fails exactly when building the row fails |
| Crud.NewRowFields | app/crud.py:107-113 | the new row holds the service's fields, the year and month the service gives or else the call's year and characters 5-6 of the date, and the day from characters 8-9 |
| Crud.DateTextFields | app/crud.py:109 | a `YYYY-MM-DD` date whose month and day are digits yields those numbers |
| Crud.UpdatedTableDistinct | app/crud.py:92-114 | updates keep dates, so a run without duplicate inserts keeps the dates unique |
| Crud.UpsertKeepsDates | app/crud.py:99-105 | without inserts the table keeps its length and every row its date |
| Crud.UpsertCoversDates | app/crud.py:92-114 | rows keep their dates, and every processed day's date has a row afterwards |
| Crud.UpsertDayCovers | app/crud.py:93-114 | one day keeps every row's date and leaves a row with its date |
| Crud.UpsertDayRefreshes | app/crud.py:99-105 | a stored date is refreshed in place and keeps every date |
| Crud.UpsertDayAppends | app/crud.py:106-114 | a new date is appended after every existing row |
| Crud.UpsertAll | app/crud.py:86-116 | the specification of a whole upsert call over every day of every month: the new table and counters, or the first error (stated by `UpsertAllShape` and `UpsertCounts`) |
| Crud.UpsertAllShape | app/crud.py:86-116 | a successful call adds one row per created day, keeps dates unique and leaves a row for every date the service sent |
| Crud.Database.constructor | app/database.py:22-24 | a new database holds no tasks and no calendar rows |
| Crud.Database.CreateTask | app/crud.py:24-41 | the new row holds the given fields and the creation time, and is appended; the calendar is unchanged |
| Crud.Database.SaveTask | app/crud.py:67-68 | the committed row replaces the row with its id |
| Crud.Database.UpdateTask | app/crud.py:43-69 | a missing id or an invalid merge changes nothing; otherwise the found row becomes `ApplyUpdate` of it |
| Crud.Database.MergeRow | app/crud.py:48-65 | the row as changed attribute by attribute equals `ApplyUpdate` |
| Crud.Database.DeleteTask | app/crud.py:71-77 | true exactly when a row had the id; afterwards no row has it and every other row remains |
| Crud.Database.UpsertHolidayDates | app/crud.py:86-116 | the result and the table follow `UpsertAll`; an error leaves the table unchanged and nothing is committed when nothing changed |
| Crud.UpsertMonth | app/crud.py:93-114 | the loop over one month equals `UpsertDays` |
| Crud.UpsertOne | app/crud.py:94-114 | the step for one day equals `UpsertDay` |
| TaskScheduler.JobFor | app/services/task_scheduler.py:59-77 | a row has a job exactly when it has a trigger; the job runs that task at the trigger with a grace of 3600 seconds when recurring and 600 otherwise |
| TaskScheduler.Armed | app/services/task_scheduler.py:59-77 | the job store after `add_or_update_job_in_scheduler` with `replace_existing=True` (stated by `ArmedLookup`) |
| TaskScheduler.ArmedLookup | app/services/task_scheduler.py:59-77 | arming a row replaces the job under its id when it has a trigger and changes no other id |
| TaskScheduler.ArmAllJobs | app/services/task_scheduler.py:34-35 | arming rows with distinct ids gives each row with a trigger its job and leaves every other id's job alone |
| TaskScheduler.TakeResultShape | app/services/task_scheduler.py:118-132 | a search result is taken in the recalculated shape: armed exactly when PENDING, kept waiting when PENDING_CALCULATION, job removed otherwise |
| TaskScheduler.Recalculate | app/services/task_scheduler.py:104-141 | the specification of one row of the daily pass: the new row and its job action (stated by `RecalculateOutcome`, `RecalculateUnparsable` and `RecalculateRecurring`) |
| TaskScheduler.RecalculateOutcome | app/services/task_scheduler.py:103-141 | every PENDING_CALCULATION row comes out with only its status and trigger changed, armed exactly when PENDING with a trigger and removed when FAILED or COMPLETED |
| TaskScheduler.RecalculateUnparsable | app/services/task_scheduler.py:138-141 | task information that does not parse marks the row FAILED, keeps its trigger and removes its job |
| TaskScheduler.RecalculateRecurring | app/services/task_scheduler.py:107-132 | a recurring rule searches from one minute before the stored trigger (or now) and the row takes the search's status and trigger |
| TaskScheduler.MaintainAll | app/services/task_scheduler.py:103-141 | the specification of the loop over the rows to recalculate, one after another (stated by `MaintainAllRows` and `MaintainAllJobs`) |
| TaskScheduler.MaintainAllRows | app/services/task_scheduler.py:103-141 | over unique ids the pass keeps the length and the ids unique, and replaces exactly the recalculated rows by their recalculated form |
| TaskScheduler.MaintainedKeepsId | app/services/task_scheduler.py:103-141 | a row keeps its id through the pass |
| TaskScheduler.MaintainedStep | app/services/task_scheduler.py:103-141 | recalculating one more row changes only the row with its id |
| TaskScheduler.RecalculateKeepsId | app/services/task_scheduler.py:103-141 | recalculation keeps the row's id |
| TaskScheduler.ApplyActionLookup | app/services/task_scheduler.py:82-89 | one row's action changes at most the job under its id |
| TaskScheduler.MaintainAllOtherJobs | app/services/task_scheduler.py:103-141 | ids the pass does not recalculate keep their job |
| TaskScheduler.MaintainAllJobs | app/services/task_scheduler.py:103-141 | each recalculated id ends with the job its own action gives, every other id keeps its job |
| TaskScheduler.SchedulerService.constructor | app/services/task_scheduler.py:15-19 | a new scheduler holds no jobs and is not running |
| TaskScheduler.SchedulerService.AddOrUpdateJob | app/services/task_scheduler.py:59-80 | the job store becomes `Armed` of the row: a row without a trigger is skipped, a past trigger is still scheduled |
| TaskScheduler.SchedulerService.RemoveJob | app/services/task_scheduler.py:82-89 | the id's job is removed, and an id without a job changes nothing |
| TaskScheduler.SchedulerService.Start | app/services/task_scheduler.py:21-52 | a running scheduler is left as it is; a stopped one arms every PENDING row with a trigger, adds the daily maintenance job and runs |
| TaskScheduler.SchedulerService.DailyMaintenance | app/services/task_scheduler.py:91-147 | the table and job store become `MaintainAll` over the PENDING_CALCULATION rows in table order; the calendar is not changed |
| TaskScheduler.SchedulerService.RecalculateRow | app/services/task_scheduler.py:104-141 | one row is recalculated and committed, then armed or removed as its action says |
| TaskScheduler.RecalculateTask | app/services/task_scheduler.py:105-141 | the branches for one row give the row and job action `Recalculate` states |
| TaskScheduler.StartArmsPending | app/services/task_scheduler.py:29-35 | start-up gives every PENDING row with a trigger its job at that trigger |
| TaskScheduler.ArmableDistinct | app/services/task_scheduler.py:29-32 | the rows armed at start-up have unique ids |
| TaskScheduler.WithStatusDistinct | app/crud.py:21-22 | the rows with one status have unique ids |
| TaskScheduler.DailyPassEffect | app/services/task_scheduler.py:99-141 | over unique ids every PENDING_CALCULATION row becomes its recalculated form and takes the job its action gives; every other row and every other id's job stays as it was |
| TaskExecutor.ReminderContent | app/services/task_executor.py:35-52 | the reminder text without an @ prefix: the stored content, or the Dify text with its two fallbacks (stated by `GeneratedContentUsed`) |
| TaskExecutor.Recipient | app/services/task_executor.py:63 | the target chat when set, else the triggering user (stated by `RecipientAndMention`) |
| TaskExecutor.Deliver | app/services/task_executor.py:80-113 | the delivery through the webhook, else the mail channel when the settings are complete, else none (stated by `MailNeedsConfiguration` and `UndeliverableRun`) |
| TaskExecutor.Reschedule | app/services/task_executor.py:115-145 | the specification of what follows a delivery: the next search for a recurring rule, otherwise no trigger and no job (stated by `OneShotRun` and `RecurringRun`) |
| TaskExecutor.Execute | app/services/task_executor.py:25-155 | the specification of one run on a found row: the row committed last and its job action (stated by `RunOutcome`, `SkippedRun`, `UnparsableRun` and `ExecuteTaskById`) |
| TaskExecutor.GeneratedContentUsed | app/services/task_executor.py:37-48 | generated text is used when it is non-empty and does not start with "Dify"; otherwise the reminder ends with the original prompt |
| TaskExecutor.SkippedRun | app/services/task_executor.py:25-29 | a row neither PENDING nor RUNNING is left as it is, and its job is removed only when it has no trigger |
| TaskExecutor.RunOutcome | app/services/task_executor.py:25-145 | a run keeps the row's id, information and recurrence, never leaves it RUNNING, and arms its job exactly when it ends PENDING with a trigger |
| TaskExecutor.OneShotRun | app/services/task_executor.py:115-145 | a one-shot run that reached a channel ends COMPLETED exactly when the delivery succeeded, loses its trigger and its job |
| TaskExecutor.UndeliverableRun | app/services/task_executor.py:63-70 | without a recipient or without a channel the run is FAILED, keeps its trigger, and only a one-shot task loses its job |
| TaskExecutor.UnparsableRun | app/services/task_executor.py:149-155 | stored information that does not parse fails the run, keeps its trigger and removes its job |
| TaskExecutor.RecurringRun | app/services/task_executor.py:118-140 | a recurring run stores the search from now whatever the delivery did, and keeps its job exactly when that leaves it PENDING with a trigger |
| TaskExecutor.RecipientAndMention | app/services/task_executor.py:57-90 | the target chat wins over the triggering user; in a group chat the triggering user is @-mentioned, with the stored nickname |
| TaskExecutor.MailNeedsConfiguration | app/services/task_executor.py:91-106 | with incomplete mail settings no mail is handed over and the delivery counts as failed |
| TaskExecutor.ExecuteTaskById | app/services/task_executor.py:11-157 | a missing row only loses its job; otherwise the table and job store end as `Execute` of the found row says, the calendar unchanged |
| TaskExecutor.FinishRun | app/services/task_executor.py:115-145 | after a delivery the row is committed as `Reschedule` says and its job armed or removed |
| TaskExecutor.LookupReplace | app/crud.py:9-10 | the row found by id is the one a commit of that id overwrites |
| TaskExecutor.ReplaceSame | app/services/task_executor.py:130 | committing a row unchanged leaves the table as it is |
| TaskExecutor.ReplaceTwice | app/services/task_executor.py:31-32 | of two commits of one row the later one remains |
| Notification.ReplaceKey | app/services/notification_service.py:27-30 | one key of the table: `{{key}}` replaced first, then `{key}` (stated by `DoubleBraceFirst`) |
| Notification.ReplaceKeys | app/services/notification_service.py:24-31 | the specification of the string branch: the keys of the table applied in order (stated by `ReplaceKeysInString` and `NoPlaceholderUnchanged`) |
| Notification.ReplaceKeysInString | app/services/notification_service.py:24-31 | the loop over the replacement table gives the string `ReplaceKeys` specifies |
| Notification.Substitute | app/services/notification_service.py:14-33 | dictionaries keep their keys, lists their length, strings are rewritten key by key, and every other leaf is returned unchanged |
| Notification.SubstitutePointwise | app/services/notification_service.py:20-23 | each dictionary entry and each list item is substituted on its own |
| Notification.NoPlaceholderUnchanged | app/services/notification_service.py:24-31 | a string in which no key appears in braces is returned unchanged |
| Notification.DoubleBraceFirst | app/services/notification_service.py:29-30 | `{{name}}` is replaced whole, leaving no stray braces |
| Notification.TextContent | app/services/notification_service.py:53-57 | the text is prefixed with `@` and the nickname (else the @ target) and a space exactly when there is an @ target |
| Notification.SimplePayload | app/services/notification_service.py:50-70 | the payload without a template (stated by `SimplePayloadShape`) |
| Notification.SimplePayloadShape | app/services/notification_service.py:50-70 | without a template the payload is one type-0 item addressed to the recipient with the text content, and an @ list exactly when there is an @ target |
| Notification.TemplatePayload | app/services/notification_service.py:73-121 | the substituted template with its first item fixed up (stated by `TemplateFixUps` and `TemplateWithoutItem`) |
| Notification.Payload | app/services/notification_service.py:47-121 | always a dictionary (the template is one, app/schemas.py:14); the simple payload when the template is missing or empty, the templated one otherwise |
| Notification.TemplateFixUps | app/services/notification_service.py:73-121 | a templated first item is addressed to the recipient, its @ list is the @ target when there is one, a literal `["string"]` list becomes empty, any other list and every other key keep their substituted value |
| Notification.TemplateWithoutItem | app/services/notification_service.py:93-121 | a template without a first message item that is a dictionary is only substituted |
| Notification.BuildRequest | app/services/notification_service.py:127-137 | no request exactly when the upper-cased method is neither POST nor GET; POST sends `Payload` as the JSON body; GET sends every payload field as a parameter, adds `user_id` with the triggering user exactly when the payload has none and the user is set, and adds nothing else; both keep the configured url and headers |
| Notification.MethodCaseInsensitive | app/services/notification_service.py:127 | the method is compared case-insensitively |
| Notification.SendWebhook | app/services/notification_service.py:125-152 | `send_webhook_notification`'s result: false without a request, else whether the request succeeded (stated by `UnsupportedMethodFails`) |
| Notification.UnsupportedMethodFails | app/services/notification_service.py:135-137 | an unsupported method reports failure whatever the network would do |
| MainApi.CheckApiKey | app/main.py:20-42 | without a server key every request passes; otherwise a request passes exactly with the server's key, a missing key is 401 and a wrong one 403 |
| MainApi.DeepUpdate | app/main.py:491-497 | the loop writing the update's keys into a copy of the target, recursing into nested dictionaries, gives `DeepMerge` |
| MainApi.DeepMergeShape | app/main.py:491-497 | the merge holds the keys of both sides; target-only keys keep their value, a key whose new or old value is not a dictionary takes the new value, two dictionaries are merged again |
| MainApi.DeepMergeKeepsNestedKeys | app/main.py:493-494 | a nested update overrides only the leaves it names: every stored nested key survives |
| MainApi.ShallowAfterDeepMerge | app/crud.py:53 | the crud layer's shallow merge of the stored information with the deep-merged one changes nothing |
| MainApi.InheritContext | app/main.py:322-324 | the three context keys copied from the stored information when the merge lacks them and the stored value is not null (stated by `InheritAfterDeepMergeIsIdentity`) |
| MainApi.InheritAfterDeepMergeIsIdentity | app/main.py:322-324 | after the deep merge, copying context keys from the stored information never changes anything |
| MainApi.DecideCreate | app/main.py:73-88 | a configuration error, or FAILED without a trigger, is refused with 400; otherwise the task is stored with the calculated trigger and status and armed exactly when PENDING with a trigger |
| MainApi.PendingCalculationNotArmed | app/main.py:85-88 | a task waiting for calendar data is stored but not armed |
| MainApi.CreateNewTask | app/main.py:69-89 | a refused task stores nothing and changes no job; an accepted one is appended with the calculated trigger and status and armed as `DecideCreate` says |
| MainApi.PlanUpdate | app/main.py:482-548 | the specification of `update_existing_task` up to the crud call (stated by `UpdateWithInfoRecalculates` and `UpdateWithoutInfo`) |
| MainApi.UpdateWithInfoRecalculates | app/main.py:482-532 | with new task information the plan fails with 400 exactly when the deep merge does not validate or the trigger calculation fails; otherwise status and trigger are recalculated and the scheduler is synchronised |
| MainApi.UpdateWithoutInfo | app/main.py:534-548 | without new task information a given status is stored, a given trigger is stored and makes the task PENDING unless it is PENDING_CALCULATION, and the scheduler is synchronised exactly when either was given |
| MainApi.UpdateExistingTask | app/main.py:469-580 | a missing row is 404 and a refused plan or a failing crud validation changes nothing; otherwise the row is replaced and, when synchronised, armed if PENDING with a trigger and its job removed otherwise |
| MainApi.SyncedJobPresence | app/main.py:560-568 | after a synchronised update the task has a job exactly when it is PENDING with a trigger, and no other job changes |
| MainApi.DeleteExistingTask | app/main.py:583-597 | a missing row is 404; otherwise the row and its job are removed and every other row remains |
| MainApi.NameMatches | app/main.py:259-261 | exactly the rows whose name contains the keyword, ignoring case |
| MainApi.ResolveTarget | app/main.py:248-269 | the specification of target resolution for updates, and for deletes at app/main.py:394-415 (stated by `ResolveById`, `ResolveByKeyword` and `ResolveWithoutIdentifier`) |
| MainApi.ResolveById | app/main.py:252-255 | by id: the row with that id, else 404 |
| MainApi.ResolveByKeyword | app/main.py:256-267 | by keyword: the single row among the newest thousand whose name contains it, ignoring case; several are 400 and none is 404 |
| MainApi.ResolveWithoutIdentifier | app/main.py:268-269 | with neither an id nor a keyword the request is 400 |
| MainApi.SingleMatch | app/main.py:262-263 | a single candidate is a row of the scope whose name contains the keyword, and the only such row |
| MainApi.ScopeWithinTable | app/main.py:258 | the searched rows are rows of the table |
| MainApi.TargetStatuses | app/main.py:190-204 | a status word that names an enum member in any case selects that member; "进行中" selects PENDING and RUNNING, "待执行" PENDING; no word, or any other word, selects nothing, so no status filter applies |
| MainApi.Filter | app/main.py:207-222 | the corrected query filter, with a null description read as empty text (stated by `FilterMembers` and `FilterSelectsAll`) |
| MainApi.FilterMembers | app/main.py:207-222 | the result holds exactly the rows that match, no row more often than in the input |
| MainApi.FilterSelectsAll | app/main.py:207-222 | without a status and a keyword every row is returned, in order |
| MainApi.QueryTasks | app/main.py:180-235 | the query result is the corrected filter over the newest two hundred rows |
| MainApi.FilterRows | app/main.py:207-222 | the filtering loop gives `Filter` |
| MainApi.FilterAsWritten | app/main.py:207-222 | the query filter as written, failing with 500 on the first reached row whose description or reminder content is not text (stated by `FilterAsWrittenAgrees`) |
| MainApi.FilterAsWrittenAgrees | app/main.py:211-219 | the filter as written fails exactly when some reached row has a description or reminder content that is not text, and otherwise agrees with the corrected filter |
| MainApi.NullDescriptionFailsQuery | app/main.py:213 | a task stored without a description makes a keyword query fail that the corrected filter answers |
| MainApi.SplitUpdateFields | app/main.py:275-285 | task-information fields go to the partial information, update-request fields to the top-level arguments, anything else is dropped |
| MainApi.StatusByValue | app/models.py:13-18 | the member with that stored value, none exactly when no member has it |
| MainApi.NlpStatus | app/main.py:339-344 | the corrected conversion: no status without one, else the member named by the upper-cased text, 400 when there is none |
| MainApi.StatusAlwaysTopLevel | app/main.py:279-285 | a raw status always lands among the top-level arguments, never in the partial information |
| MainApi.NlpStatusAsWritten | app/main.py:339-360 | the status of a natural-language update as written, after the split at app/main.py:279-285: the raw text validated against the stored values (stated by `EnglishStatusRefused`) |
| MainApi.EnglishStatusRefused | app/main.py:339-360 | "PENDING" is refused as written and accepted by the conversion by name |
| MainApi.CalendarUpdateYear | app/main.py:599-602 | the years from 2000 to five years after the current one are accepted, all others are 400 |
| NlpService.UserPromptContent | app/services/nlp_service.py:116 | the user message ends with the query in double quotes |
| NlpService.TaskParsingPrompt | app/services/nlp_service.py:118-121 | exactly a system message with the given text, then the user message |
| NlpService.PromptEmbedsQuery | app/services/nlp_service.py:116-121 | the second message is from the user and its text contains the query |
| NlpService.AnswerContent | app/services/nlp_service.py:154-157 | content is read only when it is non-empty text |
| NlpService.AnswerContentRoundTrip | app/services/nlp_service.py:154-157 | the content of a well-formed answer is read back unchanged; an answer without choices has none |
| NlpService.StripFences | app/services/nlp_service.py:160-164 | the fence removal (stated by the four fence lemmas and `UnfencedKept`) |
| NlpService.JsonFenceTaken | app/services/nlp_service.py:161-162 | stripped text starting with "```json" is cut after its first "```json" and at the last "```" |
| NlpService.PlainFenceTaken | app/services/nlp_service.py:163-164 | stripped text starting with "```" but not "```json" is cut after its first "```" and at the last "```" |
| NlpService.JsonFenceRemoved | app/services/nlp_service.py:161-162 | a "```json" fence around a body gives the stripped body |
| NlpService.PlainFenceRemoved | app/services/nlp_service.py:163-164 | a plain fence around a body not beginning with "json" gives the stripped body |
| NlpService.UnfencedKept | app/services/nlp_service.py:161-164 | text whose stripped form does not start with a fence is kept as it is |
| NlpService.LimitDaysItems | app/services/nlp_service.py:172 | every item is non-empty, stripped text without a comma, and a text is an item exactly when it is a non-blank stripped piece between commas |
| NlpService.LimitDaysItemsAppend | app/services/nlp_service.py:172 | the items keep the text's order: two texts joined by a comma give the first one's items, then the second one's |
| NlpService.SingleLimitDay | app/services/nlp_service.py:172 | text without a comma is one stripped item, or none when it is blank |
| NlpService.FixLimitDays | app/services/nlp_service.py:169-172 | a text `limit_days` becomes the list of its items; every other key, and a non-text `limit_days`, is unchanged |
| NlpService.FixLimitDaysIdempotent | app/services/nlp_service.py:169-172 | repairing twice is repairing once |
| NlpService.FixParsed | app/services/nlp_service.py:166-186 | a decoded value that is not a dictionary yields nothing; otherwise the keys are kept and every key other than the two repaired ones is unchanged |
| NlpService.RepairTopLevel | app/services/nlp_service.py:175-176 | a top-level `cron_config` dictionary has its `limit_days` repaired; nothing else changes |
| NlpService.RepairUpdateFields | app/services/nlp_service.py:178-183 | only `update_fields` can change, and only for UPDATE_TASK |
| NlpService.UpdateFieldsOnlyForUpdate | app/services/nlp_service.py:178-183 | outside UPDATE_TASK the update fields are left alone |
| NlpService.TopLevelRepaired | app/services/nlp_service.py:175-176 | after the repairs a top-level `cron_config` keeps its keys and holds no text `limit_days` |
| NlpService.RequestBody | app/services/nlp_service.py:137-141 | the request body: the model name, the messages and a JSON-object response format |
| NlpService.ParseNaturalLanguage | app/services/nlp_service.py:123-208 | the specification of the whole call (stated by `UnconfiguredMakesNoRequest` and `ParsedResultOrigin`) |
| NlpService.UnconfiguredMakesNoRequest | app/services/nlp_service.py:124-126 | incomplete settings give nothing, whatever the network would answer |
| NlpService.ParsedResultOrigin | app/services/nlp_service.py:123-208 | a result is the repaired dictionary decoded from the fence-stripped content of the answer to exactly the two-message request |
| MessageProcessor.DifyUserId | simple_dify_on_wechat/message_processor.py:41-45 | no id exactly for an empty sender; otherwise the prefix followed by the sender |
| MessageProcessor.DifyUserIdInjective | simple_dify_on_wechat/message_processor.py:41-45 | different senders get different Dify users |
| MessageProcessor.ConversationStore.constructor | simple_dify_on_wechat/message_processor.py:17 | the store starts empty |
| MessageProcessor.ConversationStore.Get | simple_dify_on_wechat/message_processor.py:47-48 | the stored conversation of the contact, none when there is none |
| MessageProcessor.ConversationStore.Set | simple_dify_on_wechat/message_processor.py:50-55 | the conversation is recorded exactly when both key and id are non-empty; other contacts keep theirs |
| MessageProcessor.LastWriteWins | simple_dify_on_wechat/message_processor.py:47-55 | after two writes the store answers with the later one, unless it was empty and ignored |
| MessageProcessor.ShouldProcess | simple_dify_on_wechat/message_processor.py:57-92 | handled exactly when there is a sender other than the bot, the kind is text, image or voice, and a group message mentions the bot |
| MessageProcessor.GroupNeedsMention | simple_dify_on_wechat/message_processor.py:83-91 | a group message that does not mention the bot is ignored |
| MessageProcessor.OwnMessagesIgnored | simple_dify_on_wechat/message_processor.py:69-71 | the bot's own messages are ignored |
| MessageProcessor.RemoveWhitespace | simple_dify_on_wechat/message_processor.py:149 | the result holds no whitespace and text without whitespace is unchanged |
| MessageProcessor.Repeat | simple_dify_on_wechat/message_processor.py:152 | the padding is `n` copies of the character |
| MessageProcessor.PadBase64 | simple_dify_on_wechat/message_processor.py:149-152 | whitespace removed, then at most three '=' added so the length is a multiple of four; text already of such a length is unchanged |
| MessageProcessor.PadBase64Idempotent | simple_dify_on_wechat/message_processor.py:149-152 | padding padded text changes nothing |
| MessageProcessor.Failure | simple_dify_on_wechat/message_processor.py:342-345 | an error is recorded and also sent as its bracketed text, without a file |
| MessageProcessor.ImageContribution | simple_dify_on_wechat/message_processor.py:349-377 | an image gives either an uploaded file with its part, or an error with its bracketed part |
| MessageProcessor.VoiceContribution | simple_dify_on_wechat/message_processor.py:379-436 | a voice message gives no file: either its recognised text as a part, or an error with its bracketed part |
| MessageProcessor.Contribute | simple_dify_on_wechat/message_processor.py:333-438 | every message contributes in that shape, and a message of another kind contributes nothing |
| MessageProcessor.EmptyTextMessage | simple_dify_on_wechat/message_processor.py:340-346 | a text message without content adds its error, numbered from 1, and the error in brackets |
| MessageProcessor.Contributions | simple_dify_on_wechat/message_processor.py:333-438 | one contribution per message, in order |
| MessageProcessor.CountsBound | simple_dify_on_wechat/message_processor.py:317-438 | files plus errors are at most the parts, and the parts at most the messages |
| MessageProcessor.BatchCountsBound | simple_dify_on_wechat/message_processor.py:316-479 | a batch yields no more files and errors than parts, and no more parts than messages |
| Text.NonEmpty | simple_dify_on_wechat/message_processor.py:460 | `filter(None, parts)`: no longer than the input, holds exactly the non-empty parts, and is the input itself when no part is empty |
| Text.NonEmptyAppend | simple_dify_on_wechat/message_processor.py:460 | filtering a concatenation filters each half, so every non-empty part is kept once and in its place |
| MessageProcessor.PrefixElements | simple_dify_on_wechat/message_processor.py:441-453 | at most three elements for a group and two otherwise |
| MessageProcessor.GroupAddsRoom | simple_dify_on_wechat/message_processor.py:442-453 | a group's elements are its room followed by the elements of a private message from the same sender |
| MessageProcessor.QueryPrefix | simple_dify_on_wechat/message_processor.py:455-457 | empty exactly without elements, otherwise bracketed and followed by a space |
| MessageProcessor.GroupPrefixFull | simple_dify_on_wechat/message_processor.py:442-457 | a group message with room, sender and nickname names all three, in that order |
| MessageProcessor.PrivatePrefixFull | simple_dify_on_wechat/message_processor.py:449-457 | a private message with sender and nickname names both, and no room |
| MessageProcessor.BlankNicknameOmitted | simple_dify_on_wechat/message_processor.py:447-453 | a blank nickname is left out as a missing one |
| MessageProcessor.MessageContent | simple_dify_on_wechat/message_processor.py:460-468 | the stripped newline join of the non-empty parts when it is not empty; else a note for uploaded files, errors or nothing, in that order |
| MessageProcessor.PrepareBatchedQuery | simple_dify_on_wechat/message_processor.py:316-479 | an empty batch gives an empty query, no files and one error; otherwise files and errors in message order and the first message's prefix before the content |
| MessageProcessor.MatchAt | simple_dify_on_wechat/message_processor.py:39 | a match at a position is a well-formed image markup span starting there |
| MessageProcessor.AltEnd | simple_dify_on_wechat/message_processor.py:39 | the lazy alternative text ends at the first "](" with no newline before it |
| MessageProcessor.UrlEnd | simple_dify_on_wechat/message_processor.py:39 | the lazy URL ends at the first ')' with no newline before it |
| MessageProcessor.FirstImageFrom | simple_dify_on_wechat/message_processor.py:511 | the match found lies at or after the position |
| MessageProcessor.FirstImageLeftmost | simple_dify_on_wechat/message_processor.py:511 | the match found is the leftmost one, and none is found only when no position starts one |
| MessageProcessor.SplitImages | simple_dify_on_wechat/message_processor.py:511 | the cut of an answer has at least one piece |
| MessageProcessor.MarkupAt | simple_dify_on_wechat/message_processor.py:511 | a text is the part before a match, the markup and the part after |
| MessageProcessor.SplitStep | simple_dify_on_wechat/message_processor.py:511 | the cut is the text before the first image, the image, and the cut of the rest |
| MessageProcessor.RoundTripNoImage | simple_dify_on_wechat/message_processor.py:511 | text without an image renders back as itself |
| MessageProcessor.SplitImagesRoundTrip | simple_dify_on_wechat/message_processor.py:511 | the pieces rendered back together are the answer |
| MessageProcessor.NoMarkupFrom | simple_dify_on_wechat/message_processor.py:511 | text without "![" contains no image |
| MessageProcessor.PlainAnswer | simple_dify_on_wechat/message_processor.py:510-527 | plain text without images gives one stripped text reply, none when blank |
| MessageProcessor.AnswerActions | simple_dify_on_wechat/message_processor.py:510-527 | the replies of the pieces of an answer, with the corrected split (stated by `AnswerToActions` and `CapturedGroupsRepeated`) |
| MessageProcessor.AnswerActionsAsWritten | simple_dify_on_wechat/message_processor.py:510-527 | the replies as written, the captured groups included (stated by `CapturedGroupsRepeated`) |
| MessageProcessor.AnswerToActions | simple_dify_on_wechat/message_processor.py:510-527 | the answer's replies with the corrected split, in the answer's order |
| MessageProcessor.PiecesToActions | simple_dify_on_wechat/message_processor.py:513-527 | the loop over the pieces gives the replies `AnswerActions` specifies |
| MessageProcessor.FullMatch | simple_dify_on_wechat/message_processor.py:517-520 | a full match gives back two groups that rebuild the part |
| MessageProcessor.FullMatchMarkup | simple_dify_on_wechat/message_processor.py:517-520 | markup whose groups hold no newline and whose alternative text holds no "](" is matched back into those groups |
| MessageProcessor.LoneImageMatch | simple_dify_on_wechat/message_processor.py:511 | the markup of an image of plain words is matched from its first character to its last |
| MessageProcessor.SplitLoneImage | simple_dify_on_wechat/message_processor.py:511 | an answer that is one image of plain words is one image between two empty texts |
| MessageProcessor.LoneImageParts | simple_dify_on_wechat/message_processor.py:511 | the split with the capture group returns the markup followed by both groups again |
| MessageProcessor.PlainWordAction | simple_dify_on_wechat/message_processor.py:524-527 | a plain word is sent as text |
| MessageProcessor.MarkupAction | simple_dify_on_wechat/message_processor.py:517-523 | image markup of plain words is sent as that image |
| MessageProcessor.CapturedGroupsRepeated | simple_dify_on_wechat/message_processor.py:511-527 | as written, one image answer sends the image and then its alternative text and URL as two texts; the corrected split sends the image alone |
| MessageProcessor.LoneImageAsWritten | simple_dify_on_wechat/message_processor.py:511-527 | as written, one image between texts without replies sends the image and its two groups as text |
| MessageProcessor.LoneImageIntended | simple_dify_on_wechat/message_processor.py:511-527 | the corrected split sends a lone image as that image alone |
| MessageProcessor.AddFile | simple_dify_on_wechat/message_processor.py:533-549 | a non-image file or one whose URL is already sent changes nothing; otherwise the image is appended, with "[图片]" first when there is neither answer text nor a text reply |
| MessageProcessor.AddFileUrls | simple_dify_on_wechat/message_processor.py:533-549 | one file adds its URL when it is an image, and drops no reply |
| MessageProcessor.AddFilesUrls | simple_dify_on_wechat/message_processor.py:531-549 | the image URLs after the pass are those before together with the files' image URLs, and no reply is dropped |
| MessageProcessor.AddFileDistinct | simple_dify_on_wechat/message_processor.py:535-546 | a file never makes an image URL appear twice |
| MessageProcessor.AddFilesDistinct | simple_dify_on_wechat/message_processor.py:531-549 | the pass over the files never sends an image URL twice, whatever duplicates the list holds |
| MessageProcessor.DuplicateFileSkipped | simple_dify_on_wechat/message_processor.py:535-540 | a file whose URL is already an image reply changes nothing |
| MessageProcessor.AnswerText | simple_dify_on_wechat/message_processor.py:508-510 | the answer is read only when it is non-empty text |
| MessageProcessor.SingleTextReply | simple_dify_on_wechat/message_processor.py:485-506 | a missing, text or error reply gives exactly one text reply; an error reply's text starts with "AI 服务暂时遇到问题：" |
| MessageProcessor.EmptyOnlyWithoutAnswer | simple_dify_on_wechat/message_processor.py:551-556 | no reply at all only for a reply without error, answer text or image files but with a file list |
| MessageProcessor.NothingGivesApology | simple_dify_on_wechat/message_processor.py:551-554 | without answer text and files the default apology is sent |
| MessageProcessor.AddGeneratedFile | simple_dify_on_wechat/message_processor.py:533-549 | one entry of the loop gives `AddFile` |
| MessageProcessor.AddGeneratedFiles | simple_dify_on_wechat/message_processor.py:531-549 | the loop over the entries gives `AddFiles` |
| MessageProcessor.ErrorDetail | simple_dify_on_wechat/message_processor.py:490-502 | the detail of an error reply: the JSON message, else the title or body text, else the error |
| MessageProcessor.ResponseActions | simple_dify_on_wechat/message_processor.py:481-557 | the specification of the reply list (stated by `PrepareWechatResponse`) |
| MessageProcessor.PrepareWechatResponse | simple_dify_on_wechat/message_processor.py:481-557 | the replies equal `ResponseActions`, with the corrected split |
| WechatClient.ContainsPastHead | simple_dify_on_wechat/wechat_client.py:26 | text whose first character differs from the pattern's first contains the pattern exactly when its tail does |
| WechatClient.NoHttpsAfterWs | simple_dify_on_wechat/wechat_client.py:26 | the first `replace` cannot create an "https://" that the second would then rewrite |
| WechatClient.WsUrl | simple_dify_on_wechat/wechat_client.py:26 | the sync URL (stated by `WsUrlFromHttp` and `WsUrlFromHttps`) |
| WechatClient.WsUrlFromHttp | simple_dify_on_wechat/wechat_client.py:26 | an http base URL becomes the ws URL of the sync endpoint with the token, nothing else changing |
| WechatClient.WsUrlFromHttps | simple_dify_on_wechat/wechat_client.py:26 | an https base URL becomes the wss URL of the sync endpoint with the token, nothing else changing |
| WechatClient.MessageId | simple_dify_on_wechat/wechat_client.py:42-47 | `new_msg_id` when present, otherwise an id ending in '_' and `msg_id` |
| WechatClient.AlnumRun | simple_dify_on_wechat/wechat_client.py:82 | the length of the longest leading run of ASCII letters and digits |
| WechatClient.SenderPrefix | simple_dify_on_wechat/wechat_client.py:82-84 | a matched sender id starts with "wxid_", has at least one alphanumeric character after it, and is followed in the content by ":\n" |
| WechatClient.SenderPrefixOf | simple_dify_on_wechat/wechat_client.py:82-84 | content of the form "wxid_<id>:\n…" yields exactly "wxid_<id>" |
| WechatClient.AlnumRunStops | simple_dify_on_wechat/wechat_client.py:82 | the alphanumeric run of an id stops at the first non-alphanumeric character after it |
| WechatClient.GroupNickEnd | simple_dify_on_wechat/wechat_client.py:99 | the lazy group ends at the first position after which a nickname tail follows, and spans no newline |
| WechatClient.GroupNickname | simple_dify_on_wechat/wechat_client.py:92-103 | a group nickname is non-empty, already stripped and free of newlines |
| WechatClient.NotNickTail | simple_dify_on_wechat/wechat_client.py:99 | text starting with neither whitespace, '在' nor ':' cannot end the nickname |
| WechatClient.GroupNicknameExample | simple_dify_on_wechat/wechat_client.py:94 | "momo在群聊中@了你" names "momo" |
| WechatClient.PrivateNickname | simple_dify_on_wechat/wechat_client.py:125-130 | a private nickname is non-empty, stripped, free of ':' and newline; there is none when the push text has no ':' |
| WechatClient.PrivateNicknameOf | simple_dify_on_wechat/wechat_client.py:125-130 | a stripped name without ':' or newline, followed by ':', is recovered exactly |
| WechatClient.PrivateNicknameExample | simple_dify_on_wechat/wechat_client.py:124-130 | "张三: 你好" names "张三" |
| WechatClient.AtList | simple_dify_on_wechat/wechat_client.py:117 | every mention is non-empty, stripped and without a comma, and a text is a mention exactly when it is a non-blank stripped piece between commas |
| WechatClient.AtListAppend | simple_dify_on_wechat/wechat_client.py:117 | mentions keep their order: two lists joined by a comma mention the first one's users, then the second one's |
| WechatClient.AtListSingle | simple_dify_on_wechat/wechat_client.py:117 | a single user id, padded or not, is one mention of its stripped form |
| WechatClient.ImageUrl | simple_dify_on_wechat/wechat_client.py:146-152 | the first truthy URL in the order hd, mid, thumb, none when all three are missing or empty |
| WechatClient.VoiceUrl | simple_dify_on_wechat/wechat_client.py:167-169 | cdnurl when truthy, else voiceurl when truthy, else none |
| WechatClient.KindOf | simple_dify_on_wechat/wechat_client.py:134-185 | text exactly for type 1, image exactly for 3, voice exactly for 34, and no kind otherwise |
| WechatClient.ReadSender | simple_dify_on_wechat/wechat_client.py:64-130 | group exactly for a "@chatroom" sender; a group message gets its room, the "wxid_" sender, the stripped content after the prefix, its nickname and mentions; a private message gets the sender name, the raw content, its nickname and no mentions |
| WechatClient.ReadKind | simple_dify_on_wechat/wechat_client.py:134-185 | no message exactly for an unknown kind; otherwise only the kind fields change: text keeps the content and has no file or format code; an image gets its placeholder and best URL and no data or format code; a voice message its placeholder, with XML content its format code and `VoiceUrl` (none of the two without it), and the pushed buffer exactly when non-empty |
| WechatClient.ParseWechatMessage | simple_dify_on_wechat/wechat_client.py:41-198 | no message exactly for an unknown kind, a group message without the sender prefix or an empty private sender; otherwise id, kind, group flag, room, sender, nickname and mention list as the sender half gives them, and content, file URL, file data and voice format code per kind as `ReadKind` states them, with a non-empty sender |
| WechatClient.SendTextBody | simple_dify_on_wechat/wechat_client.py:265-277 | one item carrying content, recipient and type 1; the mention list, holding the given ids in order, exactly when it is non-empty and the recipient is a group; no other keys |
| DifyHandler.MaxFileSizeBytes | simple_dify_on_wechat/dify_handler.py:24-28 | the configured number of megabytes in bytes, 15 MB when the setting is not an integer |
| DifyHandler.DefaultLimit | simple_dify_on_wechat/dify_handler.py:24-28 | the default setting gives 15 MB, and a non-integer setting falls back to the same limit |
| DifyHandler.FifteenParses | simple_dify_on_wechat/dify_handler.py:25 | the setting "15" reads as the integer 15 |
| DifyHandler.WordDoesNotParse | simple_dify_on_wechat/dify_handler.py:25-27 | a word is not an integer, so `int` fails on it |
| DifyHandler.RequestHeaders | simple_dify_on_wechat/dify_handler.py:17-23 | every passed header wins; the bearer key is present unless overridden; with files there is no Content-Type unless passed, without files it is JSON unless overridden; no other keys |
| DifyHandler.ChatPayload | simple_dify_on_wechat/dify_handler.py:87-101 | empty inputs, the query, the user and the response mode as asked; the conversation id exactly when truthy and the files exactly when non-empty; no other keys |
| DifyHandler.UploadFallbackMime | simple_dify_on_wechat/dify_handler.py:117-126 | png before jpg/jpeg by the lower-cased suffix, and the octet-stream fallback exactly when no listed suffix matches |
| DifyHandler.AudioFallbackMime | simple_dify_on_wechat/dify_handler.py:169-181 | mp3 is audio/mpeg, amr is audio/amr, and the octet-stream fallback exactly when no listed suffix matches |
| DifyHandler.SuffixesExclusive | simple_dify_on_wechat/dify_handler.py:118-125 | two suffixes with different last characters never both end a name, so the order of the branches matters only between overlapping ones |
| DifyHandler.UploadFallbackExamples | simple_dify_on_wechat/dify_handler.py:117-126 | an upper-case ".JPG" is lower-cased into image/jpeg; ".silk" has no upload fallback |
| DifyHandler.KeepReply | simple_dify_on_wechat/dify_handler.py:137-143 | a dictionary reply with the wanted key is handed back as is; the result always holds that key or "error" |
| DifyHandler.ChooseMime | simple_dify_on_wechat/dify_handler.py:116-117 | the guessed MIME type when the guess is non-empty, else the fallback |
| DifyHandler.UploadFile | simple_dify_on_wechat/dify_handler.py:105-143 | empty content is refused with 400 and oversized content with 413 naming the configured setting; in the limit the request carries the guessed type, else `UploadFallbackMime`, and its reply is kept by `KeepReply` with "id"; the result always holds "id" or "error" |
| DifyHandler.RefusedUploadMakesNoRequest | simple_dify_on_wechat/dify_handler.py:108-114 | a refused upload is the same whatever the network does, and carries a status code |
| DifyHandler.SttLimit | simple_dify_on_wechat/dify_handler.py:157-158 | the smaller of the configured limit and the 15 MB service limit |
| DifyHandler.AudioToText | simple_dify_on_wechat/dify_handler.py:145-211 | a missing file and an empty file are refused with 400, one over the effective limit with 413 naming that limit in MB; in the limit the request carries the guessed type, else `AudioFallbackMime`, and its reply is kept by `KeepReply` with "text"; the result always holds "text" or "error" |
| DifyHandler.RefusedAudioMakesNoRequest | simple_dify_on_wechat/dify_handler.py:150-166 | a refused speech-to-text call is the same whatever the network does, and carries a status code |
| DifyHandler.AcceptedRepliesKept | simple_dify_on_wechat/dify_handler.py:137-139 | a reply holding both keys is returned unchanged by an in-limit upload and by an in-limit speech-to-text call |
| DifyHandler.UploadAccepted | simple_dify_on_wechat/dify_handler.py:135-139 | an in-limit upload whose reply holds "id" returns that reply |
| DifyHandler.AudioAccepted | simple_dify_on_wechat/dify_handler.py:204-206 | an in-limit speech-to-text call whose reply holds "text" returns that reply |

## Left out

- Cron grammar and iteration: the croniter internals are not modelled. Expressions are opaque strings that the `CronEngine` parameter parses and advances.
- Strictly increasing successor: the model does not require the cron successor to increase. A lemma that needs it takes it as a hypothesis.
- Lunisolar conversion: the lunardate internals are not modelled. The `LunarConverter` parameter gives a lunar month and day, or an error.
- Scheduler runtime: APScheduler's timers, event loop, job threads and runtime misfire handling are not modelled. What remains is the job table and each job's run date, trigger kind and misfire grace.
- Scheduler shutdown: `shutdown` (app/services/task_scheduler.py:54-57) only stops the runtime, so it has no counterpart.
- SQLAlchemy persistence: sessions, commit, refresh and query plumbing become in-memory rows (app/database.py is not part of this model).
  - The holiday upsert looks dates up among the rows present when the call starts; this matches `autoflush=False`.
- Pydantic model construction: validation of a rebuilt model is a parameter. The field and model validators of app/schemas.py are modelled in `Schemas`.
- Email address syntax: the `EmailStr` check on `recipient_email` (app/schemas.py:19) is the `EmailCheck` parameter of `Schemas.ValidateTaskInfo`; the address grammar of the email-validator package is not part of this model.
- Sub-second time: instants are whole seconds. `datetime.now()` carries microseconds (app/utils/date_calculator.py:27, 39-40, 46), so the model does not distinguish two instants within one second, and "now plus one second" and countdown triggers are whole-second instants.
- JSON and datetime text parsing: `json.loads`, `json.dumps` and `datetime.fromisoformat` are not modelled. This includes the `task_creation_time` conversions at app/main.py:309-315 and 501-505 and the `next_trigger_time` parse at app/main.py:346-351; parsed values are taken as inputs.
- Natural-language dispatch: the operation dispatch and the response bodies of `process_natural_language_request` (app/main.py:96-431) are not modelled as one operation. Their decisions are modelled separately: create, query filter, target resolution, field split, status conversion, deep merge and update.
- Thin HTTP handlers: `startup_event`, `shutdown_event`, `health_check`, `read_tasks` and `read_task` (app/main.py:51-67 and 433-467) only call the modelled operations and re-serialise.
- Manual maintenance trigger: `manual_trigger_daily_maintenance` (app/main.py:608-613) starts the modelled maintenance pass as a background coroutine.
- Calendar update: in `trigger_calendar_update`, only the year check is modelled; the holiday service behind it is not part of this model.
- `get_pending_tasks_for_scheduler` (app/crud.py:15-19): nothing in the source shown calls it. Start-up uses the PENDING filter at app/services/task_scheduler.py:29-32, which is modelled.
- Network and mail I/O: requests and httpx calls, `_send_http_request`, the WebSocket connection and reconnect loop, and the SMTP transfer (`_send_email_sync`, `send_email_notification`) are not modelled. Each is a parameter, or only its request construction is modelled.
- Files and subprocesses: the ffmpeg conversion `_convert_audio_to_mp3`, temporary files, and the chunked image download with sleeps in `_get_wechat_file_data` are not modelled. The download and conversion results are parameters; the decisions around them are modelled.
- XML parsing: ElementTree is not modelled. What the parser finds (the `atuserlist` text, the image URLs, the voice attributes) comes with the raw message, and a parse error appears as the element being absent.
- MIME guesses: `mimetypes.guess_type` is a parameter. Only the fallback tables are modelled.
- HTML error details: the `<title>`/`<body>` extraction from an HTML error body is the `htmlDetail` parameter of `MessageProcessor.ErrorDetail`.
- Message batching and concurrency: the batching in simple_dify_on_wechat/main.py (timers, per-key locks) and all asyncio scheduling are not modelled.
- Configuration: environment loading (app/core/config.py and simple_dify_on_wechat/config.py) is not modelled. The values are parameters or records.
- Holiday service: holiday_service orchestration is not part of this model.
- Logging and printing: all `print` and logging output is left out.
- `TaskExecutor.ExecuteTaskById`: one `now` serves both the run and the next search. The source reads the clock again at app/services/task_executor.py:119.
- `Text.Lower` and `Text.Upper`: only ASCII letters are mapped. Python also changes the case of other alphabets, so keyword matching, the `limit_days` upper-casing and the MIME suffix tests agree with the source only on ASCII case.
- `DateCalculator.InitialTrigger`: a countdown that reaches past year 9999 ("99999999d") makes `current_local_time + delta` raise OverflowError (app/utils/date_calculator.py:46), which the `except ValueError` at line 47 does not catch; the model has unbounded instants and gives PENDING with a trigger. `DateCalculator.CountdownTrigger` shares this.
- `CivilTime.DateString`: years outside 0..9999 are not rejected as Python's `datetime` rejects them (years below 0 print as 0000). Instants in the model are unbounded integers.
- `Schemas.ValidateCountdown`: digits are ASCII only. Python's `\d` on `str` also matches other Unicode decimal digits, so a duration such as "١d" passes the source validator (app/schemas.py:57) and is refused by the model. `Schemas.DigitRun`, `Text.IsDigit` and `DateCalculator.ParseCountdownDuration` (app/utils/date_calculator.py:13-15) share this restriction.
- `DifyHandler.MaxFileSizeBytes`: `Text.ParseInt` reads ASCII digits only, without `_` separators. Python's `int()` also accepts other Unicode decimal digits and underscores between digits ("1_5"), so such a setting (simple_dify_on_wechat/dify_handler.py:25) falls back to 15 MB in the model but not in the source.
- `Text.ParseInt`: only ASCII digits, with an optional sign and surrounding whitespace; no `_` separators and no other Unicode digits, for the reason given above.
- `MessageProcessor.PrepareWechatResponse`: a truthy `message_files` value that is not a list, or an entry that is not a dictionary, raises at simple_dify_on_wechat/message_processor.py:531-533 (`file_info.get`). The model skips such a value or entry and goes on; `MessageProcessor.MessageFiles` and `MessageProcessor.AddFile` share this.
- `Crud.ApplyUpdate`: the name and recurrence columns take the partial's value only when it is text and a boolean. The partial is the dump of a validated `TaskInfoCreate` (app/schemas.py:124), so in the source these keys always hold a `str` and a `bool` when present; `Crud.ApplyUpdateColumns` states the column values for such a partial (`DumpedPartial`) and says nothing for any other.
- `MessageProcessor.AnswerText`: an `answer` that is not a string is treated as no answer. In the source a non-string truthy answer would raise inside `re.split`.

## Findings

Each row was found while proving the natural contract. The model keeps both halves: the
code as written, with a lemma exhibiting the input, and the corrected code. The rest of the
model uses the corrected code.

| source | as written | input that shows it | evidently intended | confidence | as-written member | corrected member |
|---|---|---|---|---|---|---|
| app/main.py:211-219 | the keyword query lower-cases `task_info.get("description", "")`, and a stored `"description": null` yields `None`, whose `.lower()` raises | a stored task with a null description and any keyword, e.g. "water" on a task named "water" | a missing or null description matches nothing and the other fields are still searched | not executed | MainApi.FilterAsWritten, MainApi.NullDescriptionFailsQuery | MainApi.Filter, MainApi.QueryTasks |
| app/main.py:279-285, 339-360 | `status` is a field of `TaskUpdateRequest`, so the split always moves the raw text into the request arguments. The conversion by enum name at 339-344 is then skipped, and Pydantic checks the raw text against the Chinese enum values | `update_fields = {"status": "PENDING"}` is refused with 400 | the enum name the model is asked for is converted to the member | not executed | MainApi.NlpStatusAsWritten, MainApi.EnglishStatusRefused | MainApi.NlpStatus |
| simple_dify_on_wechat/message_processor.py:511-527 | `re.split` with a pattern that has capture groups returns the groups' text (alt text and URL) among the parts, and each one becomes an extra text reply | an answer that is only `![cat](pic1)` (alternative text and URL alphanumeric words) gives an image reply followed by the texts "cat" and "pic1" | only the image and the text around it are replied | not executed | MessageProcessor.AnswerActionsAsWritten, MessageProcessor.CapturedGroupsRepeated | MessageProcessor.AnswerActions, MessageProcessor.AnswerToActions |
