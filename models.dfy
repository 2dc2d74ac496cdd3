/** The persistent entities: task status, reminder task rows and calendar day rows. */
module Models {
  import opened Wrappers
  import opened JsonTree

  datatype TaskStatus = Pending | PendingCalculation | Running | Completed | Failed

  /** The enum member's name, as `TaskStatusEnum[name]` looks it up. */
  function StatusName(s: TaskStatus): string
  {
    match s
    case Pending => "PENDING"
    case PendingCalculation => "PENDING_CALCULATION"
    case Running => "RUNNING"
    case Completed => "COMPLETED"
    case Failed => "FAILED"
  }

  /** The enum member's stored value. */
  function StatusValue(s: TaskStatus): string
  {
    match s
    case Pending => "待执行"
    case PendingCalculation => "待计算"
    case Running => "执行中"
    case Completed => "执行完成"
    case Failed => "失败"
  }

  /** `TaskStatusEnum[name]`: the member with that name, or `None` where Python raises `KeyError`. */
  function StatusByName(name: string): (r: Option<TaskStatus>)
    ensures r.Some? ==> StatusName(r.value) == name
    ensures r.None? ==> forall s: TaskStatus :: StatusName(s) != name
  {
    if name == "PENDING" then Some(Pending)
    else if name == "PENDING_CALCULATION" then Some(PendingCalculation)
    else if name == "RUNNING" then Some(Running)
    else if name == "COMPLETED" then Some(Completed)
    else if name == "FAILED" then Some(Failed)
    else None
  }

  /** Names and values identify members: distinct members never share either. */
  lemma StatusNamesAndValuesDistinct(a: TaskStatus, b: TaskStatus)
    ensures StatusName(a) == StatusName(b) ==> a == b
    ensures StatusValue(a) == StatusValue(b) ==> a == b
  {
  }

  /** A `reminder_tasks` row. Instants are seconds of naive local time. */
  datatype TaskRecord = TaskRecord(
    id: string,
    taskInfo: map<string, Json>,
    taskName: string,
    createdAt: int,
    status: TaskStatus,
    nextTriggerTime: Option<int>,
    isRecurring: bool)

  /**
   * A `holiday_dates` row: `dayType` 0 is a workday, 1 a rest day, 2 a legal holiday;
   * `weekDay` runs from 1 (Monday) to 7 (Sunday).
   */
  datatype HolidayDate = HolidayDate(
    date: string,
    year: int,
    month: int,
    day: int,
    weekDay: int,
    dayType: Option<int>,
    typeDes: Option<string>,
    lunarCalendar: Option<string>,
    rawData: map<string, Json>)

  predicate IsWorkday(h: HolidayDate)
  {
    if h.dayType.None? then false else h.dayType.value == 0
  }

  predicate IsHoliday(h: HolidayDate)
  {
    if h.dayType.None? then false else h.dayType.value == 1 || h.dayType.value == 2
  }

  predicate IsLegalHoliday(h: HolidayDate)
  {
    if h.dayType.None? then false else h.dayType.value == 2
  }

  predicate IsWeekend(h: HolidayDate)
  {
    if h.dayType.None? then false else h.weekDay in {6, 7} && h.dayType.value == 1
  }

  /** The day kinds a `day_type` code stands for. */
  datatype DayKind = Workday | RestDay | LegalHoliday | Unclassified

  function KindOf(dayType: Option<int>): DayKind
  {
    match dayType
    case None => Unclassified
    case Some(0) => Workday
    case Some(1) => RestDay
    case Some(2) => LegalHoliday
    case Some(_) => Unclassified
  }

  /**
   * The four predicates agree with the day kind: a workday is never a holiday, a legal
   * holiday is a holiday but never a "weekend", a weekend is a rest day on day 6 or 7,
   * and without a day type every predicate is false.
   */
  lemma DayClassification(h: HolidayDate)
    ensures IsWorkday(h) <==> KindOf(h.dayType) == Workday
    ensures IsHoliday(h) <==> KindOf(h.dayType) in {RestDay, LegalHoliday}
    ensures IsLegalHoliday(h) <==> KindOf(h.dayType) == LegalHoliday
    ensures IsWeekend(h) <==> KindOf(h.dayType) == RestDay && h.weekDay in {6, 7}
    ensures !(IsWorkday(h) && IsHoliday(h))
    ensures IsLegalHoliday(h) ==> IsHoliday(h) && !IsWeekend(h)
    ensures IsWeekend(h) ==> IsHoliday(h)
    ensures h.dayType.None? ==> !IsWorkday(h) && !IsHoliday(h) && !IsLegalHoliday(h) && !IsWeekend(h)
  {
  }
}
