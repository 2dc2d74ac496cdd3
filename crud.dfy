/**
 * The database layer: the `reminder_tasks` table as a sequence of rows in insertion order
 * and the `holiday_dates` table likewise, with the queries and updates the services use.
 */
module Crud {
  import opened Wrappers
  import opened Text
  import opened JsonTree
  import opened Models

  // ---------------------------------------------------------------- task queries

  /** `id` is the primary key: no two rows share one. */
  predicate DistinctIds(tasks: seq<TaskRecord>)
  {
    forall i, j :: 0 <= i < j < |tasks| ==> tasks[i].id != tasks[j].id
  }

  /** `date` is unique in `holiday_dates`. */
  predicate DistinctDates(days: seq<HolidayDate>)
  {
    forall i, j :: 0 <= i < j < |days| ==> days[i].date != days[j].date
  }

  /** The position of the first row with this id (the row `get_task` returns). */
  function IndexOfTask(tasks: seq<TaskRecord>, id: string): (r: Option<nat>)
    ensures r.Some? ==> r.value < |tasks| && tasks[r.value].id == id
    ensures r.Some? ==> forall j :: 0 <= j < r.value ==> tasks[j].id != id
    ensures r.None? <==> forall j :: 0 <= j < |tasks| ==> tasks[j].id != id
  {
    if tasks == [] then None
    else if tasks[0].id == id then Some(0)
    else match IndexOfTask(tasks[1..], id)
      case None => None
      case Some(k) => Some(k + 1)
  }

  /** `get_task`. */
  function FindTask(tasks: seq<TaskRecord>, id: string): (r: Option<TaskRecord>)
    ensures r.Some? ==> r.value in tasks && r.value.id == id
    ensures r.None? <==> forall t :: t in tasks ==> t.id != id
  {
    match IndexOfTask(tasks, id)
    case None => None
    case Some(i) => Some(tasks[i])
  }

  /** Rows ordered newest first (`ORDER BY created_at DESC`). */
  predicate NewestFirst(s: seq<TaskRecord>)
  {
    forall i, j :: 0 <= i < j < |s| ==> s[i].createdAt >= s[j].createdAt
  }

  /** Insert one row into a newest-first sequence, after every row at least as new. */
  function InsertByCreation(t: TaskRecord, sorted: seq<TaskRecord>): (r: seq<TaskRecord>)
    ensures multiset(r) == multiset(sorted) + multiset{t}
    ensures |r| == |sorted| + 1
    ensures forall k :: 0 <= k < |r| ==> r[k] == t || r[k] in sorted
    ensures NewestFirst(sorted) ==> NewestFirst(r)
  {
    if sorted == [] || sorted[0].createdAt < t.createdAt then [t] + sorted
    else
      var rest := InsertByCreation(t, sorted[1..]);
      assert sorted == [sorted[0]] + sorted[1..];
      InsertKeepsOrder(t, sorted[0], rest, sorted[1..]);
      InsertKeepsRows(t, sorted[0], rest, sorted[1..]);
      [sorted[0]] + rest
  }

  /** Putting the head back in front of the rest keeps every row and adds `t` once. */
  lemma InsertKeepsRows(t: TaskRecord, head: TaskRecord, rest: seq<TaskRecord>, tail: seq<TaskRecord>)
    requires multiset(rest) == multiset(tail) + multiset{t}
    requires forall k :: 0 <= k < |rest| ==> rest[k] == t || rest[k] in tail
    ensures multiset([head] + rest) == multiset([head] + tail) + multiset{t}
    ensures forall k :: 0 <= k < |[head] + rest| ==> ([head] + rest)[k] == t || ([head] + rest)[k] in [head] + tail
  {
    var s := [head] + rest;
    forall k | 0 <= k < |s|
      ensures s[k] == t || s[k] in [head] + tail
    {
      if k > 0 {
        assert s[k] == rest[k - 1];
      }
    }
  }

  lemma InsertKeepsOrder(t: TaskRecord, head: TaskRecord, rest: seq<TaskRecord>, tail: seq<TaskRecord>)
    requires t.createdAt <= head.createdAt
    requires forall k :: 0 <= k < |rest| ==> rest[k] == t || rest[k] in tail
    requires NewestFirst([head] + tail) ==> NewestFirst(rest)
    ensures NewestFirst([head] + tail) ==> NewestFirst([head] + rest)
  {
    if NewestFirst([head] + tail) {
      forall k | 0 <= k < |rest|
        ensures head.createdAt >= rest[k].createdAt
      {
        if rest[k] != t {
          var j :| 0 <= j < |tail| && tail[j] == rest[k];
          assert ([head] + tail)[0] == head && ([head] + tail)[j + 1] == tail[j];
        }
      }
      var s := [head] + rest;
      forall a, b | 0 <= a < b < |s|
        ensures s[a].createdAt >= s[b].createdAt
      {
        if a == 0 {
          assert s[b] == rest[b - 1];
        } else {
          assert s[a] == rest[a - 1] && s[b] == rest[b - 1];
        }
      }
    }
  }

  /** All rows, newest first; rows created at the same instant keep their table order. */
  function ByCreation(tasks: seq<TaskRecord>): (r: seq<TaskRecord>)
    ensures multiset(r) == multiset(tasks)
    ensures NewestFirst(r)
  {
    if tasks == [] then []
    else
      assert tasks == tasks[..|tasks| - 1] + [tasks[|tasks| - 1]];
      InsertByCreation(tasks[|tasks| - 1], ByCreation(tasks[..|tasks| - 1]))
  }

  function Min(a: int, b: int): int
  {
    if a <= b then a else b
  }

  /** `.offset(skip).limit(limit)` on a result list. */
  function Window<T>(s: seq<T>, skip: nat, limit: nat): (r: seq<T>)
    ensures |r| == Min(limit, if skip <= |s| then |s| - skip else 0)
    ensures forall k :: 0 <= k < |r| ==> skip + k < |s| && r[k] == s[skip + k]
  {
    var lo := Min(skip, |s|);
    s[lo..Min(lo + limit, |s|)]
  }

  /** `get_tasks(skip, limit)`. */
  function GetTasks(tasks: seq<TaskRecord>, skip: nat, limit: nat): seq<TaskRecord>
  {
    Window(ByCreation(tasks), skip, limit)
  }

  /**
   * The page holds the requested number of rows (fewer at the end of the table), newest
   * first, and every one of them is a row of the table.
   */
  lemma GetTasksPage(tasks: seq<TaskRecord>, skip: nat, limit: nat)
    ensures var r := GetTasks(tasks, skip, limit);
      |r| == Min(limit, if skip <= |tasks| then |tasks| - skip else 0) &&
      NewestFirst(r) &&
      forall k :: 0 <= k < |r| ==> r[k] in tasks
  {
    var all := ByCreation(tasks);
    var r := GetTasks(tasks, skip, limit);
    forall k | 0 <= k < |r|
      ensures r[k] in tasks
    {
      assert r[k] == all[skip + k];
      assert all[skip + k] in multiset(all);
    }
  }

  /** The first page of the whole table is every row, newest first. */
  lemma GetTasksAll(tasks: seq<TaskRecord>, limit: nat)
    requires |tasks| <= limit
    ensures multiset(GetTasks(tasks, 0, limit)) == multiset(tasks)
  {
    var all := ByCreation(tasks);
    assert |all| == |tasks| by {
      assert |multiset(all)| == |multiset(tasks)|;
    }
    assert Min(0, |all|) == 0 && Min(limit, |all|) == |all|;
    assert GetTasks(tasks, 0, limit) == all[0..|all|];
    assert all[0..|all|] == all;
  }

  /** The table after committing a changed row: the row with that id is replaced. */
  function ReplaceTask(tasks: seq<TaskRecord>, row: TaskRecord): (r: seq<TaskRecord>)
    ensures |r| == |tasks|
  {
    match IndexOfTask(tasks, row.id)
    case None => tasks
    case Some(i) => tasks[i := row]
  }

  /** In a table with unique ids, exactly the row with the same id is replaced, and ids stay unique. */
  lemma ReplaceTaskRows(tasks: seq<TaskRecord>, row: TaskRecord)
    requires DistinctIds(tasks)
    ensures var r := ReplaceTask(tasks, row);
      DistinctIds(r) && forall k :: 0 <= k < |tasks| ==> r[k] == (if tasks[k].id == row.id then row else tasks[k])
  {
    var r := ReplaceTask(tasks, row);
    var i := IndexOfTask(tasks, row.id);
    if i.Some? {
      forall k | 0 <= k < |tasks|
        ensures r[k] == (if tasks[k].id == row.id then row else tasks[k])
      {
        assert k != i.value ==> tasks[k].id != tasks[i.value].id;
      }
    }
  }

  /** Rows with the given status, in table order. */
  function WithStatus(tasks: seq<TaskRecord>, st: TaskStatus): (r: seq<TaskRecord>)
    ensures |r| <= |tasks|
    ensures forall t :: t in r <==> t in tasks && t.status == st
  {
    if tasks == [] then []
    else
      var rest := WithStatus(tasks[1..], st);
      assert forall t :: t in tasks <==> t == tasks[0] || t in tasks[1..];
      if tasks[0].status == st then [tasks[0]] + rest else rest
  }

  /** Rows the scheduler arms at start-up: PENDING with a trigger, in table order. */
  function ArmableAtStart(tasks: seq<TaskRecord>): (r: seq<TaskRecord>)
    ensures forall t :: t in r <==> t in tasks && t.status == Pending && t.nextTriggerTime.Some?
  {
    if tasks == [] then []
    else
      var rest := ArmableAtStart(tasks[1..]);
      assert forall t :: t in tasks <==> t == tasks[0] || t in tasks[1..];
      if tasks[0].status == Pending && tasks[0].nextTriggerTime.Some? then [tasks[0]] + rest else rest
  }

  // ---------------------------------------------------------------- calendar queries

  /** `get_holiday_dates_for_year`, without the ordering by date. */
  function DaysOfYear(days: seq<HolidayDate>, year: int): (r: seq<HolidayDate>)
    ensures forall h :: h in r <==> h in days && h.year == year
  {
    if days == [] then []
    else
      var rest := DaysOfYear(days[1..], year);
      assert forall h :: h in days <==> h == days[0] || h in days[1..];
      if days[0].year == year then [days[0]] + rest else rest
  }

  /** The position of the row with this date among the first `n` rows. */
  function IndexOfDate(days: seq<HolidayDate>, n: nat, date: string): (r: Option<nat>)
    requires n <= |days|
    ensures r.Some? ==> r.value < n && days[r.value].date == date
    ensures r.None? ==> forall j :: 0 <= j < n ==> days[j].date != date
  {
    if n == 0 then None
    else if days[n - 1].date == date then Some(n - 1)
    else IndexOfDate(days, n - 1, date)
  }

  // ---------------------------------------------------------------- task updates

  /**
   * The fields of a `TaskUpdateRequest` that were set: `taskInfo` is the partial task
   * information, and `nextTriggerTime` distinguishes "not set" (`None`) from "set to null".
   */
  datatype TaskUpdate = TaskUpdate(
    taskInfo: Option<map<string, Json>>,
    status: Option<TaskStatus>,
    nextTriggerTime: Option<Option<int>>)

  /** A validation of merged task information: its JSON dump, or `None` where Pydantic raises. */
  type Normalizer = map<string, Json> -> Option<map<string, Json>>

  datatype UpdateOutcome = TaskMissing | InvalidTaskInfo | Updated(record: TaskRecord)

  /**
   * The row an update produces: the stored `task_info` is shallowly merged with the partial
   * (top-level keys of the partial win) and validated; `task_name` and `is_recurring` follow
   * the partial when it holds them; `status` and `next_trigger_time` change only when set.
   */
  function ApplyUpdate(t: TaskRecord, u: TaskUpdate, normalize: Normalizer): Option<TaskRecord>
  {
    var withInfo :=
      if u.taskInfo.None? then Some(t)
      else match normalize(t.taskInfo + u.taskInfo.value)
        case None => None
        case Some(info) =>
          var p := u.taskInfo.value;
          var name := if "task_name" in p && p["task_name"].JStr? then p["task_name"].s else t.taskName;
          var recurring := if "is_recurring" in p && p["is_recurring"].JBool? then p["is_recurring"].b else t.isRecurring;
          Some(t.(taskInfo := info, taskName := name, isRecurring := recurring));
    match withInfo
    case None => None
    case Some(r) =>
      var r1 := if u.status.Some? then r.(status := u.status.value) else r;
      Some(if u.nextTriggerTime.Some? then r1.(nextTriggerTime := u.nextTriggerTime.value) else r1)
  }

  /**
   * A partial as the request schema dumps it: `task_name`, when present, is text and
   * `is_recurring`, when present, is a boolean.
   */
  predicate DumpedPartial(p: map<string, Json>)
  {
    ("task_name" in p ==> p["task_name"].JStr?) && ("is_recurring" in p ==> p["is_recurring"].JBool?)
  }

  /** What an update promises about each column. */
  lemma ApplyUpdateColumns(t: TaskRecord, u: TaskUpdate, normalize: Normalizer)
    ensures var r := ApplyUpdate(t, u, normalize);
      (r.None? <==> u.taskInfo.Some? && normalize(t.taskInfo + u.taskInfo.value).None?) &&
      (r.Some? ==>
        r.value.id == t.id && r.value.createdAt == t.createdAt &&
        r.value.status == (if u.status.Some? then u.status.value else t.status) &&
        r.value.nextTriggerTime == (if u.nextTriggerTime.Some? then u.nextTriggerTime.value else t.nextTriggerTime) &&
        (u.taskInfo.None? ==> r.value.taskInfo == t.taskInfo && r.value.taskName == t.taskName && r.value.isRecurring == t.isRecurring) &&
        (u.taskInfo.Some? ==> Some(r.value.taskInfo) == normalize(t.taskInfo + u.taskInfo.value)))
    ensures var r := ApplyUpdate(t, u, normalize);
      r.Some? && u.taskInfo.Some? && DumpedPartial(u.taskInfo.value) ==>
        var p := u.taskInfo.value;
        r.value.taskName == (if "task_name" in p then p["task_name"].s else t.taskName) &&
        r.value.isRecurring == (if "is_recurring" in p then p["is_recurring"].b else t.isRecurring)
  {
  }

  /**
   * The merge handed to validation is shallow: a key of the partial replaces the stored
   * value whole (a nested dictionary included), and every other stored key is kept.
   */
  lemma ShallowMergeReplaces(stored: map<string, Json>, partial: map<string, Json>)
    ensures (stored + partial).Keys == stored.Keys + partial.Keys
    ensures forall k :: k in partial ==> (stored + partial)[k] == partial[k]
    ensures forall k :: k in stored && k !in partial ==> (stored + partial)[k] == stored[k]
  {
  }

  // ---------------------------------------------------------------- calendar upsert

  /** One day object of the calendar service's answer, with its optional fields. */
  datatype DayData = DayData(
    date: string,
    year: Option<int>,
    month: Option<int>,
    weekDay: int,
    dayType: Option<int>,
    typeDes: Option<string>,
    lunarCalendar: Option<string>,
    raw: map<string, Json>)

  /** A month object: `month_data.get("days", [])`. */
  datatype MonthData = MonthData(days: seq<DayData>)

  datatype UpsertError =
    | MalformedDate(date: string)   // `int()` of a slice of the date raises
    | DuplicateDate                 // two inserts of one date break the unique constraint at commit

  /** The table being rebuilt during one call and the two counters. */
  datatype UpsertState = UpsertState(table: seq<HolidayDate>, created: nat, updated: nat)

  /** The stored day fields differ from the service's. */
  predicate DayChanged(h: HolidayDate, d: DayData)
  {
    h.dayType != d.dayType || h.typeDes != d.typeDes || h.lunarCalendar != d.lunarCalendar
  }

  /** An existing row after the service's day: the three fields and the raw data are replaced. */
  function Refreshed(h: HolidayDate, d: DayData): HolidayDate
  {
    h.(dayType := d.dayType, typeDes := d.typeDes, lunarCalendar := d.lunarCalendar, rawData := d.raw)
  }

  /**
   * The row inserted for a new date: the year and month the service states, else the year
   * of the call and the month read from characters 5-6 of the date; the day from
   * characters 8-9. Both numbers are read before the row is built, so text that is not a
   * number fails even when the service states the month.
   */
  function NewRow(d: DayData, year: int): (r: Result<HolidayDate, UpsertError>)
    ensures r.Ok? ==> r.value.date == d.date
  {
    var monthText := ParseInt(PySlice(d.date, 5, 7));
    var dayText := ParseInt(PySlice(d.date, 8, 10));
    if monthText.None? || dayText.None? then Err(MalformedDate(d.date))
    else Ok(HolidayDate(d.date, d.year.GetOr(year), d.month.GetOr(monthText.value), dayText.value,
      d.weekDay, d.dayType, d.typeDes, d.lunarCalendar, d.raw))
  }

  /**
   * One day: a date among the `n0` rows that existed before the call (the session does not
   * flush, so rows inserted by this call are not found) is updated in place, its raw data
   * always replaced and the update counted only when a field changed; any other date is
   * appended.
   */
  function UpsertDay(st: UpsertState, n0: nat, d: DayData, year: int): (r: Result<UpsertState, UpsertError>)
    requires n0 <= |st.table|
    ensures r.Ok? ==> |r.value.table| >= |st.table|
  {
    match IndexOfDate(st.table, n0, d.date)
    case Some(i) =>
      var h := st.table[i];
      Ok(UpsertState(st.table[i := Refreshed(h, d)], st.created, if DayChanged(h, d) then st.updated + 1 else st.updated))
    case None =>
      match NewRow(d, year)
      case Err(e) => Err(e)
      case Ok(row) => Ok(UpsertState(st.table + [row], st.created + 1, st.updated))
  }

  /** The days in order, stopping at the first error. */
  function UpsertDays(st: UpsertState, n0: nat, days: seq<DayData>, year: int): (r: Result<UpsertState, UpsertError>)
    requires n0 <= |st.table|
    ensures r.Ok? ==> |r.value.table| >= |st.table|
    decreases |days|
  {
    if days == [] then Ok(st)
    else match UpsertDay(st, n0, days[0], year)
      case Err(e) => Err(e)
      case Ok(st') => UpsertDays(st', n0, days[1..], year)
  }

  /** All days of all months, in order. */
  function AllDays(months: seq<MonthData>): seq<DayData>
  {
    if months == [] then [] else months[0].days + AllDays(months[1..])
  }

  /** Processing `a + b` is processing `a`, then `b` from where `a` left off. */
  lemma {:induction false} UpsertDaysAppend(st: UpsertState, n0: nat, a: seq<DayData>, b: seq<DayData>, year: int)
    requires n0 <= |st.table|
    ensures UpsertDays(st, n0, a, year).Err? ==> UpsertDays(st, n0, a + b, year) == UpsertDays(st, n0, a, year)
    ensures UpsertDays(st, n0, a, year).Ok? ==>
      UpsertDays(st, n0, a + b, year) == UpsertDays(UpsertDays(st, n0, a, year).value, n0, b, year)
    decreases |a|
  {
    if a != [] {
      assert (a + b)[0] == a[0];
      assert (a + b)[1..] == a[1..] + b;
      var step := UpsertDay(st, n0, a[0], year);
      if step.Ok? {
        UpsertDaysAppend(step.value, n0, a[1..], b, year);
      }
    } else {
      assert a + b == b;
    }
  }

  /** One day adds at most one row, and counts it as created, or counts at most one update. */
  lemma UpsertDayCounts(st: UpsertState, n0: nat, d: DayData, year: int)
    requires n0 <= |st.table|
    requires UpsertDay(st, n0, d, year).Ok?
    ensures var r := UpsertDay(st, n0, d, year).value;
      |r.table| - r.created == |st.table| - st.created &&
      ((r.created == st.created + 1 && r.updated == st.updated) ||
       (r.created == st.created && st.updated <= r.updated <= st.updated + 1))
  {
  }

  /**
   * Every inserted row is counted as created, and each day adds to at most one counter.
   */
  lemma {:induction false} UpsertCounts(st: UpsertState, n0: nat, days: seq<DayData>, year: int)
    requires n0 <= |st.table| && |st.table| == n0 + st.created
    requires UpsertDays(st, n0, days, year).Ok?
    ensures var r := UpsertDays(st, n0, days, year).value;
      |r.table| == n0 + r.created && r.created >= st.created && r.updated >= st.updated &&
      (r.created - st.created) + (r.updated - st.updated) <= |days|
    decreases |days|
  {
    if days != [] {
      var st' := UpsertDay(st, n0, days[0], year).value;
      UpsertDayCounts(st, n0, days[0], year);
      UpsertCounts(st', n0, days[1..], year);
    }
  }

  /** No two of the first `n` rows share a date. */
  predicate DistinctDatesBefore(table: seq<HolidayDate>, n: nat)
    requires n <= |table|
  {
    forall a, b :: 0 <= a < b < n ==> table[a].date != table[b].date
  }

  /** A day whose date existed before the call keeps its row and takes the service's fields. */
  lemma UpsertExistingDay(st: UpsertState, n0: nat, d: DayData, year: int, i: nat)
    requires n0 <= |st.table| && i < n0 && DistinctDatesBefore(st.table, n0) && st.table[i].date == d.date
    ensures UpsertDay(st, n0, d, year).Ok?
    ensures var r := UpsertDay(st, n0, d, year).value;
      r.table == st.table[i := Refreshed(st.table[i], d)] && r.created == st.created &&
      r.updated == (if DayChanged(st.table[i], d) then st.updated + 1 else st.updated)
  {
  }

  /** A date not among the rows that existed before the call is appended as `NewRow` builds it. */
  lemma UpsertNewDay(st: UpsertState, n0: nat, d: DayData, year: int)
    requires n0 <= |st.table| && forall j :: 0 <= j < n0 ==> st.table[j].date != d.date
    ensures var r := UpsertDay(st, n0, d, year);
      (r.Err? <==> NewRow(d, year).Err?) &&
      (r.Ok? ==> (r.value.table == st.table + [NewRow(d, year).value] &&
                  r.value.created == st.created + 1 && r.value.updated == st.updated))
  {
  }

  /** The new row holds the date and the service's fields, with the year and month as described. */
  lemma NewRowFields(d: DayData, year: int)
    requires NewRow(d, year).Ok?
    ensures var h := NewRow(d, year).value;
      h.date == d.date && h.weekDay == d.weekDay && h.dayType == d.dayType && h.typeDes == d.typeDes &&
      h.lunarCalendar == d.lunarCalendar && h.rawData == d.raw &&
      h.year == (if d.year.Some? then d.year.value else year) &&
      h.month == (if d.month.Some? then d.month.value else ParseInt(PySlice(d.date, 5, 7)).value) &&
      Some(h.day) == ParseInt(PySlice(d.date, 8, 10))
  {
  }

  /** A well-formed `YYYY-MM-DD` date yields its month and day. */
  lemma DateTextFields(date: string)
    requires |date| == 10 && AllDigits(date[5..7]) && AllDigits(date[8..10])
    ensures ParseInt(PySlice(date, 5, 7)) == Some(DigitsValue(date[5..7]))
    ensures ParseInt(PySlice(date, 8, 10)) == Some(DigitsValue(date[8..10]))
  {
  }

  /** The outcome of a whole upsert call on a table: the new table and the counters, or an error. */
  function UpsertAll(table: seq<HolidayDate>, months: seq<MonthData>, year: int): Result<UpsertState, UpsertError>
  {
    match UpsertDays(UpsertState(table, 0, 0), |table|, AllDays(months), year)
    case Err(e) => Err(e)
    case Ok(st) => if st.created > 0 && !DistinctDates(st.table) then Err(DuplicateDate) else Ok(st)
  }

  // ---------------------------------------------------------------- the tables

  class Database {
    var tasks: seq<TaskRecord>
    var holidays: seq<HolidayDate>

    ghost predicate Valid()
      reads this
    {
      DistinctIds(tasks) && DistinctDates(holidays)
    }

    constructor ()
      ensures Valid() && tasks == [] && holidays == []
    {
      tasks := [];
      holidays := [];
    }

    /** `create_task`: a new row with a fresh id, stored with the given trigger and status. */
    method CreateTask(id: string, taskInfo: map<string, Json>, taskName: string, isRecurring: bool,
                      trigger: Option<int>, status: TaskStatus, now: int) returns (r: TaskRecord)
      requires Valid() && FindTask(tasks, id).None?
      modifies this
      ensures Valid()
      ensures r == TaskRecord(id, taskInfo, taskName, now, status, trigger, isRecurring)
      ensures tasks == old(tasks) + [r] && holidays == old(holidays)
    {
      r := TaskRecord(id, taskInfo, taskName, now, status, trigger, isRecurring);
      tasks := tasks + [r];
    }

    /** A row object changed by a service and committed. */
    method SaveTask(row: TaskRecord)
      requires Valid()
      modifies this
      ensures Valid() && holidays == old(holidays)
      ensures tasks == ReplaceTask(old(tasks), row)
    {
      ReplaceTaskRows(tasks, row);
      var i := IndexOfTask(tasks, row.id);
      if i.Some? {
        tasks := tasks[i.value := row];
      }
    }

    /** `update_task`: a missing row changes nothing; an invalid merge raises and changes nothing. */
    method UpdateTask(id: string, u: TaskUpdate, normalize: Normalizer) returns (r: UpdateOutcome)
      requires Valid()
      modifies this
      ensures Valid() && holidays == old(holidays)
      ensures IndexOfTask(old(tasks), id).None? ==> r == TaskMissing && tasks == old(tasks)
      ensures IndexOfTask(old(tasks), id).Some? ==>
        var i := IndexOfTask(old(tasks), id).value;
        match ApplyUpdate(old(tasks)[i], u, normalize)
        case None => r == InvalidTaskInfo && tasks == old(tasks)
        case Some(t) => r == Updated(t) && tasks == old(tasks)[i := t]
    {
      var i := IndexOfTask(tasks, id);
      if i.None? {
        return TaskMissing;
      }
      var merged := MergeRow(tasks[i.value], u, normalize);
      if merged.None? {
        return InvalidTaskInfo;
      }
      var row := merged.value;
      ApplyUpdateColumns(tasks[i.value], u, normalize);
      ReplaceTaskRows(tasks, row);
      tasks := tasks[i.value := row];
      r := Updated(row);
    }

    /** The row object as `update_task` changes it attribute by attribute; `None` when the merged information is invalid. */
    static method MergeRow(t: TaskRecord, u: TaskUpdate, normalize: Normalizer) returns (o: Option<TaskRecord>)
      ensures o == ApplyUpdate(t, u, normalize)
    {
      var row := t;
      if u.taskInfo.Some? {
        var info := normalize(row.taskInfo + u.taskInfo.value);
        if info.None? {
          return None;
        }
        var p := u.taskInfo.value;
        row := row.(taskInfo := info.value);
        if "task_name" in p && p["task_name"].JStr? {
          row := row.(taskName := p["task_name"].s);
        }
        if "is_recurring" in p && p["is_recurring"].JBool? {
          row := row.(isRecurring := p["is_recurring"].b);
        }
      }
      if u.status.Some? {
        row := row.(status := u.status.value);
      }
      if u.nextTriggerTime.Some? {
        row := row.(nextTriggerTime := u.nextTriggerTime.value);
      }
      o := Some(row);
    }

    /** `delete_task`: true exactly when the row existed; afterwards no row has the id. */
    method DeleteTask(id: string) returns (existed: bool)
      requires Valid()
      modifies this
      ensures Valid() && holidays == old(holidays)
      ensures existed <==> FindTask(old(tasks), id).Some?
      ensures FindTask(tasks, id).None?
      ensures forall t :: t in tasks <==> t in old(tasks) && t.id != id
    {
      var i := IndexOfTask(tasks, id);
      if i.None? {
        return false;
      }
      var k := i.value;
      forall t | t in tasks[..k] + tasks[k + 1..]
        ensures t.id != id
      {
        var j :| 0 <= j < |tasks[..k] + tasks[k + 1..]| && (tasks[..k] + tasks[k + 1..])[j] == t;
        if j < k {
          assert t == tasks[j];
        } else {
          assert t == tasks[j + 1];
        }
      }
      assert forall t :: t in tasks <==> t in tasks[..k] + tasks[k + 1..] || t == tasks[k] by {
        assert tasks == tasks[..k] + [tasks[k]] + tasks[k + 1..];
      }
      tasks := tasks[..k] + tasks[k + 1..];
      existed := true;
    }

    /**
     * `create_or_update_holiday_dates`: processes every day of every month in order and
     * commits only when something was created or updated; an error raised on the way
     * (a date whose month or day is not a number, or a second insert of one date) leaves
     * the table as it was.
     */
    method UpsertHolidayDates(year: int, months: seq<MonthData>) returns (r: Result<(nat, nat), UpsertError>)
      requires Valid()
      modifies this
      ensures Valid() && tasks == old(tasks)
      ensures match UpsertAll(old(holidays), months, year)
        case Err(e) => r == Err(e) && holidays == old(holidays)
        case Ok(st) => (r == Ok((st.created, st.updated)) &&
                        holidays == (if st.created > 0 || st.updated > 0 then st.table else old(holidays)))
    {
      var table0 := holidays;
      var n0 := |table0|;
      var st := UpsertState(table0, 0, 0);
      var m := 0;
      while m < |months|
        invariant 0 <= m <= |months|
        invariant n0 <= |st.table| && tasks == old(tasks) && holidays == table0
        invariant UpsertDays(UpsertState(table0, 0, 0), n0, AllDays(months), year) == UpsertDays(st, n0, AllDays(months[m..]), year)
      {
        assert months[m..][1..] == months[m + 1..];
        UpsertDaysAppend(st, n0, months[m].days, AllDays(months[m + 1..]), year);
        var monthResult := UpsertMonth(st, n0, months[m].days, year);
        if monthResult.Err? {
          return Err(monthResult.error);
        }
        st := monthResult.value;
        m := m + 1;
      }
      assert months[m..] == [];
      if st.created > 0 || st.updated > 0 {
        if st.created > 0 && !DistinctDates(st.table) {
          return Err(DuplicateDate);
        }
        UpdatedTableDistinct(table0, st, n0, AllDays(months), year);
        holidays := st.table;
      }
      r := Ok((st.created, st.updated));
    }
  }

  /** The days of one month in order against the working table, stopping at the first error. */
  method UpsertMonth(st: UpsertState, n0: nat, days: seq<DayData>, year: int) returns (r: Result<UpsertState, UpsertError>)
    requires n0 <= |st.table|
    ensures r == UpsertDays(st, n0, days, year)
  {
    var cur := st;
    var j := 0;
    while j < |days|
      invariant 0 <= j <= |days|
      invariant n0 <= |cur.table|
      invariant UpsertDays(st, n0, days, year) == UpsertDays(cur, n0, days[j..], year)
    {
      assert days[j..][0] == days[j] && days[j..][1..] == days[j + 1..];
      var step := UpsertOne(cur, n0, days[j], year);
      if step.Err? {
        return step;
      }
      cur := step.value;
      j := j + 1;
    }
    assert days[j..] == [];
    r := Ok(cur);
  }

  /** One day against the working table: `UpsertDay` computed step by step. */
  method UpsertOne(st: UpsertState, n0: nat, d: DayData, year: int) returns (r: Result<UpsertState, UpsertError>)
    requires n0 <= |st.table|
    ensures r == UpsertDay(st, n0, d, year)
  {
    var found := IndexOfDate(st.table, n0, d.date);
    if found.Some? {
      var h := st.table[found.value];
      var changed := DayChanged(h, d);
      return Ok(UpsertState(st.table[found.value := Refreshed(h, d)], st.created, if changed then st.updated + 1 else st.updated));
    }
    var row := NewRow(d, year);
    if row.Err? {
      return Err(row.error);
    }
    r := Ok(UpsertState(st.table + [row.value], st.created + 1, st.updated));
  }

  /** Updates in place keep the dates; together with distinct inserts the table stays unique. */
  lemma UpdatedTableDistinct(table: seq<HolidayDate>, st: UpsertState, n0: nat, days: seq<DayData>, year: int)
    requires n0 == |table| && DistinctDates(table)
    requires UpsertDays(UpsertState(table, 0, 0), n0, days, year) == Ok(st)
    requires st.created > 0 ==> DistinctDates(st.table)
    ensures DistinctDates(st.table)
  {
    UpsertCounts(UpsertState(table, 0, 0), n0, days, year);
    if st.created == 0 {
      UpsertKeepsDates(UpsertState(table, 0, 0), n0, days, year);
    }
  }

  /** Without inserts, every row keeps its date. */
  lemma {:induction false} UpsertKeepsDates(st: UpsertState, n0: nat, days: seq<DayData>, year: int)
    requires n0 <= |st.table| && |st.table| == n0 + st.created
    requires UpsertDays(st, n0, days, year).Ok?
    requires UpsertDays(st, n0, days, year).value.created == st.created
    ensures var r := UpsertDays(st, n0, days, year).value;
      |r.table| == |st.table| && forall j :: 0 <= j < |st.table| ==> r.table[j].date == st.table[j].date
    decreases |days|
  {
    if days != [] {
      var st' := UpsertDay(st, n0, days[0], year).value;
      UpsertCounts(st', n0, days[1..], year);
      UpsertKeepsDates(st', n0, days[1..], year);
    }
  }

  /** Rows keep their dates through a run, and every processed day's date has a row afterwards. */
  lemma {:induction false} UpsertCoversDates(st: UpsertState, n0: nat, days: seq<DayData>, year: int)
    requires n0 <= |st.table|
    requires UpsertDays(st, n0, days, year).Ok?
    ensures var r := UpsertDays(st, n0, days, year).value;
      (forall j :: 0 <= j < |st.table| ==> r.table[j].date == st.table[j].date) &&
      (forall d :: d in days ==> exists j :: 0 <= j < |r.table| && r.table[j].date == d.date)
    decreases |days|
  {
    if days != [] {
      var st' := UpsertDay(st, n0, days[0], year).value;
      UpsertDayCovers(st, n0, days[0], year);
      UpsertCoversDates(st', n0, days[1..], year);
      var r := UpsertDays(st', n0, days[1..], year).value;
      forall d | d in days
        ensures exists j :: 0 <= j < |r.table| && r.table[j].date == d.date
      {
        if d == days[0] {
          var j0: nat :| j0 < |st'.table| && st'.table[j0].date == d.date;
          assert r.table[j0].date == d.date;
        } else {
          assert d in days[1..];
        }
      }
    }
  }

  lemma UpsertDayCovers(st: UpsertState, n0: nat, d: DayData, year: int)
    requires n0 <= |st.table|
    requires UpsertDay(st, n0, d, year).Ok?
    ensures var r := UpsertDay(st, n0, d, year).value;
      (forall j :: 0 <= j < |st.table| ==> r.table[j].date == st.table[j].date) &&
      exists j :: 0 <= j < |r.table| && r.table[j].date == d.date
  {
    match IndexOfDate(st.table, n0, d.date)
    case Some(i) => UpsertDayRefreshes(st, n0, d, year, i);
    case None => UpsertDayAppends(st, n0, d, year);
  }

  /** A known date: its row is refreshed in place. */
  lemma UpsertDayRefreshes(st: UpsertState, n0: nat, d: DayData, year: int, i: nat)
    requires n0 <= |st.table| && IndexOfDate(st.table, n0, d.date) == Some(i)
    ensures UpsertDay(st, n0, d, year).Ok?
    ensures var t := UpsertDay(st, n0, d, year).value.table;
      (forall j :: 0 <= j < |st.table| ==> t[j].date == st.table[j].date) && i < |t| && t[i].date == d.date
  {
    var t := UpsertDay(st, n0, d, year).value.table;
    assert t == st.table[i := Refreshed(st.table[i], d)];
  }

  /** A new date: a row is appended. */
  lemma UpsertDayAppends(st: UpsertState, n0: nat, d: DayData, year: int)
    requires n0 <= |st.table| && IndexOfDate(st.table, n0, d.date).None?
    requires UpsertDay(st, n0, d, year).Ok?
    ensures var t := UpsertDay(st, n0, d, year).value.table;
      (forall j :: 0 <= j < |st.table| ==> t[j].date == st.table[j].date) && |st.table| < |t| && t[|st.table|].date == d.date
  {
    var t := UpsertDay(st, n0, d, year).value.table;
    var row := NewRow(d, year).value;
    assert t == st.table + [row];
  }

  /**
   * A successful call leaves one row more per created day, keeps the dates unique, and
   * leaves a row for every date the service sent.
   */
  lemma UpsertAllShape(table: seq<HolidayDate>, months: seq<MonthData>, year: int)
    requires DistinctDates(table)
    requires UpsertAll(table, months, year).Ok?
    ensures var st := UpsertAll(table, months, year).value;
      |st.table| == |table| + st.created && DistinctDates(st.table) &&
      (forall j :: 0 <= j < |table| ==> st.table[j].date == table[j].date) &&
      (forall d :: d in AllDays(months) ==> exists j :: 0 <= j < |st.table| && st.table[j].date == d.date)
  {
    var st := UpsertDays(UpsertState(table, 0, 0), |table|, AllDays(months), year).value;
    UpsertCounts(UpsertState(table, 0, 0), |table|, AllDays(months), year);
    UpdatedTableDistinct(table, st, |table|, AllDays(months), year);
    UpsertCoversDates(UpsertState(table, 0, 0), |table|, AllDays(months), year);
  }
}
