/**
 * The scheduler service: the job store of the in-process scheduler (one date job per armed
 * task, keyed by the task id, and the daily maintenance job), start-up loading of PENDING
 * tasks, and the daily recalculation of PENDING_CALCULATION tasks.
 */
module TaskScheduler {
  import opened Wrappers
  import opened JsonTree
  import opened Models
  import opened Schemas
  import opened DateCalculator
  import opened Crud

  /** A scheduled job: a one-off run of a task at an instant, or the daily cron job. */
  datatype Job =
    | TaskRun(taskId: string, runAt: int, name: string, graceSeconds: nat)
    | DailyRun(hour: nat, minute: nat, graceSeconds: nat)

  const MaintenanceJobId: string := "daily_maintenance_job"

  /** The maintenance job runs every day at 01:10 local time, with an hour of grace. */
  const MaintenanceJob: Job := DailyRun(1, 10, 3600)

  /** Late runs of a recurring task are allowed for an hour, of a one-shot task for ten minutes. */
  function GraceSeconds(isRecurring: bool): nat
  {
    if isRecurring then 3600 else 600
  }

  /** The job `add_or_update_job_in_scheduler` registers for a row, if it has a trigger. */
  function JobFor(t: TaskRecord): (r: Option<Job>)
    ensures r.Some? <==> t.nextTriggerTime.Some?
    ensures r.Some? ==> (r.value.TaskRun? && r.value.taskId == t.id && r.value.runAt == t.nextTriggerTime.value &&
                         r.value.graceSeconds == (if t.isRecurring then 3600 else 600))
  {
    match t.nextTriggerTime
    case None => None
    case Some(at) => Some(TaskRun(t.id, at, t.taskName, GraceSeconds(t.isRecurring)))
  }

  /** The job store after arming a row: its job replaces any job with the same id. */
  function Armed(jobs: map<string, Job>, t: TaskRecord): map<string, Job>
  {
    match JobFor(t)
    case None => jobs
    case Some(j) => jobs[t.id := j]
  }

  /** Arming rows one after another. */
  function ArmAll(jobs: map<string, Job>, ts: seq<TaskRecord>): map<string, Job>
  {
    if ts == [] then jobs else Armed(ArmAll(jobs, ts[..|ts| - 1]), ts[|ts| - 1])
  }

  function Lookup(jobs: map<string, Job>, id: string): Option<Job>
  {
    if id in jobs then Some(jobs[id]) else None
  }

  /** Arming a row changes at most the job under its id. */
  lemma ArmedLookup(jobs: map<string, Job>, t: TaskRecord, id: string)
    ensures Lookup(Armed(jobs, t), id) == (if id == t.id && t.nextTriggerTime.Some? then JobFor(t) else Lookup(jobs, id))
  {
  }

  /** Arming distinct rows gives each its own job and leaves every other id alone. */
  lemma {:induction false} ArmAllJobs(jobs: map<string, Job>, ts: seq<TaskRecord>)
    requires DistinctIds(ts)
    ensures var r := ArmAll(jobs, ts);
      (forall t :: t in ts && t.nextTriggerTime.Some? ==> Lookup(r, t.id) == JobFor(t)) &&
      (forall t :: t in ts && t.nextTriggerTime.None? ==> Lookup(r, t.id) == Lookup(jobs, t.id)) &&
      (forall id :: (forall t :: t in ts ==> t.id != id) ==> Lookup(r, id) == Lookup(jobs, id))
  {
    if ts != [] {
      var init := ts[..|ts| - 1];
      var last := ts[|ts| - 1];
      assert DistinctIds(init);
      ArmAllJobs(jobs, init);
      var mid := ArmAll(jobs, init);
      var r := ArmAll(jobs, ts);
      LastOfDistinct(ts, last);
      forall t | t in ts
        ensures t.nextTriggerTime.Some? ==> Lookup(r, t.id) == JobFor(t)
        ensures t.nextTriggerTime.None? ==> Lookup(r, t.id) == Lookup(jobs, t.id)
      {
        ArmedLookup(mid, last, t.id);
        LastOfDistinct(ts, t);
        if t.id == last.id {
          SameIdSameRow(ts, t, last);
        }
      }
      forall id | forall t :: t in ts ==> t.id != id
        ensures Lookup(r, id) == Lookup(jobs, id)
      {
        ArmedLookup(mid, last, id);
        assert forall t :: t in init ==> t in ts by {
          assert ts == init + [last];
        }
      }
    }
  }

  /** What the maintenance pass does with a row's job after recalculating it. */
  datatype JobAction = Arm | Remove | Keep

  /** The inputs the daily pass reads besides the tables: the task-information parser, the clock and the engines. */
  datatype Maintenance = Maintenance(
    parseInfo: map<string, Json> -> Option<TaskInfo>,
    now: int,
    engine: CronEngine,
    lunar: LunarConverter)

  /** `crud.get_holiday_dates_for_year` over a calendar table, as the search's getter. */
  function CalendarOf(days: seq<HolidayDate>): HolidayGetter
  {
    y => DaysOfYear(days, y)
  }

  /**
   * One PENDING_CALCULATION row in the daily pass. Task information that does not parse
   * marks it FAILED and keeps its trigger; a recurring rule searches again from one minute
   * before its stored trigger (or before now) and then arms it, keeps it waiting, or records
   * the final outcome without a trigger; anything else is FAILED without a trigger.
   */
  function Recalculate(t: TaskRecord, m: Maintenance, calendar: HolidayGetter): (TaskRecord, JobAction)
  {
    match m.parseInfo(t.taskInfo)
    case None => (t.(status := Failed), Remove)
    case Some(info) =>
      if info.isRecurring && info.cronConfig.Some? then
        var base := t.nextTriggerTime.GetOr(m.now) - 60;
        TakeResult(t, NextCronRun(info.cronConfig.value, base, m.engine, calendar, m.lunar, DefaultMaxAttempts))
      else (t.(status := Failed, nextTriggerTime := None), Remove)
  }

  /** A recurring row takes a search result: armed when PENDING, kept waiting with a trigger, or finished without one. */
  function TakeResult(t: TaskRecord, r: TriggerResult): (TaskRecord, JobAction)
  {
    if r.trigger.Some? && r.status == Pending then (t.(nextTriggerTime := r.trigger, status := Pending), Arm)
    else if r.trigger.Some? && r.status == PendingCalculation then (t.(nextTriggerTime := r.trigger), Keep)
    else (t.(status := r.status, nextTriggerTime := None), Remove)
  }

  /**
   * The shape every recalculated row has: only its status and trigger differ from `t`; it is
   * armed exactly when PENDING, which it is only with a trigger; it keeps its job exactly when
   * PENDING_CALCULATION, also only with a trigger; and it loses its job when FAILED or COMPLETED.
   */
  predicate RecalculatedShape(t: TaskRecord, r: TaskRecord, a: JobAction)
  {
    r == t.(status := r.status, nextTriggerTime := r.nextTriggerTime) &&
    (a == Arm <==> r.status == Pending) &&
    (r.status == Pending ==> r.nextTriggerTime.Some?) &&
    (a == Keep <==> r.status == PendingCalculation) &&
    (r.status == PendingCalculation ==> r.nextTriggerTime.Some?) &&
    (a == Remove <==> r.status == Failed || r.status == Completed)
  }

  /** A PENDING_CALCULATION row taking a search result of the shape the search guarantees comes out in that shape. */
  lemma TakeResultShape(t: TaskRecord, r: TriggerResult)
    requires t.status == PendingCalculation
    requires (r.trigger.Some? <==> r.status == Pending || r.status == PendingCalculation) && r.status != Running
    ensures RecalculatedShape(t, TakeResult(t, r).0, TakeResult(t, r).1)
  {
  }

  /** Every PENDING_CALCULATION row comes out of recalculation in that shape. */
  lemma RecalculateOutcome(t: TaskRecord, m: Maintenance, calendar: HolidayGetter)
    requires t.status == PendingCalculation
    ensures RecalculatedShape(t, Recalculate(t, m, calendar).0, Recalculate(t, m, calendar).1)
  {
    match m.parseInfo(t.taskInfo)
    case None =>
    case Some(info) =>
      if info.isRecurring && info.cronConfig.Some? {
        var base := t.nextTriggerTime.GetOr(m.now) - 60;
        var r := NextCronRun(info.cronConfig.value, base, m.engine, calendar, m.lunar, DefaultMaxAttempts);
        NextCronRunShape(info.cronConfig.value, base, m.engine, calendar, m.lunar, DefaultMaxAttempts);
        TakeResultShape(t, r);
        assert Recalculate(t, m, calendar) == TakeResult(t, r);
      }
  }

  /** A row whose task information does not parse is FAILED and keeps its trigger. */
  lemma RecalculateUnparsable(t: TaskRecord, m: Maintenance, calendar: HolidayGetter)
    requires m.parseInfo(t.taskInfo).None?
    ensures Recalculate(t, m, calendar) == (t.(status := Failed), Remove)
  {
  }

  /**
   * A recurring row takes the outcome of a search from one minute before its stored
   * trigger (or before now, when it has none): its status and trigger become the search's.
   */
  lemma RecalculateRecurring(t: TaskRecord, m: Maintenance, calendar: HolidayGetter)
    requires t.status == PendingCalculation
    requires m.parseInfo(t.taskInfo).Some?
    requires m.parseInfo(t.taskInfo).value.isRecurring && m.parseInfo(t.taskInfo).value.cronConfig.Some?
    ensures var r := NextCronRun(m.parseInfo(t.taskInfo).value.cronConfig.value,
        (if t.nextTriggerTime.Some? then t.nextTriggerTime.value else m.now) - 60, m.engine, calendar, m.lunar, 732);
      Recalculate(t, m, calendar).0 == t.(status := r.status, nextTriggerTime := r.trigger)
  {
    var info := m.parseInfo(t.taskInfo).value;
    var base := t.nextTriggerTime.GetOr(m.now) - 60;
    assert base == (if t.nextTriggerTime.Some? then t.nextTriggerTime.value else m.now) - 60;
    var r := NextCronRun(info.cronConfig.value, base, m.engine, calendar, m.lunar, DefaultMaxAttempts);
    NextCronRunShape(info.cronConfig.value, base, m.engine, calendar, m.lunar, DefaultMaxAttempts);
    assert Recalculate(t, m, calendar) == TakeResult(t, r);
  }

  /** The job store after one row's action. */
  function ApplyAction(jobs: map<string, Job>, row: TaskRecord, a: JobAction): map<string, Job>
  {
    match a
    case Arm => Armed(jobs, row)
    case Remove => jobs - {row.id}
    case Keep => jobs
  }

  /** The daily pass over the rows being recalculated, one after another. */
  function MaintainAll(tasks: seq<TaskRecord>, jobs: map<string, Job>, pcs: seq<TaskRecord>,
                       m: Maintenance, calendar: HolidayGetter): (seq<TaskRecord>, map<string, Job>)
  {
    if pcs == [] then (tasks, jobs)
    else
      var mid := MaintainAll(tasks, jobs, pcs[..|pcs| - 1], m, calendar);
      var e := Recalculate(pcs[|pcs| - 1], m, calendar);
      (ReplaceTask(mid.0, e.0), ApplyAction(mid.1, e.0, e.1))
  }

  /** The row a recalculated id ends up as. */
  function Maintained(t: TaskRecord, pcs: seq<TaskRecord>, m: Maintenance, calendar: HolidayGetter): TaskRecord
  {
    if t in pcs then Recalculate(t, m, calendar).0 else t
  }

  /**
   * Over a table with unique ids, the pass replaces exactly the rows it recalculates, each
   * by its recalculated form, and leaves every other row as it was.
   */
  lemma {:induction false} MaintainAllRows(tasks: seq<TaskRecord>, jobs: map<string, Job>, pcs: seq<TaskRecord>,
                                           m: Maintenance, calendar: HolidayGetter)
    requires DistinctIds(tasks) && DistinctIds(pcs)
    requires forall p :: p in pcs ==> p in tasks
    ensures var r := MaintainAll(tasks, jobs, pcs, m, calendar).0;
      |r| == |tasks| && DistinctIds(r) &&
      forall k :: 0 <= k < |tasks| ==> r[k] == Maintained(tasks[k], pcs, m, calendar)
  {
    if pcs != [] {
      var init := pcs[..|pcs| - 1];
      var last := pcs[|pcs| - 1];
      assert pcs == init + [last];
      assert DistinctIds(init);
      MaintainAllRows(tasks, jobs, init, m, calendar);
      var mid := MaintainAll(tasks, jobs, init, m, calendar).0;
      var row := Recalculate(last, m, calendar).0;
      RecalculateKeepsId(last, m, calendar);
      ReplaceTaskRows(mid, row);
      var r := ReplaceTask(mid, row);
      forall k | 0 <= k < |tasks|
        ensures r[k] == Maintained(tasks[k], pcs, m, calendar)
      {
        MaintainedKeepsId(tasks[k], init, m, calendar);
        MaintainedStep(tasks, pcs, m, calendar, tasks[k]);
      }
    }
  }

  /** The row an id ends up as keeps that id. */
  lemma MaintainedKeepsId(t: TaskRecord, pcs: seq<TaskRecord>, m: Maintenance, calendar: HolidayGetter)
    ensures Maintained(t, pcs, m, calendar).id == t.id
  {
    RecalculateKeepsId(t, m, calendar);
  }

  /** Adding the last recalculated row changes only the row with its id. */
  lemma MaintainedStep(tasks: seq<TaskRecord>, pcs: seq<TaskRecord>, m: Maintenance, calendar: HolidayGetter, t: TaskRecord)
    requires DistinctIds(tasks) && DistinctIds(pcs) && pcs != []
    requires forall p :: p in pcs ==> p in tasks
    requires t in tasks
    ensures var last := pcs[|pcs| - 1];
      Maintained(t, pcs, m, calendar) ==
        if t.id == last.id then Recalculate(last, m, calendar).0 else Maintained(t, pcs[..|pcs| - 1], m, calendar)
  {
    var last := pcs[|pcs| - 1];
    LastOfDistinct(pcs, t);
    if t.id == last.id {
      SameIdSameRow(tasks, t, last);
    }
  }

  /** Recalculation keeps the id. */
  lemma RecalculateKeepsId(t: TaskRecord, m: Maintenance, calendar: HolidayGetter)
    ensures Recalculate(t, m, calendar).0.id == t.id
  {
  }

  /** In a sequence with unique ids, a row with the last row's id is the last row; any other is in the front part. */
  lemma LastOfDistinct(pcs: seq<TaskRecord>, t: TaskRecord)
    requires pcs != [] && DistinctIds(pcs)
    ensures var init := pcs[..|pcs| - 1];
      (forall p :: p in init ==> p.id != pcs[|pcs| - 1].id) &&
      (t in pcs && t.id != pcs[|pcs| - 1].id ==> t in init) &&
      (t in init ==> t in pcs)
  {
    var init := pcs[..|pcs| - 1];
    assert pcs == init + [pcs[|pcs| - 1]];
    forall p | p in init
      ensures p.id != pcs[|pcs| - 1].id
    {
      var k :| 0 <= k < |init| && init[k] == p;
      assert pcs[k] == p;
    }
  }

  /** Two rows of a table with unique ids that share an id are the same row. */
  lemma SameIdSameRow(tasks: seq<TaskRecord>, a: TaskRecord, b: TaskRecord)
    requires DistinctIds(tasks) && a in tasks && b in tasks && a.id == b.id
    ensures a == b
  {
    var i :| 0 <= i < |tasks| && tasks[i] == a;
    var j :| 0 <= j < |tasks| && tasks[j] == b;
    assert i == j;
  }

  /** The job a recalculated row's id ends up with, given the job it had before. */
  function JobAfterAction(row: TaskRecord, a: JobAction, before: Option<Job>): Option<Job>
  {
    match a
    case Arm => if row.nextTriggerTime.Some? then JobFor(row) else before
    case Remove => None
    case Keep => before
  }

  /** One action changes at most the job under the row's id, as `JobAfterAction` says. */
  lemma ApplyActionLookup(jobs: map<string, Job>, row: TaskRecord, a: JobAction, id: string)
    ensures Lookup(ApplyAction(jobs, row, a), id) == (if id == row.id then JobAfterAction(row, a, Lookup(jobs, id)) else Lookup(jobs, id))
  {
  }

  /** The pass leaves the job of every id it does not recalculate as it was. */
  lemma {:induction false} MaintainAllOtherJobs(tasks: seq<TaskRecord>, jobs: map<string, Job>, pcs: seq<TaskRecord>,
                                                m: Maintenance, calendar: HolidayGetter, id: string)
    requires forall p :: p in pcs ==> p.id != id
    ensures Lookup(MaintainAll(tasks, jobs, pcs, m, calendar).1, id) == Lookup(jobs, id)
  {
    if pcs != [] {
      var init := pcs[..|pcs| - 1];
      var last := pcs[|pcs| - 1];
      assert forall p :: p in init ==> p in pcs;
      MaintainAllOtherJobs(tasks, jobs, init, m, calendar, id);
      var mid := MaintainAll(tasks, jobs, init, m, calendar).1;
      var ra := Recalculate(last, m, calendar);
      RecalculateKeepsId(last, m, calendar);
      ApplyActionLookup(mid, ra.0, ra.1, id);
    }
  }

  /**
   * The pass touches only the jobs of the rows it recalculates: each of those ends up with
   * the job its own action gives, and every other id keeps its job.
   */
  lemma {:induction false} MaintainAllJobs(tasks: seq<TaskRecord>, jobs: map<string, Job>, pcs: seq<TaskRecord>,
                                           m: Maintenance, calendar: HolidayGetter)
    requires DistinctIds(pcs)
    ensures var r := MaintainAll(tasks, jobs, pcs, m, calendar).1;
      (forall id :: (forall p :: p in pcs ==> p.id != id) ==> Lookup(r, id) == Lookup(jobs, id)) &&
      (forall p :: p in pcs ==> Lookup(r, p.id) == JobAfterAction(Recalculate(p, m, calendar).0, Recalculate(p, m, calendar).1, Lookup(jobs, p.id)))
  {
    var r := MaintainAll(tasks, jobs, pcs, m, calendar).1;
    forall id | forall p :: p in pcs ==> p.id != id
      ensures Lookup(r, id) == Lookup(jobs, id)
    {
      MaintainAllOtherJobs(tasks, jobs, pcs, m, calendar, id);
    }
    if pcs != [] {
      var init := pcs[..|pcs| - 1];
      var last := pcs[|pcs| - 1];
      assert DistinctIds(init);
      MaintainAllJobs(tasks, jobs, init, m, calendar);
      var mid := MaintainAll(tasks, jobs, init, m, calendar).1;
      var ra := Recalculate(last, m, calendar);
      assert r == ApplyAction(mid, ra.0, ra.1);
      RecalculateKeepsId(last, m, calendar);
      LastOfDistinct(pcs, last);
      MaintainAllOtherJobs(tasks, jobs, init, m, calendar, last.id);
      forall p | p in pcs
        ensures Lookup(r, p.id) == JobAfterAction(Recalculate(p, m, calendar).0, Recalculate(p, m, calendar).1, Lookup(jobs, p.id))
      {
        ApplyActionLookup(mid, ra.0, ra.1, p.id);
        LastOfDistinct(pcs, p);
        if p.id == last.id {
          SameIdSameRow(pcs, p, last);
        }
      }
    }
  }

  // ---------------------------------------------------------------- the service

  class SchedulerService {
    var jobs: map<string, Job>
    var running: bool

    constructor ()
      ensures jobs == map[] && !running
    {
      jobs := map[];
      running := false;
    }

    /** `add_or_update_job_in_scheduler`: a row without a trigger is not scheduled; a past trigger still is. */
    method AddOrUpdateJob(t: TaskRecord)
      modifies this
      ensures jobs == Armed(old(jobs), t) && running == old(running)
    {
      if t.nextTriggerTime.None? {
        return;
      }
      jobs := jobs[t.id := TaskRun(t.id, t.nextTriggerTime.value, t.taskName, GraceSeconds(t.isRecurring))];
    }

    /** `remove_job_from_scheduler`: removing an id with no job does nothing. */
    method RemoveJob(id: string)
      modifies this
      ensures jobs == old(jobs) - {id} && running == old(running)
    {
      if id in jobs {
        jobs := jobs - {id};
      }
    }

    /**
     * `start`: on a stopped scheduler, arms every PENDING row with a trigger and adds the
     * daily maintenance job; on a running one, does nothing.
     */
    method Start(db: Database)
      requires db.Valid()
      modifies this
      ensures old(running) ==> jobs == old(jobs) && running
      ensures !old(running) ==> running && jobs == ArmAll(old(jobs), ArmableAtStart(db.tasks))[MaintenanceJobId := MaintenanceJob]
    {
      if running {
        return;
      }
      var toSchedule := ArmableAtStart(db.tasks);
      for i := 0 to |toSchedule|
        invariant jobs == ArmAll(old(jobs), toSchedule[..i]) && !running
      {
        assert toSchedule[..i + 1][..i] == toSchedule[..i];
        AddOrUpdateJob(toSchedule[i]);
      }
      assert toSchedule[..|toSchedule|] == toSchedule;
      jobs := jobs[MaintenanceJobId := MaintenanceJob];
      running := true;
    }

    /**
     * `daily_maintenance_job`: every PENDING_CALCULATION row, in table order, is
     * recalculated, committed, and armed or removed as `Recalculate` says.
     */
    method DailyMaintenance(db: Database, m: Maintenance)
      requires db.Valid()
      modifies this, db
      ensures db.Valid() && db.holidays == old(db.holidays) && running == old(running)
      ensures (db.tasks, jobs) == MaintainAll(old(db.tasks), old(jobs), WithStatus(old(db.tasks), PendingCalculation), m, CalendarOf(old(db.holidays)))
    {
      var calendar := CalendarOf(db.holidays);
      var pcs := WithStatus(db.tasks, PendingCalculation);
      for i := 0 to |pcs|
        invariant db.Valid() && db.holidays == old(db.holidays) && running == old(running)
        invariant (db.tasks, jobs) == MaintainAll(old(db.tasks), old(jobs), pcs[..i], m, calendar)
      {
        assert pcs[..i + 1][..i] == pcs[..i];
        RecalculateRow(db, pcs[i], m, calendar);
      }
      assert pcs[..|pcs|] == pcs;
    }

    /** One row of the daily pass: recalculate, commit, then arm or remove its job. */
    method RecalculateRow(db: Database, t: TaskRecord, m: Maintenance, calendar: HolidayGetter)
      requires db.Valid()
      modifies this, db
      ensures db.Valid() && db.holidays == old(db.holidays) && running == old(running)
      ensures db.tasks == ReplaceTask(old(db.tasks), Recalculate(t, m, calendar).0)
      ensures jobs == ApplyAction(old(jobs), Recalculate(t, m, calendar).0, Recalculate(t, m, calendar).1)
    {
      var row, action := RecalculateTask(t, m, calendar);
      db.SaveTask(row);
      if action == Arm {
        AddOrUpdateJob(row);
      } else if action == Remove {
        RemoveJob(row.id);
      }
    }
  }

  /** The branches of the daily pass for one row, giving the committed row and the job action. */
  method RecalculateTask(t: TaskRecord, m: Maintenance, calendar: HolidayGetter) returns (row: TaskRecord, action: JobAction)
    ensures (row, action) == Recalculate(t, m, calendar)
  {
    var info := m.parseInfo(t.taskInfo);
    if info.None? {
      return t.(status := Failed), Remove;
    }
    if !(info.value.isRecurring && info.value.cronConfig.Some?) {
      return t.(status := Failed, nextTriggerTime := None), Remove;
    }
    var base := (if t.nextTriggerTime.Some? then t.nextTriggerTime.value else m.now) - 60;
    var r := GetNextCronRunTime(info.value.cronConfig.value, base, m.engine, calendar, m.lunar, DefaultMaxAttempts);
    if r.trigger.Some? && r.status == Pending {
      return t.(nextTriggerTime := r.trigger, status := r.status), Arm;
    } else if r.trigger.Some? && r.status == PendingCalculation {
      return t.(nextTriggerTime := r.trigger), Keep;
    }
    return t.(status := r.status, nextTriggerTime := None), Remove;
  }

  /** Start-up arms every PENDING row with a trigger, at that trigger, besides the maintenance job. */
  lemma StartArmsPending(jobs: map<string, Job>, tasks: seq<TaskRecord>)
    requires DistinctIds(tasks)
    ensures var r := ArmAll(jobs, ArmableAtStart(tasks));
      forall t :: t in tasks && t.status == Pending && t.nextTriggerTime.Some? ==> Lookup(r, t.id) == JobFor(t)
  {
    ArmableDistinct(tasks);
    ArmAllJobs(jobs, ArmableAtStart(tasks));
  }

  lemma {:induction false} ArmableDistinct(tasks: seq<TaskRecord>)
    requires DistinctIds(tasks)
    ensures DistinctIds(ArmableAtStart(tasks))
  {
    if tasks != [] {
      assert DistinctIds(tasks[1..]);
      ArmableDistinct(tasks[1..]);
      var rest := ArmableAtStart(tasks[1..]);
      if tasks[0].status == Pending && tasks[0].nextTriggerTime.Some? {
        forall j | 0 <= j < |rest|
          ensures rest[j].id != tasks[0].id
        {
          assert rest[j] in tasks[1..];
          var k :| 0 <= k < |tasks[1..]| && tasks[1..][k] == rest[j];
          assert tasks[k + 1] == rest[j];
        }
        var s := [tasks[0]] + rest;
        forall a, b | 0 <= a < b < |s|
          ensures s[a].id != s[b].id
        {
          if a > 0 {
            assert s[a] == rest[a - 1] && s[b] == rest[b - 1];
          } else {
            assert s[b] == rest[b - 1];
          }
        }
      }
    }
  }

  lemma {:induction false} WithStatusDistinct(tasks: seq<TaskRecord>, st: TaskStatus)
    requires DistinctIds(tasks)
    ensures DistinctIds(WithStatus(tasks, st))
  {
    if tasks != [] {
      assert DistinctIds(tasks[1..]);
      WithStatusDistinct(tasks[1..], st);
      var rest := WithStatus(tasks[1..], st);
      if tasks[0].status == st {
        forall j | 0 <= j < |rest|
          ensures rest[j].id != tasks[0].id
        {
          assert rest[j] in tasks[1..];
          var k :| 0 <= k < |tasks[1..]| && tasks[1..][k] == rest[j];
          assert tasks[k + 1] == rest[j];
        }
        var s := [tasks[0]] + rest;
        forall a, b | 0 <= a < b < |s|
          ensures s[a].id != s[b].id
        {
          if a > 0 {
            assert s[a] == rest[a - 1] && s[b] == rest[b - 1];
          } else {
            assert s[b] == rest[b - 1];
          }
        }
      }
    }
  }

  /**
   * The daily pass over a table with unique ids: every PENDING_CALCULATION row becomes its
   * recalculated form and takes the job its action gives; every other row, and the job of
   * every id that is not recalculated, stays as it was.
   */
  lemma DailyPassEffect(tasks: seq<TaskRecord>, jobs: map<string, Job>, m: Maintenance, calendar: HolidayGetter)
    requires DistinctIds(tasks)
    ensures var pcs := WithStatus(tasks, PendingCalculation);
      var (r, j) := MaintainAll(tasks, jobs, pcs, m, calendar);
      |r| == |tasks| && DistinctIds(r) &&
      (forall k :: 0 <= k < |tasks| && tasks[k].status != PendingCalculation ==> r[k] == tasks[k]) &&
      (forall k :: 0 <= k < |tasks| && tasks[k].status == PendingCalculation ==> r[k] == Recalculate(tasks[k], m, calendar).0) &&
      (forall p :: p in pcs ==> Lookup(j, p.id) == JobAfterAction(Recalculate(p, m, calendar).0, Recalculate(p, m, calendar).1, Lookup(jobs, p.id))) &&
      (forall id :: (forall p :: p in pcs ==> p.id != id) ==> Lookup(j, id) == Lookup(jobs, id))
  {
    var pcs := WithStatus(tasks, PendingCalculation);
    WithStatusDistinct(tasks, PendingCalculation);
    MaintainAllRows(tasks, jobs, pcs, m, calendar);
    MaintainAllJobs(tasks, jobs, pcs, m, calendar);
  }
}
