/**
 * The HTTP layer's decisions: the API-key check, creating a task and arming it, updating a
 * task (deep merge of the task information, recalculation, status and trigger overrides,
 * scheduler sync), deleting, the natural-language query filter and target resolution, and
 * the accepted years of a manual calendar update.
 */
module MainApi {
  import opened Wrappers
  import opened Text
  import opened JsonTree
  import opened Models
  import opened Schemas
  import opened DateCalculator
  import opened Crud
  import opened TaskScheduler

  /** An `HTTPException`, by status code. */
  datatype HttpError = HttpError(code: int)

  // ---------------------------------------------------------------- API key

  /**
   * `get_api_key`: with no server key every request passes; otherwise a missing header is
   * 401, a different key 403, and only the server's key passes.
   */
  function CheckApiKey(serverKey: Option<string>, header: Option<string>): (r: Result<Option<string>, HttpError>)
    ensures r.Ok? <==> !Truthy(serverKey) || header == serverKey
    ensures r.Ok? ==> r.value == header
    ensures r.Err? ==> r.error.code == (if Truthy(header) then 403 else 401)
  {
    if !Truthy(serverKey) then Ok(header)
    else if !Truthy(header) then Err(HttpError(401))
    else if header != serverKey then Err(HttpError(403))
    else Ok(header)
  }

  // ---------------------------------------------------------------- deep merge

  /**
   * `deep_update_internal` / `deep_update_dict_for_main`: the update's keys are written into
   * the target one by one, recursing where both sides hold a dictionary.
   */
  method DeepUpdate(target: map<string, Json>, updates: map<string, Json>) returns (r: map<string, Json>)
    ensures r == DeepMerge(target, updates)
    decreases JObj(updates)
  {
    r := target;
    var pending := updates.Keys;
    while pending != {}
      invariant pending <= updates.Keys
      invariant forall k :: k in r <==> k in target || (k in updates && k !in pending)
      invariant forall k :: k in updates && k !in pending ==> r[k] == DeepMerge(target, updates)[k]
      invariant forall k :: k in target && (k !in updates || k in pending) ==> r[k] == target[k]
      decreases pending
    {
      var k :| k in pending;
      var v := updates[k];
      if v.JObj? && k in r && r[k].JObj? {
        var inner := DeepUpdate(r[k].fields, v.fields);
        r := r[k := JObj(inner)];
      } else {
        r := r[k := v];
      }
      pending := pending - {k};
    }
  }

  /**
   * The merge keeps every key of both sides; a key only in the target keeps its value, a
   * key whose new value is not a dictionary (or whose old value is not) takes the new value,
   * and two dictionaries are merged again.
   */
  lemma DeepMergeShape(target: map<string, Json>, updates: map<string, Json>)
    ensures DeepMerge(target, updates).Keys == target.Keys + updates.Keys
    ensures forall k :: k in target && k !in updates ==> DeepMerge(target, updates)[k] == target[k]
    ensures forall k :: k in updates && !BothObjects(target, updates, k) ==> DeepMerge(target, updates)[k] == updates[k]
    ensures forall k :: BothObjects(target, updates, k) ==>
      DeepMerge(target, updates)[k] == JObj(DeepMerge(target[k].fields, updates[k].fields))
  {
  }

  /**
   * A nested dictionary of the update overrides only the leaves it names: every key of the
   * stored nested dictionary survives under the merged one.
   */
  lemma {:induction false} DeepMergeKeepsNestedKeys(target: map<string, Json>, updates: map<string, Json>, k: string, inner: string)
    requires BothObjects(target, updates, k) && inner in target[k].fields
    ensures DeepMerge(target, updates)[k].JObj? && inner in DeepMerge(target, updates)[k].fields
  {
    DeepMergeShape(target[k].fields, updates[k].fields);
  }

  /**
   * The crud layer merges the stored information with the deep-merged one shallowly: as the
   * deep merge already holds every stored key, that second merge changes nothing.
   */
  lemma ShallowAfterDeepMerge(stored: map<string, Json>, updates: map<string, Json>)
    ensures stored + DeepMerge(stored, updates) == DeepMerge(stored, updates)
  {
    DeepMergeShape(stored, updates);
  }

  /**
   * The context keys (`triggering_user_id`, `target_chat_id`, `mention_user_nickname`) are
   * copied from the stored information only when the merged one lacks them and the stored
   * one holds a non-null value.
   */
  function InheritContext(merged: map<string, Json>, stored: map<string, Json>): map<string, Json>
  {
    var keys := {"triggering_user_id", "target_chat_id", "mention_user_nickname"};
    var copied := set c | c in keys && c in stored && stored[c] != JNull;
    map k | k in merged.Keys + copied :: if k in merged then merged[k] else stored[k]
  }

  /** After the deep merge of an update into the stored information that copy never changes anything. */
  lemma InheritAfterDeepMergeIsIdentity(stored: map<string, Json>, updates: map<string, Json>)
    ensures InheritContext(DeepMerge(stored, updates), stored) == DeepMerge(stored, updates)
  {
    DeepMergeShape(stored, updates);
  }

  // ---------------------------------------------------------------- create

  /** What the create endpoints do with the trigger calculation's outcome. */
  datatype CreateDecision = Reject(error: HttpError) | Store(trigger: Option<int>, status: TaskStatus, arm: bool)

  /**
   * A configuration error, or FAILED without a trigger, is refused with 400 and nothing is
   * stored; otherwise the row is stored as calculated and armed when it is PENDING with a
   * trigger.
   */
  function DecideCreate(outcome: Result<TriggerResult, TriggerConfigError>): (r: CreateDecision)
    ensures r.Reject? <==> outcome.Err? || (outcome.value.status == Failed && outcome.value.trigger.None?)
    ensures r.Reject? ==> r.error.code == 400
    ensures r.Store? ==> (r.trigger == outcome.value.trigger && r.status == outcome.value.status &&
                          (r.arm <==> r.status == Pending && r.trigger.Some?))
  {
    match outcome
    case Err(_) => Reject(HttpError(400))
    case Ok(res) =>
      if res.status == Failed && res.trigger.None? then Reject(HttpError(400))
      else Store(res.trigger, res.status, res.status == Pending && res.trigger.Some?)
  }

  /** A task waiting for calendar data is stored but not armed. */
  lemma PendingCalculationNotArmed(outcome: Result<TriggerResult, TriggerConfigError>)
    requires outcome.Ok? && outcome.value.status == PendingCalculation
    ensures DecideCreate(outcome).Store? && !DecideCreate(outcome).arm
  {
  }

  /** Everything the endpoints read besides the tables and the job store. */
  datatype ApiEnvironment = ApiEnvironment(
    now: int,
    engine: CronEngine,
    lunar: LunarConverter,
    parseCreate: map<string, Json> -> Option<TaskInfo>,   // `TaskInfoCreate(**merged)`, `None` where it raises
    dumpInfo: TaskInfo -> map<string, Json>,              // `TaskInfo(...).model_dump(mode='json')`
    normalize: Normalizer)                                // the crud layer's `TaskInfo(**merged).model_dump`

  /**
   * `create_new_task_structured`: the trigger is calculated from now against the stored
   * calendar; a refused task stores nothing, an accepted one is appended with a fresh id,
   * its information dumped with the creation time set, and armed as `DecideCreate` says.
   */
  method CreateNewTask(db: Database, sched: SchedulerService, id: string, info: TaskInfo, env: ApiEnvironment)
    returns (r: Result<TaskRecord, HttpError>)
    requires db.Valid() && FindTask(db.tasks, id).None?
    modifies db, sched
    ensures db.Valid() && db.holidays == old(db.holidays) && sched.running == old(sched.running)
    ensures match DecideCreate(InitialTrigger(info, env.now, env.engine, CalendarOf(old(db.holidays)), env.lunar))
      case Reject(e) => r == Err(e) && db.tasks == old(db.tasks) && sched.jobs == old(sched.jobs)
      case Store(trigger, status, arm) =>
        var row := TaskRecord(id, env.dumpInfo(info.(taskCreationTime := Some(env.now))), info.taskName, env.now, status, trigger, info.isRecurring);
        r == Ok(row) && db.tasks == old(db.tasks) + [row] &&
        sched.jobs == (if arm then Armed(old(sched.jobs), row) else old(sched.jobs))
  {
    var outcome := InitialTrigger(info, env.now, env.engine, CalendarOf(db.holidays), env.lunar);
    var d := DecideCreate(outcome);
    if d.Reject? {
      return Err(d.error);
    }
    var stored := env.dumpInfo(info.(taskCreationTime := Some(env.now)));
    var row := db.CreateTask(id, stored, info.taskName, info.isRecurring, outcome.value.trigger, outcome.value.status, env.now);
    if row.status == Pending && row.nextTriggerTime.Some? {
      sched.AddOrUpdateJob(row);
    }
    r := Ok(row);
  }

  // ---------------------------------------------------------------- update

  /** The set fields of a `TaskUpdateRequest`; `infoUpdates` is its partial task information. */
  datatype UpdateRequest = UpdateRequest(
    infoUpdates: Option<map<string, Json>>,
    status: Option<TaskStatus>,
    nextTriggerTime: Option<int>)

  /** The update handed to the crud layer, and whether the scheduler is synchronised afterwards. */
  datatype UpdatePlan = UpdatePlan(update: TaskUpdate, sync: bool)

  /**
   * `update_existing_task` up to the crud call. New task information is deep-merged into the
   * stored one, validated (400 on failure) and recalculated from now (400 on a configuration
   * error); only without it does a top-level status apply, and a top-level trigger then
   * makes the task PENDING unless a status was given or it is PENDING_CALCULATION. The
   * status and the trigger are always written.
   */
  function PlanUpdate(before: TaskRecord, req: UpdateRequest, env: ApiEnvironment, calendar: HolidayGetter): Result<UpdatePlan, HttpError>
  {
    var recalculated :=
      if req.infoUpdates.None? then Ok((None, before.nextTriggerTime, before.status))
      else
        var merged := DeepMerge(before.taskInfo, req.infoUpdates.value);
        match env.parseCreate(merged)
        case None => Err(HttpError(400))
        case Some(info) =>
          match InitialTrigger(info, env.now, env.engine, calendar, env.lunar)
          case Err(_) => Err(HttpError(400))
          case Ok(res) => Ok((Some(merged), res.trigger, res.status));
    match recalculated
    case Err(e) => Err(e)
    case Ok(v) =>
      var (info, trigger, status) := v;
      var status1 := if req.status.Some? && req.infoUpdates.None? then req.status.value else status;
      var trigger2 := if req.nextTriggerTime.Some? && req.infoUpdates.None? then Some(req.nextTriggerTime.value) else trigger;
      var status2 :=
        if req.nextTriggerTime.Some? && req.infoUpdates.None? && req.status.None? && status1 != PendingCalculation then Pending
        else status1;
      Ok(UpdatePlan(TaskUpdate(info, Some(status2), Some(trigger2)),
                    req.infoUpdates.Some? || req.status.Some? || req.nextTriggerTime.Some?))
  }

  /** New task information recalculates the trigger and the status; the top-level fields are then ignored. */
  lemma UpdateWithInfoRecalculates(before: TaskRecord, req: UpdateRequest, env: ApiEnvironment, calendar: HolidayGetter)
    requires req.infoUpdates.Some?
    ensures var merged := DeepMerge(before.taskInfo, req.infoUpdates.value);
      var p := PlanUpdate(before, req, env, calendar);
      (p.Ok? <==> env.parseCreate(merged).Some? && InitialTrigger(env.parseCreate(merged).value, env.now, env.engine, calendar, env.lunar).Ok?) &&
      (p.Err? ==> p.error.code == 400) &&
      (p.Ok? ==>
        var res := InitialTrigger(env.parseCreate(merged).value, env.now, env.engine, calendar, env.lunar).value;
        p.value.update == TaskUpdate(Some(merged), Some(res.status), Some(res.trigger)) && p.value.sync)
  {
  }

  /**
   * Without new task information: a given status is stored as given; a given trigger is
   * stored and, without a given status, makes the task PENDING unless it is
   * PENDING_CALCULATION; with neither, the row keeps its values and the scheduler is left alone.
   */
  lemma UpdateWithoutInfo(before: TaskRecord, req: UpdateRequest, env: ApiEnvironment, calendar: HolidayGetter)
    requires req.infoUpdates.None?
    ensures var p := PlanUpdate(before, req, env, calendar);
      p.Ok? && p.value.update.taskInfo.None? &&
      p.value.update.status == Some(
        if req.status.Some? then req.status.value
        else if req.nextTriggerTime.Some? && before.status != PendingCalculation then Pending
        else before.status) &&
      p.value.update.nextTriggerTime == Some(if req.nextTriggerTime.Some? then Some(req.nextTriggerTime.value) else before.nextTriggerTime) &&
      (p.value.sync <==> req.status.Some? || req.nextTriggerTime.Some?)
  {
  }

  /**
   * `update_existing_task`: a missing row is 404; a refused plan changes nothing; a merged
   * information the crud layer cannot validate raises (500) and changes nothing. Otherwise
   * the row is replaced, and when anything was given the task is armed if it is PENDING with
   * a trigger and its job removed otherwise.
   */
  method UpdateExistingTask(db: Database, sched: SchedulerService, id: string, req: UpdateRequest, env: ApiEnvironment)
    returns (r: Result<TaskRecord, HttpError>)
    requires db.Valid()
    modifies db, sched
    ensures db.Valid() && db.holidays == old(db.holidays) && sched.running == old(sched.running)
    ensures FindTask(old(db.tasks), id).None? ==> r == Err(HttpError(404)) && db.tasks == old(db.tasks) && sched.jobs == old(sched.jobs)
    ensures FindTask(old(db.tasks), id).Some? ==>
      var before := FindTask(old(db.tasks), id).value;
      match PlanUpdate(before, req, env, CalendarOf(old(db.holidays)))
      case Err(e) => r == Err(e) && db.tasks == old(db.tasks) && sched.jobs == old(sched.jobs)
      case Ok(p) =>
        match ApplyUpdate(before, p.update, env.normalize)
        case None => r == Err(HttpError(500)) && db.tasks == old(db.tasks) && sched.jobs == old(sched.jobs)
        case Some(row) =>
          r == Ok(row) && db.tasks == ReplaceTask(old(db.tasks), row) &&
          sched.jobs == (if !p.sync then old(sched.jobs)
                         else if row.status == Pending && row.nextTriggerTime.Some? then Armed(old(sched.jobs), row)
                         else old(sched.jobs) - {id})
  {
    var found := FindTask(db.tasks, id);
    if found.None? {
      return Err(HttpError(404));
    }
    var before := found.value;
    var plan := PlanUpdate(before, req, env, CalendarOf(db.holidays));
    if plan.Err? {
      return Err(plan.error);
    }
    ApplyUpdateColumns(before, plan.value.update, env.normalize);
    var i := IndexOfTask(db.tasks, id);
    assert db.tasks[i.value] == before;
    var outcome := db.UpdateTask(id, plan.value.update, env.normalize);
    if !outcome.Updated? {
      return Err(HttpError(500));
    }
    var row := outcome.record;
    if plan.value.sync {
      if row.status == Pending && row.nextTriggerTime.Some? {
        sched.AddOrUpdateJob(row);
      } else {
        sched.RemoveJob(row.id);
      }
    }
    r := Ok(row);
  }

  /** After a synchronised update the job store holds a job for the task exactly when it is PENDING with a trigger. */
  lemma SyncedJobPresence(jobs: map<string, Job>, row: TaskRecord)
    ensures var after := if row.status == Pending && row.nextTriggerTime.Some? then Armed(jobs, row) else jobs - {row.id};
      (row.id in after <==> row.status == Pending && row.nextTriggerTime.Some?) &&
      forall k :: k != row.id ==> Lookup(after, k) == Lookup(jobs, k)
  {
  }

  // ---------------------------------------------------------------- delete

  /** `delete_existing_task`: a missing row is 404; otherwise the row and its job are removed. */
  method DeleteExistingTask(db: Database, sched: SchedulerService, id: string) returns (r: Result<(), HttpError>)
    requires db.Valid()
    modifies db, sched
    ensures db.Valid() && db.holidays == old(db.holidays) && sched.running == old(sched.running)
    ensures FindTask(old(db.tasks), id).None? ==> r == Err(HttpError(404)) && db.tasks == old(db.tasks) && sched.jobs == old(sched.jobs)
    ensures FindTask(old(db.tasks), id).Some? ==>
      r == Ok(()) && FindTask(db.tasks, id).None? && sched.jobs == old(sched.jobs) - {id} &&
      forall t :: t in db.tasks <==> t in old(db.tasks) && t.id != id
  {
    if FindTask(db.tasks, id).None? {
      return Err(HttpError(404));
    }
    var existed := db.DeleteTask(id);
    sched.RemoveJob(id);
    r := Ok(());
  }

  // ---------------------------------------------------------------- target resolution

  /** Rows whose name contains the keyword, ignoring case, in the given order. */
  function NameMatches(tasks: seq<TaskRecord>, keyword: string): (r: seq<TaskRecord>)
    ensures |r| <= |tasks|
    ensures forall t :: t in r <==> t in tasks && Contains(Lower(t.taskName), Lower(keyword))
  {
    if tasks == [] then []
    else
      var rest := NameMatches(tasks[1..], keyword);
      assert forall t :: t in tasks <==> t == tasks[0] || t in tasks[1..];
      if Contains(Lower(tasks[0].taskName), Lower(keyword)) then [tasks[0]] + rest else rest
  }

  /** The rows the keyword search looks at: the newest thousand. */
  function SearchScope(tasks: seq<TaskRecord>): seq<TaskRecord>
  {
    GetTasks(tasks, 0, 1000)
  }

  /**
   * The target of a natural-language update or delete: by id when one is given (404 when
   * absent); otherwise by name keyword among the newest thousand rows, where exactly one
   * match is the target, several are 400 and none is 404; with neither, 400.
   */
  function ResolveTarget(tasks: seq<TaskRecord>, taskId: Option<string>, keyword: Option<string>): Result<TaskRecord, HttpError>
  {
    if Truthy(taskId) then
      match FindTask(tasks, taskId.value)
      case None => Err(HttpError(404))
      case Some(t) => Ok(t)
    else if Truthy(keyword) then
      var c := NameMatches(SearchScope(tasks), keyword.value);
      if |c| == 1 then Ok(c[0])
      else if |c| > 1 then Err(HttpError(400))
      else Err(HttpError(404))
    else Err(HttpError(400))
  }

  /** By id: the row with that id, or 404. */
  lemma ResolveById(tasks: seq<TaskRecord>, taskId: Option<string>, keyword: Option<string>)
    requires Truthy(taskId)
    ensures var r := ResolveTarget(tasks, taskId, keyword);
      (r.Ok? <==> FindTask(tasks, taskId.value).Some?) &&
      (r.Ok? ==> r.value in tasks && r.value.id == taskId.value) &&
      (r.Err? ==> r.error.code == 404)
  {
  }

  /**
   * By keyword: the target is the one row among the newest thousand whose name contains the
   * keyword, ignoring case; several such rows are 400 and none is 404.
   */
  lemma ResolveByKeyword(tasks: seq<TaskRecord>, taskId: Option<string>, keyword: Option<string>)
    requires !Truthy(taskId) && Truthy(keyword)
    ensures var r := ResolveTarget(tasks, taskId, keyword);
      var c := NameMatches(SearchScope(tasks), keyword.value);
      (r.Ok? <==> |c| == 1) &&
      (r.Ok? ==> (r.value in tasks && Contains(Lower(r.value.taskName), Lower(keyword.value)) &&
                  forall t :: t in SearchScope(tasks) && Contains(Lower(t.taskName), Lower(keyword.value)) ==> t == r.value)) &&
      (r.Err? ==> r.error.code == (if |c| > 1 then 400 else 404))
  {
    var scope := SearchScope(tasks);
    var c := NameMatches(scope, keyword.value);
    if |c| == 1 {
      ScopeWithinTable(tasks);
      SingleMatch(scope, keyword.value);
    }
  }

  /** A single match is a row of the scope whose name contains the keyword, and the only such row. */
  lemma SingleMatch(scope: seq<TaskRecord>, keyword: string)
    requires |NameMatches(scope, keyword)| == 1
    ensures var c := NameMatches(scope, keyword);
      c[0] in scope && Contains(Lower(c[0].taskName), Lower(keyword)) &&
      forall t :: t in scope && Contains(Lower(t.taskName), Lower(keyword)) ==> t == c[0]
  {
    var c := NameMatches(scope, keyword);
    assert c[0] in c;
    forall t | t in scope && Contains(Lower(t.taskName), Lower(keyword))
      ensures t == c[0]
    {
      assert t in c;
    }
  }

  /** The rows the keyword search looks at are rows of the table. */
  lemma ScopeWithinTable(tasks: seq<TaskRecord>)
    ensures forall t :: t in SearchScope(tasks) ==> t in tasks
  {
    GetTasksPage(tasks, 0, 1000);
    var scope := SearchScope(tasks);
    forall t | t in scope
      ensures t in tasks
    {
      var k :| 0 <= k < |scope| && scope[k] == t;
    }
  }

  /** With neither an id nor a keyword the target cannot be resolved. */
  lemma ResolveWithoutIdentifier(tasks: seq<TaskRecord>, taskId: Option<string>, keyword: Option<string>)
    requires !Truthy(taskId) && !Truthy(keyword)
    ensures ResolveTarget(tasks, taskId, keyword) == Err(HttpError(400))
  {
  }

  // ---------------------------------------------------------------- query filter

  /**
   * The statuses a query's status word selects: an enum member's name in any case, else
   * "进行中" (PENDING or RUNNING) or "待执行" (PENDING); otherwise none, which selects every
   * status.
   */
  function TargetStatuses(word: Option<string>): (r: seq<TaskStatus>)
    ensures Truthy(word) && StatusByName(Upper(word.value)).Some? ==> r == [StatusByName(Upper(word.value)).value]
    ensures word == Some("进行中") ==> r == [Pending, Running]
    ensures word == Some("待执行") ==> r == [Pending]
    ensures Truthy(word) && StatusByName(Upper(word.value)).None? && word.value != "进行中" && word.value != "待执行" ==> r == []
    ensures !Truthy(word) ==> r == []
  {
    if !Truthy(word) then []
    else match StatusByName(Upper(word.value))
      case Some(s) => [s]
      case None =>
        if word.value == "进行中" then [Pending, Running]
        else if word.value == "待执行" then [Pending]
        else []
  }

  /** An empty status list matches every row. */
  predicate StatusMatches(t: TaskRecord, targets: seq<TaskStatus>)
  {
    targets == [] || t.status in targets
  }

  /** A text field of the stored information as the corrected filter reads it: absent or not a string reads as "". */
  function TextOrEmpty(info: map<string, Json>, key: string): string
  {
    if key in info && info[key].JStr? then info[key].s else ""
  }

  /** The keyword occurs, ignoring case, in the name, the description or the reminder content. */
  predicate KeywordIn(t: TaskRecord, keyword: string)
  {
    var k := Lower(keyword);
    Contains(Lower(t.taskName), k) ||
    Contains(Lower(TextOrEmpty(t.taskInfo, "description")), k) ||
    Contains(Lower(TextOrEmpty(t.taskInfo, "reminder_content")), k)
  }

  predicate Matches(t: TaskRecord, targets: seq<TaskStatus>, keyword: Option<string>)
  {
    StatusMatches(t, targets) && (!Truthy(keyword) || KeywordIn(t, keyword.value))
  }

  /** The query result: the matching rows, in the order given. */
  function Filter(tasks: seq<TaskRecord>, targets: seq<TaskStatus>, keyword: Option<string>): seq<TaskRecord>
  {
    if tasks == [] then []
    else
      var prev := Filter(tasks[..|tasks| - 1], targets, keyword);
      if Matches(tasks[|tasks| - 1], targets, keyword) then prev + [tasks[|tasks| - 1]] else prev
  }

  /** The result holds exactly the matching rows, each once per occurrence, in their order. */
  lemma {:induction false} FilterMembers(tasks: seq<TaskRecord>, targets: seq<TaskStatus>, keyword: Option<string>)
    ensures var r := Filter(tasks, targets, keyword);
      |r| <= |tasks| && (forall t :: t in r <==> t in tasks && Matches(t, targets, keyword)) &&
      multiset(r) <= multiset(tasks)
  {
    if tasks != [] {
      var init := tasks[..|tasks| - 1];
      FilterMembers(init, targets, keyword);
      assert tasks == init + [tasks[|tasks| - 1]];
    }
  }

  /** Without a status and a keyword, the query returns every row it looked at. */
  lemma {:induction false} FilterSelectsAll(tasks: seq<TaskRecord>)
    ensures Filter(tasks, [], None) == tasks
  {
    if tasks != [] {
      FilterSelectsAll(tasks[..|tasks| - 1]);
      assert tasks == tasks[..|tasks| - 1] + [tasks[|tasks| - 1]];
    }
  }

  /**
   * The QUERY_TASKS branch over the newest two hundred rows, with a null description read
   * as empty text: rows are kept when their status is selected and, with a keyword, the
   * keyword occurs in one of the three texts.
   */
  method QueryTasks(tasks: seq<TaskRecord>, statusWord: Option<string>, keyword: Option<string>) returns (r: seq<TaskRecord>)
    ensures r == Filter(GetTasks(tasks, 0, 200), TargetStatuses(statusWord), keyword)
  {
    var all := GetTasks(tasks, 0, 200);
    var targets := TargetStatuses(statusWord);
    r := FilterRows(all, targets, keyword);
  }

  /** The filtering loop of the QUERY_TASKS branch. */
  method FilterRows(all: seq<TaskRecord>, targets: seq<TaskStatus>, keyword: Option<string>) returns (r: seq<TaskRecord>)
    ensures r == Filter(all, targets, keyword)
  {
    r := [];
    for i := 0 to |all|
      invariant r == Filter(all[..i], targets, keyword)
    {
      assert all[..i + 1][..i] == all[..i];
      var t := all[i];
      var matchesStatus := targets == [] || t.status in targets;
      var matchesKeywords := true;
      if Truthy(keyword) && matchesStatus {
        var k := Lower(keyword.value);
        var description := Lower(TextOrEmpty(t.taskInfo, "description"));
        var content := Lower(TextOrEmpty(t.taskInfo, "reminder_content"));
        if !(Contains(Lower(t.taskName), k) || Contains(description, k) || Contains(content, k)) {
          matchesKeywords := false;
        }
      }
      assert (matchesStatus && matchesKeywords) == Matches(t, targets, keyword);
      if matchesStatus && matchesKeywords {
        r := r + [t];
      }
    }
    assert all[..|all|] == all;
  }

  /** `dict.get(key, "")` followed by `.lower()`: `None` where the stored value is null or not a string and `.lower()` raises. */
  function RawText(info: map<string, Json>, key: string): Option<string>
  {
    if key !in info then Some("")
    else if info[key].JStr? then Some(info[key].s)
    else None
  }

  /** The keyword test raises for this row: it is reached and one of the two stored texts is not a string. */
  predicate RaisesOn(t: TaskRecord, targets: seq<TaskStatus>, keyword: Option<string>)
  {
    Truthy(keyword) && StatusMatches(t, targets) &&
    (RawText(t.taskInfo, "description").None? || RawText(t.taskInfo, "reminder_content").None?)
  }

  /**
   * The filter as the source writes it: the first row whose keyword test reads a null
   * description raises, and the whole request fails with 500.
   */
  function FilterAsWritten(tasks: seq<TaskRecord>, targets: seq<TaskStatus>, keyword: Option<string>): Result<seq<TaskRecord>, HttpError>
  {
    if tasks == [] then Ok([])
    else
      match FilterAsWritten(tasks[..|tasks| - 1], targets, keyword)
      case Err(e) => Err(e)
      case Ok(prev) =>
        var t := tasks[|tasks| - 1];
        if RaisesOn(t, targets, keyword) then Err(HttpError(500))
        else Ok(if Matches(t, targets, keyword) then prev + [t] else prev)
  }

  /** The filter as written fails exactly when some row raises, and otherwise agrees with the corrected one. */
  lemma {:induction false} FilterAsWrittenAgrees(tasks: seq<TaskRecord>, targets: seq<TaskStatus>, keyword: Option<string>)
    ensures var r := FilterAsWritten(tasks, targets, keyword);
      (r.Err? <==> exists t :: t in tasks && RaisesOn(t, targets, keyword)) &&
      (r.Ok? ==> r.value == Filter(tasks, targets, keyword))
  {
    if tasks != [] {
      var init := tasks[..|tasks| - 1];
      FilterAsWrittenAgrees(init, targets, keyword);
      assert tasks == init + [tasks[|tasks| - 1]];
      assert forall t :: t in tasks <==> t in init || t == tasks[|tasks| - 1];
    }
  }

  /**
   * A task created without a description stores it as null, so any keyword query whose
   * status selection covers that task fails instead of returning the matching tasks.
   */
  lemma NullDescriptionFailsQuery()
    ensures var info := map["description" := JNull, "reminder_content" := JStr("drink water")];
      var t := TaskRecord("t1", info, "water", 0, Pending, Some(60), false);
      FilterAsWritten([t], [], Some("water")) == Err(HttpError(500)) &&
      Filter([t], [], Some("water")) == [t]
  {
    var info := map["description" := JNull, "reminder_content" := JStr("drink water")];
    var t := TaskRecord("t1", info, "water", 0, Pending, Some(60), false);
    assert [t][..0] == [];
    assert Lower("water") == "water";
    assert Contains("water", "water");
  }

  // ---------------------------------------------------------------- natural-language update fields

  /** The field names of `TaskInfoBase`. */
  const TaskInfoFields: set<string> := {
    "task_name", "description", "triggering_user_id", "target_chat_id", "mention_user_nickname",
    "webhook_channel", "email_channel", "reminder_content", "is_dify_generated", "is_recurring",
    "cron_config", "countdown_config", "one_time_specific_config"}

  /** The field names of `TaskUpdateRequest`. */
  const UpdateRequestFields: set<string> := {"task_info", "status", "next_trigger_time"}

  /**
   * The split of the model's `update_fields`: task-information fields go to the partial
   * information, request fields to the top-level arguments, anything else is dropped.
   */
  function SplitUpdateFields(fields: map<string, Json>): (r: (map<string, Json>, map<string, Json>))
    ensures r.0.Keys == fields.Keys * TaskInfoFields && r.1.Keys == fields.Keys * UpdateRequestFields
    ensures forall k :: k in r.0 ==> r.0[k] == fields[k]
    ensures forall k :: k in r.1 ==> r.1[k] == fields[k]
  {
    (map k | k in fields && k in TaskInfoFields :: fields[k],
     map k | k in fields && k !in TaskInfoFields && k in UpdateRequestFields :: fields[k])
  }

  /** `TaskStatusEnum(value)`: the member with that stored value, as Pydantic validates an enum field. */
  function StatusByValue(v: string): (r: Option<TaskStatus>)
    ensures r.Some? ==> StatusValue(r.value) == v
    ensures r.None? ==> forall s: TaskStatus :: StatusValue(s) != v
  {
    if v == "待执行" then Some(Pending)
    else if v == "待计算" then Some(PendingCalculation)
    else if v == "执行中" then Some(Running)
    else if v == "执行完成" then Some(Completed)
    else if v == "失败" then Some(Failed)
    else None
  }

  /**
   * The status of a natural-language update as the source computes it: the split already
   * put the raw `status` into the top-level arguments, so the conversion by member name is
   * skipped and Pydantic validates the raw text against the stored values (400 otherwise).
   */
  function NlpStatusAsWritten(fields: map<string, Json>): Result<Option<TaskStatus>, HttpError>
  {
    var top := SplitUpdateFields(fields).1;
    if "status" !in top || top["status"] == JNull then Ok(None)
    else if top["status"].JStr? && StatusByValue(top["status"].s).Some? then Ok(StatusByValue(top["status"].s))
    else Err(HttpError(400))
  }

  /**
   * The status as the conversion by member name intends: `TaskStatusEnum[str(v).upper()]`,
   * 400 when no member has that name.
   */
  function NlpStatus(fields: map<string, Json>): (r: Result<Option<TaskStatus>, HttpError>)
    ensures "status" !in fields ==> r == Ok(None)
    ensures "status" in fields && fields["status"].JStr? ==>
      (r.Ok? <==> StatusByName(Upper(fields["status"].s)).Some?) &&
      (r.Ok? ==> r.value.Some? && StatusName(r.value.value) == Upper(fields["status"].s))
  {
    if "status" !in fields then Ok(None)
    else if fields["status"].JStr? && StatusByName(Upper(fields["status"].s)).Some? then Ok(StatusByName(Upper(fields["status"].s)))
    else Err(HttpError(400))
  }

  /** The raw status always lands among the top-level arguments, so the name conversion is never reached. */
  lemma StatusAlwaysTopLevel(fields: map<string, Json>)
    requires "status" in fields
    ensures "status" in SplitUpdateFields(fields).1 && "status" !in SplitUpdateFields(fields).0
  {
  }

  /**
   * The status names the parsing prompt asks for are refused as written and accepted by the
   * conversion by name.
   */
  lemma EnglishStatusRefused()
    ensures NlpStatusAsWritten(map["status" := JStr("PENDING")]) == Err(HttpError(400))
    ensures NlpStatus(map["status" := JStr("PENDING")]) == Ok(Some(Pending))
  {
    var fields := map["status" := JStr("PENDING")];
    assert SplitUpdateFields(fields).1 == fields;
    assert Upper("PENDING") == "PENDING";
  }

  // ---------------------------------------------------------------- calendar update

  /** `trigger_calendar_update` accepts the years from 2000 to five years after the current one. */
  function CalendarUpdateYear(year: int, currentYear: int): (r: Result<int, HttpError>)
    ensures r.Ok? <==> 2000 <= year <= currentYear + 5
    ensures r.Ok? ==> r.value == year
    ensures r.Err? ==> r.error.code == 400
  {
    if 2000 <= year <= currentYear + 5 then Ok(year) else Err(HttpError(400))
  }
}
