/**
 * Firing a task (`execute_task_by_id`): the status transitions of one run, the content and
 * recipient it sends to, and whether the task is re-armed or its job removed afterwards.
 * Content generation, the webhook request and the mail transfer are parameters.
 */
module TaskExecutor {
  import opened Wrappers
  import opened Text
  import opened JsonTree
  import opened Models
  import opened Schemas
  import opened DateCalculator
  import opened Crud
  import opened TaskScheduler
  import opened Notification

  /** Everything a run reads besides the tables and the job store. */
  datatype Environment = Environment(
    parseInfo: map<string, Json> -> Option<TaskInfo>,       // `schemas.TaskInfo(**task_info)`, `None` where it raises
    now: int,
    engine: CronEngine,
    lunar: LunarConverter,
    difyConfigured: bool,                                    // DIFY_API_KEY and DIFY_BASE_URL are set
    generate: (string, string) -> string,                    // `generate_content_with_dify(prompt, user_id)`
    mailConfigured: bool,                                    // the four mail settings are set
    http: WebhookRequest -> bool,                            // the webhook request succeeded
    mailer: (EmailChannel, string) -> bool)                  // the mail was handed over

  /** The reminder text without any @ prefix: generated by Dify, or the stored content. */
  function ReminderContent(info: TaskInfo, taskId: string, env: Environment): string
  {
    if !info.isDifyGenerated then info.reminderContent
    else if !env.difyConfigured then "Dify未配置。原始提示: " + info.reminderContent
    else
      var generated := env.generate(info.reminderContent, OrElse(info.triggeringUserId, "task_executor_" + taskId));
      if generated != "" && !StartsWith(generated, "Dify") then generated
      else "Dify内容生成失败(" + PySlice(generated, 0, 50) + "...). 原始提示: " + info.reminderContent
  }

  /** Generated text is used only when it is non-empty and is not one of the client's "Dify..." error texts. */
  lemma GeneratedContentUsed(info: TaskInfo, taskId: string, env: Environment)
    requires info.isDifyGenerated && env.difyConfigured
    ensures var g := env.generate(info.reminderContent, OrElse(info.triggeringUserId, "task_executor_" + taskId));
      (ReminderContent(info, taskId, env) == g) <== (g != "" && !StartsWith(g, "Dify"))
    ensures var g := env.generate(info.reminderContent, OrElse(info.triggeringUserId, "task_executor_" + taskId));
      (g == "" || StartsWith(g, "Dify")) ==> EndsWith(ReminderContent(info, taskId, env), info.reminderContent)
  {
  }

  /** The chat the reminder goes to: the target chat when set, else the triggering user. */
  function Recipient(info: TaskInfo): Option<string>
  {
    if Truthy(info.targetChatId) then info.targetChatId else info.triggeringUserId
  }

  /** The target chat is a group chat. */
  predicate GroupContext(info: TaskInfo)
  {
    Truthy(info.targetChatId) && Contains(info.targetChatId.value, "@chatroom")
  }

  /** The webhook arguments of a run: in a group the triggering user is @-mentioned, by nickname when one is stored. */
  function WebhookArgs(info: TaskInfo, content: string, recipient: string): WebhookContext
  {
    var group := GroupContext(info);
    WebhookContext(content, recipient, info.triggeringUserId,
      if group then info.mentionUserNickname else None,
      if group then info.triggeringUserId else None,
      Some(info.taskName), info.description)
  }

  /** The mail body: in a group it names the group and the nickname, or else the user. */
  function EmailContent(info: TaskInfo, content: string): string
  {
    var group := GroupContext(info);
    if group && Truthy(info.mentionUserNickname) then
      "(来自群聊 " + info.targetChatId.value + " 中 " + info.mentionUserNickname.value + " 的提醒)\n" + content
    else if group && Truthy(info.triggeringUserId) then
      "(来自群聊 " + info.targetChatId.value + " 中用户 " + info.triggeringUserId.value + " 的提醒)\n" + content
    else content
  }

  /** The delivery: `None` without any channel, else whether it was sent. */
  function Deliver(info: TaskInfo, content: string, recipient: string, env: Environment): Option<bool>
  {
    if info.webhookChannel.Some? then Some(SendWebhook(info.webhookChannel.value, WebhookArgs(info, content, recipient), env.http))
    else if info.emailChannel.Some? then Some(env.mailConfigured && env.mailer(info.emailChannel.value, EmailContent(info, content)))
    else None
  }

  /**
   * One run on an existing row: the row committed last and what happens to its job.
   * A row that is neither PENDING nor RUNNING is skipped; otherwise the run ends FAILED
   * when its stored information does not parse, when there is no recipient or no channel,
   * and otherwise COMPLETED or FAILED as the delivery went; a recurring row with a rule
   * then takes the next search result from now.
   */
  function Execute(t: TaskRecord, env: Environment, calendar: HolidayGetter): (TaskRecord, JobAction)
  {
    if t.status != Pending && t.status != Running then (t, if t.nextTriggerTime.None? then Remove else Keep)
    else
      var running := t.(status := Running);
      match env.parseInfo(t.taskInfo)
      case None => (running.(status := Failed), Remove)
      case Some(info) =>
        var recipient := Recipient(info);
        if !Truthy(recipient) then (running.(status := Failed), if t.isRecurring then Keep else Remove)
        else
          match Deliver(info, ReminderContent(info, t.id, env), recipient.value, env)
          case None => (running.(status := Failed), if t.isRecurring then Keep else Remove)
          case Some(sent) =>
            Reschedule(running.(status := if sent then Completed else Failed), info, env, calendar)
  }

  /**
   * After a delivery: a recurring row with a rule takes the next search result from now and
   * keeps its job only when that leaves it PENDING with a trigger; any other row loses its
   * trigger and its job.
   */
  function Reschedule(done: TaskRecord, info: TaskInfo, env: Environment, calendar: HolidayGetter): (TaskRecord, JobAction)
  {
    if done.isRecurring && info.cronConfig.Some? then
      var r := NextCronRun(info.cronConfig.value, env.now, env.engine, calendar, env.lunar, DefaultMaxAttempts);
      (done.(nextTriggerTime := r.trigger, status := r.status), if r.status == Pending && r.trigger.Some? then Arm else Remove)
    else (done.(nextTriggerTime := None), Remove)
  }

  /** A row that is neither PENDING nor RUNNING is left as it is; its job goes only when it has no trigger. */
  lemma SkippedRun(t: TaskRecord, env: Environment, calendar: HolidayGetter)
    requires t.status != Pending && t.status != Running
    ensures Execute(t, env, calendar) == (t, if t.nextTriggerTime.None? then Remove else Keep)
  {
  }

  /**
   * A run never leaves its row RUNNING, keeps its identity and information, and arms the
   * job exactly when the row ends PENDING with a trigger.
   */
  lemma RunOutcome(t: TaskRecord, env: Environment, calendar: HolidayGetter)
    ensures var (r, a) := Execute(t, env, calendar);
      r.id == t.id && r.taskInfo == t.taskInfo && r.isRecurring == t.isRecurring &&
      ((t.status == Pending || t.status == Running) ==> r.status != Running) &&
      (a == Arm <==> r.status == Pending && r.nextTriggerTime.Some?)
  {
    if t.status == Pending || t.status == Running {
      match env.parseInfo(t.taskInfo)
      case None =>
      case Some(info) =>
        if info.cronConfig.Some? {
          NextCronRunShape(info.cronConfig.value, env.now, env.engine, calendar, env.lunar, DefaultMaxAttempts);
        }
    }
  }

  /**
   * A one-shot run that reached a channel ends COMPLETED exactly when the delivery
   * succeeded, without a trigger, and its job is removed.
   */
  lemma OneShotRun(t: TaskRecord, env: Environment, calendar: HolidayGetter)
    requires t.status == Pending || t.status == Running
    requires !t.isRecurring && env.parseInfo(t.taskInfo).Some?
    requires var info := env.parseInfo(t.taskInfo).value;
      Truthy(Recipient(info)) && Deliver(info, ReminderContent(info, t.id, env), Recipient(info).value, env).Some?
    ensures var info := env.parseInfo(t.taskInfo).value;
      var sent := Deliver(info, ReminderContent(info, t.id, env), Recipient(info).value, env).value;
      Execute(t, env, calendar) == (t.(status := if sent then Completed else Failed, nextTriggerTime := None), Remove)
  {
  }

  /**
   * Without a recipient, or without a channel, the run is FAILED, keeps its trigger, and a
   * recurring task keeps its job while a one-shot task loses it.
   */
  lemma UndeliverableRun(t: TaskRecord, env: Environment, calendar: HolidayGetter)
    requires t.status == Pending || t.status == Running
    requires env.parseInfo(t.taskInfo).Some?
    requires var info := env.parseInfo(t.taskInfo).value;
      !Truthy(Recipient(info)) || Deliver(info, ReminderContent(info, t.id, env), Recipient(info).value, env).None?
    ensures Execute(t, env, calendar) == (t.(status := Failed), if t.isRecurring then Keep else Remove)
  {
  }

  /** Stored information that does not parse fails the run and removes the job, keeping the trigger. */
  lemma UnparsableRun(t: TaskRecord, env: Environment, calendar: HolidayGetter)
    requires t.status == Pending || t.status == Running
    requires env.parseInfo(t.taskInfo).None?
    ensures Execute(t, env, calendar) == (t.(status := Failed), Remove)
  {
  }

  /** A recurring run with a rule stores the search from now, whatever the delivery did. */
  lemma RecurringRun(t: TaskRecord, env: Environment, calendar: HolidayGetter)
    requires t.status == Pending || t.status == Running
    requires t.isRecurring && env.parseInfo(t.taskInfo).Some? && env.parseInfo(t.taskInfo).value.cronConfig.Some?
    requires var info := env.parseInfo(t.taskInfo).value;
      Truthy(Recipient(info)) && Deliver(info, ReminderContent(info, t.id, env), Recipient(info).value, env).Some?
    ensures var r := NextCronRun(env.parseInfo(t.taskInfo).value.cronConfig.value, env.now, env.engine, calendar, env.lunar, 732);
      Execute(t, env, calendar).0 == t.(status := r.status, nextTriggerTime := r.trigger) &&
      (Execute(t, env, calendar).1 == Arm <==> r.status == Pending && r.trigger.Some?)
  {
  }

  /** The target chat wins over the triggering user; a group target @-mentions the triggering user. */
  lemma RecipientAndMention(info: TaskInfo, content: string)
    requires Truthy(Recipient(info))
    ensures Recipient(info) == (if Truthy(info.targetChatId) then info.targetChatId else info.triggeringUserId)
    ensures var w := WebhookArgs(info, content, Recipient(info).value);
      (GroupContext(info) ==> w.atTarget == info.triggeringUserId && w.mentionNickname == info.mentionUserNickname) &&
      (!GroupContext(info) ==> w.atTarget.None? && w.mentionNickname.None?) &&
      w.recipient == Recipient(info).value
  {
  }

  /** A mail is never handed over while the mail settings are incomplete. */
  lemma MailNeedsConfiguration(info: TaskInfo, content: string, recipient: string, env: Environment)
    requires info.webhookChannel.None? && info.emailChannel.Some? && !env.mailConfigured
    ensures Deliver(info, content, recipient, env) == Some(false)
  {
  }

  /**
   * `execute_task_by_id`: a missing row only loses its job; otherwise the row is marked
   * RUNNING, then committed as `Execute` says and its job armed, removed or kept.
   */
  method ExecuteTaskById(db: Database, sched: SchedulerService, id: string, env: Environment)
    requires db.Valid()
    modifies db, sched
    ensures db.Valid() && db.holidays == old(db.holidays) && sched.running == old(sched.running)
    ensures FindTask(old(db.tasks), id).None? ==> db.tasks == old(db.tasks) && sched.jobs == old(sched.jobs) - {id}
    ensures FindTask(old(db.tasks), id).Some? ==>
      var e := Execute(FindTask(old(db.tasks), id).value, env, CalendarOf(old(db.holidays)));
      db.tasks == ReplaceTask(old(db.tasks), e.0) && sched.jobs == ApplyAction(old(sched.jobs), e.0, e.1)
  {
    var found := FindTask(db.tasks, id);
    if found.None? {
      sched.RemoveJob(id);
      return;
    }
    var t := found.value;
    var calendar := CalendarOf(db.holidays);
    LookupReplace(db.tasks, t);
    if t.status != Pending && t.status != Running {
      if t.nextTriggerTime.None? {
        sched.RemoveJob(id);
      }
      ReplaceSame(db.tasks, t);
      return;
    }
    var row := t.(status := Running);
    db.SaveTask(row);
    var tasksAfterRunning := db.tasks;
    var info := env.parseInfo(t.taskInfo);
    if info.None? {
      row := row.(status := Failed);
      db.SaveTask(row);
      ReplaceTwice(old(db.tasks), t.(status := Running), row);
      sched.RemoveJob(id);
      return;
    }
    var content := ReminderContent(info.value, id, env);
    var recipient := Recipient(info.value);
    if !Truthy(recipient) {
      row := row.(status := Failed);
      db.SaveTask(row);
      ReplaceTwice(old(db.tasks), t.(status := Running), row);
      if !t.isRecurring {
        sched.RemoveJob(id);
      }
      return;
    }
    var delivered := Deliver(info.value, content, recipient.value, env);
    if delivered.None? {
      row := row.(status := Failed);
      db.SaveTask(row);
      ReplaceTwice(old(db.tasks), t.(status := Running), row);
      if !t.isRecurring {
        sched.RemoveJob(id);
      }
      return;
    }
    row := row.(status := if delivered.value then Completed else Failed);
    db.SaveTask(row);
    ReplaceTwice(old(db.tasks), t.(status := Running), row);
    var afterSend := row;
    row := FinishRun(db, sched, row, info.value, env, calendar);
    ReplaceTwice(old(db.tasks), afterSend, row);
  }

  /** The rescheduling step of a run whose delivery went through: the row is committed and its job updated. */
  method FinishRun(db: Database, sched: SchedulerService, done: TaskRecord, info: TaskInfo, env: Environment,
                   calendar: HolidayGetter) returns (row: TaskRecord)
    requires db.Valid()
    modifies db, sched
    ensures db.Valid() && db.holidays == old(db.holidays) && sched.running == old(sched.running)
    ensures row == Reschedule(done, info, env, calendar).0 && row.id == done.id
    ensures db.tasks == ReplaceTask(old(db.tasks), row)
    ensures sched.jobs == ApplyAction(old(sched.jobs), row, Reschedule(done, info, env, calendar).1)
  {
    if done.isRecurring && info.cronConfig.Some? {
      var r := GetNextCronRunTime(info.cronConfig.value, env.now, env.engine, calendar, env.lunar, DefaultMaxAttempts);
      row := done.(nextTriggerTime := r.trigger, status := r.status);
      db.SaveTask(row);
      if row.status == Pending && row.nextTriggerTime.Some? {
        sched.AddOrUpdateJob(row);
      } else {
        sched.RemoveJob(done.id);
      }
    } else {
      row := done.(nextTriggerTime := None);
      db.SaveTask(row);
      sched.RemoveJob(done.id);
    }
  }

  /** The row found by id is the one `ReplaceTask` overwrites. */
  lemma LookupReplace(tasks: seq<TaskRecord>, t: TaskRecord)
    requires FindTask(tasks, t.id) == Some(t)
    ensures IndexOfTask(tasks, t.id).Some? && tasks[IndexOfTask(tasks, t.id).value] == t
  {
  }

  /** Committing a row unchanged leaves the table as it is. */
  lemma ReplaceSame(tasks: seq<TaskRecord>, t: TaskRecord)
    requires FindTask(tasks, t.id) == Some(t)
    ensures ReplaceTask(tasks, t) == tasks
  {
  }

  /** Two commits of the same row: the later one is what remains. */
  lemma ReplaceTwice(tasks: seq<TaskRecord>, first: TaskRecord, second: TaskRecord)
    requires first.id == second.id
    ensures ReplaceTask(ReplaceTask(tasks, first), second) == ReplaceTask(tasks, second)
  {
    var i := IndexOfTask(tasks, first.id);
    if i.Some? {
      var mid := tasks[i.value := first];
      assert forall k :: 0 <= k < i.value ==> mid[k].id != second.id;
      assert mid[i.value].id == second.id;
      var j := IndexOfTask(mid, second.id);
      assert j.Some? && j.value <= i.value;
      assert j == i;
    } else {
      assert IndexOfTask(tasks, second.id).None?;
    }
  }
}
