/** The reminder coordinator of TasksViewModel as state transitions. A
    State holds the tasks table, the alarms the platform holds (one per
    PendingIntent request code), the set of task ids the view model shows
    as having a reminder, and the pending debounced edits. Each function
    below is one launched body or call of the view model, taken as one
    atomic step; the view model class is proved to follow them. */
module Coordinator {
  import opened Platform
  import opened TaskStore
  import opened Repository

  // ---------------------------------------------------------------------
  // Next trigger

  const DayMillis: int := 86_400_000
  const GuardMillis: int := 5_000

  /** The two clock readings `scheduleReminder` takes: `LocalDateTime.now()`
      as local milliseconds since the epoch, and `LocalDate.now()` as an
      epoch day. They are read one after the other. */
  datatype Clock = Clock(nowMillis: int, today: int)

  /** The date was not read on a day before the instant `now` falls in. */
  predicate DateNotBehind(clock: Clock)
  {
    clock.nowMillis < (clock.today + 1) * DayMillis
  }

  /** The date was read on the same day as `now`. */
  predicate SameDay(clock: Clock)
  {
    clock.today * DayMillis <= clock.nowMillis < (clock.today + 1) * DayMillis
  }

  function MillisOfDay(t: LocalTime): (ms: int)
    ensures 0 <= ms < DayMillis
  {
    ((t.hour * 60 + t.minute) * 60 + t.second) * 1000
  }

  /** Today at `time`, moved on by exactly one day unless it is strictly
      more than five seconds after `now`. */
  function NextTrigger(time: LocalTime, clock: Clock): (r: int)
    ensures var todayAt := clock.today * DayMillis + MillisOfDay(time);
      (r == todayAt || r == todayAt + DayMillis) &&
      (r == todayAt <==> todayAt > clock.nowMillis + GuardMillis)
    ensures DateNotBehind(clock) ==> r > clock.nowMillis
    ensures SameDay(clock) ==> r <= clock.nowMillis + GuardMillis + DayMillis
  {
    var todayAt := clock.today * DayMillis + MillisOfDay(time);
    if todayAt > clock.nowMillis + GuardMillis then todayAt else todayAt + DayMillis
  }

  /** The two day-rollover cases at ten in the morning: 09:59 goes to
      tomorrow, 10:01 stays today. */
  lemma RolloverAtTen(day: int)
    ensures var clock := Clock(day * DayMillis + 10 * 3_600_000, day);
      NextTrigger(TimeOfDay(9, 59, 0), clock) == (day + 1) * DayMillis + (9 * 60 + 59) * 60_000 &&
      NextTrigger(TimeOfDay(10, 1, 0), clock) == day * DayMillis + (10 * 60 + 1) * 60_000
  {
  }

  /** A time of day that is now, or less than five seconds ahead, is armed
      for tomorrow rather than fired at once. */
  lemma GuardWindowDefers(time: LocalTime, clock: Clock)
    requires var todayAt := clock.today * DayMillis + MillisOfDay(time);
      clock.nowMillis <= todayAt <= clock.nowMillis + GuardMillis
    ensures NextTrigger(time, clock) >= clock.nowMillis + DayMillis
  {
  }

  // ---------------------------------------------------------------------
  // Request codes

  /** The PendingIntent request code of a task: `id.toInt()`. */
  function RequestCode(id: int): (code: Int32)
    ensures 0 <= id < 0x8000_0000 ==> code == id
    ensures (code - id) % TwoTo32 == 0
  {
    WrapInt32(id)
  }

  /** Ids that agree modulo 2^32 share one PendingIntent. */
  lemma SharedRequestCode()
    ensures RequestCode(1) == RequestCode(1 + TwoTo32)
  {
  }

  // ---------------------------------------------------------------------
  // State

  /** An armed alarm: when it fires and the extras it carries. */
  datatype Alarm = Alarm(triggerAtMillis: int, payload: Task)

  datatype JobStatus = Pending | Completed | Cancelled

  /** An entry of `editJobs`: the text the launched job captured, and
      whether the job is still waiting, has run, or was cancelled. */
  datatype EditJob = EditJob(text: string, status: JobStatus)

  datatype State = State(
    table: Table,
    alarms: map<Int32, Alarm>,
    enabled: set<int>,
    jobs: map<int, EditJob>)

  predicate Valid(s: State)
  {
    Consistent(s.table)
  }

  /** `items.value`, with the flow taken to be up to date. */
  function Items(s: State): seq<Task>
    requires Valid(s)
  {
    ObserveTasks(s.table)
  }

  /** `List.find { it.id == id }`: the first task with that id. */
  function Find(items: seq<Task>, id: int): (r: Option<Task>)
    ensures r.Some? ==> r.value in items && r.value.id == id
    ensures r.None? ==> forall i :: 0 <= i < |items| ==> items[i].id != id
    ensures r.Some? ==>
              exists i :: 0 <= i < |items| && items[i] == r.value && forall j :: 0 <= j < i ==> items[j].id != id
  {
    if |items| == 0 then None
    else if items[0].id == id then Some(items[0])
    else Find(items[1..], id)
  }

  /** The task stored under `id`, as `observe()` presents it. */
  function StoredTask(t: Table, id: int): Task
    requires StoredTimesValid(t) && id in t.rows
  {
    Task(id, t.rows[id].text, MinutesToLocalTime(t.rows[id].timeMinutes).value)
  }

  /** Looking an id up in the observed list finds exactly the stored row. */
  lemma FindsStoredTask(t: Table, id: int)
    requires StoredTimesValid(t)
    ensures Find(ObserveTasks(t), id) == if id in t.rows then Some(StoredTask(t, id)) else None
  {
    var items := ObserveTasks(t);
    if id in t.rows {
      ObserveListsEveryRow(t, id);
      var r := Find(items, id);
      assert r.Some?;
      var task := r.value;
      assert t.rows[id].timeMinutes == ToMinutes(task.time);
      assert task.time == MinutesToLocalTime(t.rows[id].timeMinutes).value;
    }
  }

  // ---------------------------------------------------------------------
  // Operations

  /** `cancelReminder(id)`: disarm the alarm under the id's request code if
      one exists, and drop the id from the enabled set. */
  function Cancel(s: State, id: int): (r: State)
    ensures RequestCode(id) !in r.alarms && id !in r.enabled
    ensures r.enabled == s.enabled - {id}
    ensures forall code :: code in r.alarms <==> code in s.alarms && code != RequestCode(id)
    ensures forall code :: code in r.alarms ==> r.alarms[code] == s.alarms[code]
    ensures RequestCode(id) !in s.alarms ==> r.alarms == s.alarms
    ensures r.table == s.table && r.jobs == s.jobs
  {
    var code := RequestCode(id);
    s.(alarms := if code in s.alarms then s.alarms - {code} else s.alarms,
       enabled := s.enabled - {id})
  }

  /** `scheduleReminder(task)`: cancel first, then arm one alarm carrying the
      task, then mark the id enabled. */
  function Schedule(s: State, task: Task, clock: Clock): (r: State)
    ensures RequestCode(task.id) in r.alarms
    ensures r.alarms[RequestCode(task.id)] == Alarm(NextTrigger(task.time, clock), task)
    ensures DateNotBehind(clock) ==> r.alarms[RequestCode(task.id)].triggerAtMillis > clock.nowMillis
    ensures forall code :: code != RequestCode(task.id) ==>
              (code in r.alarms <==> code in s.alarms) &&
              (code in r.alarms ==> r.alarms[code] == s.alarms[code])
    ensures r.enabled == s.enabled + {task.id}
    ensures r.table == s.table && r.jobs == s.jobs
  {
    var c := Cancel(s, task.id);
    c.(alarms := c.alarms[RequestCode(task.id) := Alarm(NextTrigger(task.time, clock), task)],
       enabled := c.enabled + {task.id})
  }

  /** `toggleReminder(task)`. */
  function Toggle(s: State, task: Task, clock: Clock): (r: State)
    ensures task.id in r.enabled <==> task.id !in s.enabled
    ensures RequestCode(task.id) in r.alarms <==> task.id !in s.enabled
    ensures task.id !in s.enabled ==>
              r.alarms[RequestCode(task.id)] == Alarm(NextTrigger(task.time, clock), task)
    ensures forall code :: code != RequestCode(task.id) ==>
              (code in r.alarms <==> code in s.alarms) &&
              (code in s.alarms ==> r.alarms[code] == s.alarms[code])
    ensures r.enabled - {task.id} == s.enabled - {task.id}
    ensures r.table == s.table && r.jobs == s.jobs
  {
    if task.id in s.enabled then Cancel(s, task.id) else Schedule(s, task, clock)
  }

  /** `updateTime(id, time)`: persist the new time, then re-arm with it if
      the id is enabled and still listed. */
  function UpdateTime(s: State, id: int, time: LocalTime, clock: Clock): (r: State)
    requires Valid(s)
    ensures Valid(r)
    ensures r.table == UpdateTimeWhere(s.table, id, ToMinutes(time))
    ensures id !in s.enabled ==> r.alarms == s.alarms && r.enabled == s.enabled
    ensures id in s.enabled && id !in s.table.rows ==> r.alarms == s.alarms && r.enabled == s.enabled
    ensures id in s.enabled && id in s.table.rows ==>
              r == Schedule(s.(table := r.table), Task(id, s.table.rows[id].text, time), clock)
    ensures r.jobs == s.jobs
  {
    var s1 := s.(table := UpdateTimeWhere(s.table, id, ToMinutes(time)));
    FindsStoredTask(s1.table, id);
    if id in s1.enabled then
      match Find(Items(s1), id)
      case Some(current) => Schedule(s1, current.(time := time), clock)
      case None => s1
    else s1
  }

  /** `updateText(id, text)`: a direct write with no re-arm. */
  function UpdateText(s: State, id: int, text: string): (r: State)
    requires Valid(s)
    ensures Valid(r)
    ensures r.table == UpdateTextWhere(s.table, id, text)
    ensures r.alarms == s.alarms && r.enabled == s.enabled && r.jobs == s.jobs
  {
    s.(table := UpdateTextWhere(s.table, id, text))
  }

  /** `remove(id)`: cancel the reminder, then delete the row. A pending
      edit for the id is left in place. */
  function Remove(s: State, id: int): (r: State)
    requires Valid(s)
    ensures Valid(r)
    ensures id !in r.table.rows && RequestCode(id) !in r.alarms && id !in r.enabled
    ensures r.table == DeleteWhere(s.table, id)
    ensures r.alarms == Cancel(s, id).alarms && r.enabled == s.enabled - {id}
    ensures r.jobs == s.jobs
  {
    var c := Cancel(s, id);
    c.(table := DeleteWhere(c.table, id))
  }

  /** `add()`: a new empty task at the current time of day. */
  function Add(s: State, now: LocalTime): (r: State)
    requires Valid(s)
    ensures Valid(r)
    ensures r.table == InsertRow(s.table, Row("", ToMinutes(now)))
    ensures r.alarms == s.alarms && r.enabled == s.enabled && r.jobs == s.jobs
  {
    s.(table := InsertRow(s.table, Row("", ToMinutes(now))))
  }

  /** `onEdit(id, text)`: cancel the id's job and launch a new one that has
      captured `text`. Nothing is written yet. */
  function OnEdit(s: State, id: int, text: string): (r: State)
    ensures r.jobs.Keys == s.jobs.Keys + {id}
    ensures r.jobs[id] == EditJob(text, Pending)
    ensures forall k :: k in s.jobs && k != id ==> r.jobs[k] == s.jobs[k]
    ensures r.table == s.table && r.alarms == s.alarms && r.enabled == s.enabled
  {
    s.(jobs := s.jobs[id := EditJob(text, Pending)])
  }

  /** The body of the job launched by `onEdit` once its delay has run out:
      write the captured text, then re-arm with it if the id is enabled and
      still listed. A job that is not pending does nothing. */
  function FireEdit(s: State, id: int, clock: Clock): (r: State)
    requires Valid(s)
    ensures Valid(r)
    ensures !(id in s.jobs && s.jobs[id].status == Pending) ==> r == s
    ensures id in s.jobs && s.jobs[id].status == Pending ==>
              r.table == UpdateTextWhere(s.table, id, s.jobs[id].text) &&
              r.jobs == s.jobs[id := EditJob(s.jobs[id].text, Completed)]
    ensures id !in s.enabled || id !in s.table.rows ==> r.alarms == s.alarms && r.enabled == s.enabled
    ensures id in s.jobs && s.jobs[id].status == Pending && id in s.enabled && id in s.table.rows ==>
              var s1 := s.(table := r.table, jobs := r.jobs);
              r == Schedule(s1, Task(id, s.jobs[id].text, StoredTask(s.table, id).time), clock)
  {
    if id in s.jobs && s.jobs[id].status == Pending then
      var text := s.jobs[id].text;
      var s1 := s.(table := UpdateTextWhere(s.table, id, text),
                   jobs := s.jobs[id := EditJob(text, Completed)]);
      FindsStoredTask(s1.table, id);
      if id in s1.enabled then
        match Find(Items(s1), id)
        case Some(task) => Schedule(s1, task.(text := text), clock)
        case None => s1
      else s1
    else s
  }

  function CancelJob(job: EditJob): EditJob
  {
    if job.status == Pending then job.(status := Cancelled) else job
  }

  /** `onCleared()`: cancel every job without running it. */
  function Cleared(s: State): (r: State)
    ensures r.jobs.Keys == s.jobs.Keys
    ensures forall id :: id in r.jobs ==> r.jobs[id].status != Pending && r.jobs[id].text == s.jobs[id].text
    ensures forall id :: id in s.jobs && s.jobs[id].status != Pending ==> r.jobs[id] == s.jobs[id]
    ensures r.table == s.table && r.alarms == s.alarms && r.enabled == s.enabled
  {
    s.(jobs := map id | id in s.jobs :: CancelJob(s.jobs[id]))
  }

  /** The probe for `ids[i]` throws when `faultAt == Some(i)`. */
  predicate Faults(ids: seq<int>, faultAt: Option<nat>)
  {
    faultAt.Some? && faultAt.value < |ids|
  }

  /** The listed ids that have a PendingIntent. */
  function ArmedAmong(alarms: map<Int32, Alarm>, ids: seq<int>): set<int>
  {
    set id | id in ids && RequestCode(id) in alarms
  }

  /** `refreshEnabledFromAlarms(ids)`: the enabled set becomes the listed
      ids that have a PendingIntent. If a probe throws, the exception
      leaves the pass before the assignment and the set stays as it was. */
  function Refresh(s: State, ids: seq<int>, faultAt: Option<nat>): (r: State)
    ensures Faults(ids, faultAt) ==> r == s
    ensures !Faults(ids, faultAt) ==>
              forall id :: id in r.enabled <==> id in ids && RequestCode(id) in s.alarms
    ensures r.table == s.table && r.alarms == s.alarms && r.jobs == s.jobs
  {
    if Faults(ids, faultAt) then s else s.(enabled := ArmedAmong(s.alarms, ids))
  }

  function Ids(items: seq<Task>): (ids: seq<int>)
    ensures |ids| == |items| && forall i :: 0 <= i < |ids| ==> ids[i] == items[i].id
  {
    seq(|items|, i requires 0 <= i < |items| => items[i].id)
  }

  /** The collector launched in `init`: each emission of `items` runs the
      reconciliation over the listed ids; a failure is caught and logged. */
  function OnItems(s: State, faultAt: Option<nat>): State
    requires Valid(s)
  {
    Refresh(s, Ids(Items(s)), faultAt)
  }

  // ---------------------------------------------------------------------
  // Properties

  /** Toggling twice restores the enabled set, and leaves an alarm armed for
      the id exactly when the id was enabled before. */
  lemma DoubleToggle(s: State, task: Task, c1: Clock, c2: Clock)
    ensures var r := Toggle(Toggle(s, task, c1), task, c2);
      r.enabled == s.enabled &&
      (RequestCode(task.id) in r.alarms <==> task.id in s.enabled)
  {
    var r := Toggle(Toggle(s, task, c1), task, c2);
    assert r.enabled - {task.id} == s.enabled - {task.id};
  }

  /** Every enabled id has an alarm under its request code. */
  predicate EnabledArmed(s: State)
  {
    forall id :: id in s.enabled ==> RequestCode(id) in s.alarms
  }

  /** No other enabled id shares `id`'s request code. */
  predicate Separated(s: State, id: int)
  {
    forall e :: e in s.enabled && e != id ==> RequestCode(e) != RequestCode(id)
  }

  lemma CancelKeepsArmed(s: State, id: int)
    requires EnabledArmed(s) && Separated(s, id)
    ensures EnabledArmed(Cancel(s, id))
  {
  }

  lemma ScheduleKeepsArmed(s: State, task: Task, clock: Clock)
    requires EnabledArmed(s)
    ensures EnabledArmed(Schedule(s, task, clock))
  {
  }

  /** Without the separation premise the invariant fails: two ids that
      share a request code are both enabled, and cancelling one disarms the
      other. */
  lemma CollisionDisarmsOther(a: Alarm)
    ensures var s := State(EmptyTable, map[RequestCode(1) := a], {1, 1 + TwoTo32}, map[]);
      EnabledArmed(s) && !EnabledArmed(Cancel(s, 1)) && 1 + TwoTo32 in Cancel(s, 1).enabled
  {
    var s := State(EmptyTable, map[RequestCode(1) := a], {1, 1 + TwoTo32}, map[]);
    SharedRequestCode();
    assert RequestCode(1 + TwoTo32) in s.alarms;
    assert 1 + TwoTo32 in Cancel(s, 1).enabled;
  }

  /** Every operation keeps "enabled implies armed", given that the id it
      works on shares no request code with another enabled id. */
  lemma OperationsKeepArmed(s: State, id: int, task: Task, time: LocalTime, clock: Clock)
    requires Valid(s) && EnabledArmed(s) && Separated(s, id) && Separated(s, task.id)
    ensures EnabledArmed(Toggle(s, task, clock))
    ensures EnabledArmed(UpdateTime(s, id, time, clock))
    ensures EnabledArmed(Remove(s, id))
    ensures EnabledArmed(FireEdit(s, id, clock))
  {
    CancelKeepsArmed(s, task.id);
    ScheduleKeepsArmed(s, task, clock);
    CancelKeepsArmed(s, id);
    var s1 := s.(table := UpdateTimeWhere(s.table, id, ToMinutes(time)));
    if id in s.enabled && id in s.table.rows {
      ScheduleKeepsArmed(s1, Task(id, s.table.rows[id].text, time), clock);
    }
    if id in s.jobs && s.jobs[id].status == Pending {
      var text := s.jobs[id].text;
      var s2 := s.(table := UpdateTextWhere(s.table, id, text),
                   jobs := s.jobs[id := EditJob(text, Completed)]);
      FindsStoredTask(s2.table, id);
      if id in s2.enabled && id in s2.table.rows {
        ScheduleKeepsArmed(s2, StoredTask(s2.table, id).(text := text), clock);
      }
    }
  }

  /** A completed reconciliation establishes the invariant whatever the
      enabled set was before. */
  lemma RefreshEstablishesArmed(s: State, ids: seq<int>, faultAt: Option<nat>)
    requires !Faults(ids, faultAt) || EnabledArmed(s)
    ensures EnabledArmed(Refresh(s, ids, faultAt))
  {
  }

  /** Reconciliation replaces rather than merges: the prior enabled set has
      no influence on the result. */
  lemma RefreshIgnoresPriorSet(s: State, e1: set<int>, e2: set<int>, ids: seq<int>)
    ensures Refresh(s.(enabled := e1), ids, None) == Refresh(s.(enabled := e2), ids, None)
  {
  }

  /** Believed {1, 2}, scheduler holds only 3: afterwards exactly {3}. */
  lemma RefreshExample(s: State, a: Alarm)
    requires s.enabled == {1, 2} && s.alarms == map[RequestCode(3) := a]
    ensures Refresh(s, [1, 2, 3], None).enabled == {3}
  {
    var r := Refresh(s, [1, 2, 3], None);
    assert 3 in r.enabled;
    assert 1 !in r.enabled && 2 !in r.enabled;
  }

  /** A reconciliation over the observed list enables exactly the stored
      tasks that have a PendingIntent. */
  lemma {:induction false} OnItemsMatchesStore(s: State, faultAt: Option<nat>)
    requires Valid(s)
    requires faultAt.None? || faultAt.value >= |s.table.rows|
    ensures forall id :: id in OnItems(s, faultAt).enabled <==>
              id in s.table.rows && RequestCode(id) in s.alarms
  {
    var items := Items(s);
    var ids := Ids(items);
    forall id
      ensures id in ids <==> id in s.table.rows
    {
      if id in s.table.rows {
        ObserveListsEveryRow(s.table, id);
        var i :| 0 <= i < |items| && items[i].id == id;
        assert ids[i] == id;
      }
      if id in ids {
        var i :| 0 <= i < |ids| && ids[i] == id;
        assert items[i].id == id;
      }
    }
  }

  /** `onEdit` applied to each text in turn. */
  function OnEdits(s: State, id: int, texts: seq<string>): State
    decreases |texts|
  {
    if |texts| == 0 then s else OnEdits(OnEdit(s, id, texts[0]), id, texts[1..])
  }

  /** A burst of edits writes nothing and leaves one pending job, holding
      the last text. */
  lemma {:induction false} EditsCoalesce(s: State, id: int, texts: seq<string>)
    requires |texts| > 0
    ensures var r := OnEdits(s, id, texts);
      r.table == s.table && r.alarms == s.alarms && r.enabled == s.enabled &&
      r.jobs == s.jobs[id := EditJob(texts[|texts| - 1], Pending)]
    decreases |texts|
  {
    if |texts| > 1 {
      var s1 := OnEdit(s, id, texts[0]);
      EditsCoalesce(s1, id, texts[1..]);
      assert s1.jobs[id := EditJob(texts[|texts| - 1], Pending)] == s.jobs[id := EditJob(texts[|texts| - 1], Pending)];
    }
  }

  /** When the burst's job fires, the one write stores the last text. */
  lemma BurstWritesLastText(s: State, id: int, texts: seq<string>, clock: Clock)
    requires Valid(s) && |texts| > 0
    ensures Valid(OnEdits(s, id, texts))
    ensures FireEdit(OnEdits(s, id, texts), id, clock).table ==
            UpdateTextWhere(s.table, id, texts[|texts| - 1])
  {
    EditsCoalesce(s, id, texts);
  }

  /** `remove` leaves the pending job in place, but when it fires the write
      hits no row and nothing is armed: the deleted task stays deleted. */
  lemma EditAfterRemoveIsInert(s: State, id: int, text: string, clock: Clock)
    requires Valid(s)
    ensures var removed := Remove(OnEdit(s, id, text), id);
      removed.jobs[id] == EditJob(text, Pending) &&
      var r := FireEdit(removed, id, clock);
      r.table == DeleteWhere(s.table, id) && r.alarms == removed.alarms &&
      id !in r.enabled && RequestCode(id) !in r.alarms
  {
  }

  /** After `onCleared`, no job writes anything. */
  lemma ClearedSilencesEdits(s: State, id: int, clock: Clock)
    requires Valid(s)
    ensures FireEdit(Cleared(s), id, clock) == Cleared(s)
  {
  }
}
