/** TasksViewModel and the platform alarm service it drives. The view model
    keeps the enabled-reminder set and the map of debounced edit jobs as
    fields it reassigns; each method is one launched body or call, and is
    proved to perform the matching step of the Coordinator module. */
module ViewModel {
  import opened Platform
  import opened TaskStore
  import opened Repository
  import opened Coordinator

  /** AlarmManager together with the broadcast PendingIntents of the app,
      seen through their request codes. */
  class AlarmScheduler {
    var armed: map<Int32, Alarm>

    /** The alarms already registered when the process starts. */
    constructor (armed: map<Int32, Alarm>)
      ensures this.armed == armed
    {
      this.armed := armed;
    }

    /** `PendingIntent.getBroadcast(ctx, code, intent, FLAG_NO_CREATE)`
        returns a PendingIntent rather than null. */
    predicate HasPendingIntent(code: Int32)
      reads this
    {
      code in armed
    }

    /** `getBroadcast(..., FLAG_UPDATE_CURRENT)` followed by one of the
        `set…AndAllowWhileIdle` calls: the PendingIntent under `code` now
        carries `alarm`, replacing whatever it carried. */
    method Arm(code: Int32, alarm: Alarm)
      modifies this
      ensures armed == old(armed)[code := alarm]
    {
      armed := armed[code := alarm];
    }

    /** `am.cancel(pi)` and `pi.cancel()`. */
    method Cancel(code: Int32)
      requires HasPendingIntent(code)
      modifies this
      ensures armed == old(armed) - {code}
    {
      armed := armed - {code};
    }
  }

  /** The probe sees request codes only: two ids that agree modulo 2^32 get
      the same answer, whichever of them was armed. */
  lemma {:induction false} CollidingIdsShareProbe(scheduler: AlarmScheduler, a: int, b: int)
    requires (a - b) % TwoTo32 == 0
    ensures scheduler.HasPendingIntent(RequestCode(a)) == scheduler.HasPendingIntent(RequestCode(b))
  {
    var ca, cb := RequestCode(a), RequestCode(b);
    assert (ca - cb) % TwoTo32 == 0 by {
      assert ca - cb == (ca - a) + (a - b) + (b - cb);
    }
    assert ca == cb;
  }

  class TasksViewModel {
    const repo: TasksRepositoryImpl
    const scheduler: AlarmScheduler
    var enabledReminders: set<int>
    var editJobs: map<int, EditJob>

    ghost predicate Valid()
      reads repo.dao
    {
      repo.Valid()
    }

    /** The coordinator state this view model is in. */
    function State(): Coordinator.State
      reads this, repo.dao, scheduler
    {
      Coordinator.State(repo.dao.Snapshot(), scheduler.armed, enabledReminders, editJobs)
    }

    /** A new view model believes no reminder is enabled until the first
        reconciliation. */
    constructor (repo: TasksRepositoryImpl, scheduler: AlarmScheduler)
      requires repo.Valid()
      ensures this.repo == repo && this.scheduler == scheduler
      ensures Valid() && enabledReminders == {} && editJobs == map[]
    {
      this.repo := repo;
      this.scheduler := scheduler;
      enabledReminders := {};
      editJobs := map[];
    }

    /** `items.value`. */
    function Items(): seq<Task>
      reads repo.dao
      requires Valid()
    {
      repo.Observe()
    }

    method Add(now: LocalTime)
      requires Valid()
      modifies repo.dao
      ensures Valid() && State() == Coordinator.Add(old(State()), now)
    {
      repo.Add("", now);
    }

    method Remove(id: int)
      requires Valid()
      modifies this, scheduler, repo.dao
      ensures Valid() && State() == Coordinator.Remove(old(State()), id)
    {
      CancelReminder(id);
      repo.Remove(id);
    }

    method UpdateText(id: int, text: string)
      requires Valid()
      modifies repo.dao
      ensures Valid() && State() == Coordinator.UpdateText(old(State()), id, text)
    {
      repo.UpdateText(id, text);
    }

    method UpdateTime(id: int, time: LocalTime, clock: Clock)
      requires Valid()
      modifies this, scheduler, repo.dao
      ensures Valid() && State() == Coordinator.UpdateTime(old(State()), id, time, clock)
    {
      repo.UpdateTime(id, time);
      ghost var s1 := State();
      // The source tests the same membership twice in a row.
      if id in enabledReminders {
        if id in enabledReminders {
          var current := Find(Items(), id);
          if current.Some? {
            ScheduleReminder(current.value.(time := time), clock);
          }
        }
      }
      FindsStoredTask(s1.table, id);
    }

    method ToggleReminder(task: Task, clock: Clock)
      modifies this, scheduler
      ensures State() == Toggle(old(State()), task, clock)
    {
      if task.id in enabledReminders {
        CancelReminder(task.id);
      } else {
        ScheduleReminder(task, clock);
      }
    }

    method ScheduleReminder(task: Task, clock: Clock)
      modifies this, scheduler
      ensures State() == Schedule(old(State()), task, clock)
    {
      CancelReminder(task.id);
      var trigger := clock.today * DayMillis + MillisOfDay(task.time);
      if !(trigger > clock.nowMillis + GuardMillis) {
        trigger := trigger + DayMillis;
      }
      scheduler.Arm(RequestCode(task.id), Alarm(trigger, task));
      enabledReminders := enabledReminders + {task.id};
    }

    method CancelReminder(id: int)
      modifies this, scheduler
      ensures State() == Cancel(old(State()), id)
    {
      var code := RequestCode(id);
      if scheduler.HasPendingIntent(code) {
        scheduler.Cancel(code);
      }
      enabledReminders := enabledReminders - {id};
    }

    /** The `buildSet` loop of `refreshEnabledFromAlarms`: probe each id in
        turn; `None` when the probe of `ids[faultAt]` throws. */
    method ArmedIds(ids: seq<int>, faultAt: Option<nat>) returns (found: Option<set<int>>)
      ensures found.None? <==> Faults(ids, faultAt)
      ensures found.Some? ==>
                forall id :: id in found.value <==> id in ids && RequestCode(id) in scheduler.armed
    {
      var acc: set<int> := {};
      var i := 0;
      while i < |ids|
        invariant 0 <= i <= |ids|
        invariant !(faultAt.Some? && faultAt.value < i)
        invariant forall id :: id in acc <==> id in ids[..i] && RequestCode(id) in scheduler.armed
      {
        if faultAt == Some(i) {
          return None;
        }
        if scheduler.HasPendingIntent(RequestCode(ids[i])) {
          acc := acc + {ids[i]};
        }
        assert ids[..i + 1] == ids[..i] + [ids[i]];
        i := i + 1;
      }
      assert ids[..i] == ids;
      found := Some(acc);
    }

    /** `refreshEnabledFromAlarms(ids)`; `failed` says the pass threw. */
    method RefreshEnabledFromAlarms(ids: seq<int>, faultAt: Option<nat>) returns (failed: bool)
      modifies this
      ensures failed == Faults(ids, faultAt)
      ensures State() == Refresh(old(State()), ids, faultAt)
    {
      var found := ArmedIds(ids, faultAt);
      if found.None? {
        return true;
      }
      enabledReminders := found.value;
      assert forall id :: id in enabledReminders <==> id in ArmedAmong(scheduler.armed, ids);
      failed := false;
    }

    /** The collector launched in `init`, run on an emission of `items`:
        the failure of a pass is caught and only logged. */
    method OnItemsEmitted(faultAt: Option<nat>)
      requires Valid()
      modifies this
      ensures State() == OnItems(old(State()), faultAt)
    {
      var current := Items();
      var _ := RefreshEnabledFromAlarms(Ids(current), faultAt);
    }

    method OnEdit(id: int, text: string)
      modifies this
      ensures State() == Coordinator.OnEdit(old(State()), id, text)
    {
      if id in editJobs && editJobs[id].status == Pending {
        editJobs := editJobs[id := editJobs[id].(status := Cancelled)];
      }
      editJobs := editJobs[id := EditJob(text, Pending)];
    }

    /** The job launched by `onEdit`, once its delay has elapsed. */
    method FireEdit(id: int, clock: Clock)
      requires Valid()
      modifies this, scheduler, repo.dao
      ensures Valid() && State() == Coordinator.FireEdit(old(State()), id, clock)
    {
      if id in editJobs && editJobs[id].status == Pending {
        var text := editJobs[id].text;
        repo.UpdateText(id, text);
        editJobs := editJobs[id := EditJob(text, Completed)];
        if id in enabledReminders {
          var task := Find(Items(), id);
          if task.Some? {
            ScheduleReminder(task.value.(text := text), clock);
          }
        }
      }
    }

    method OnCleared()
      modifies this
      ensures State() == Cleared(old(State()))
    {
      var cancelled := map id | id in editJobs :: CancelJob(editJobs[id]);
      editJobs := cancelled;
    }
  }
}
