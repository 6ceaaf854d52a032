# DayPlan reminder coordinator, modelled in Dafny

DayPlan is a small Android note app: each task has a text and a time of day. A task can have a reminder, which is an alarm that fires at the next occurrence of that time. This project models the part of the app with real logic:

- the reminder coordinator in `TasksViewModel`:
  - toggling, scheduling and cancelling reminders;
  - re-arming after a time edit or a debounced text edit;
  - removal;
  - the reconciliation pass that rebuilds the enabled set from the alarms the platform still holds;
- the next-trigger computation;
- the integer helpers of the time picker: quarter-hour rounding, `HH:MM` labels, and the hour/minute split at drag end;
- the repository's minute-of-day conversions;
- the `tasks` table as the DAO's SQL defines it.

Layout, one module per file:

- `platform.dfy` (`Platform`) holds the JVM pieces the app relies on:
  - Kotlin `Int` wrap-around and truncating `/` and `%`;
  - `Long.toInt()`;
  - `java.time.LocalTime` as hour, minute and second;
  - `LocalTime.of`, which fails (`None`) on out-of-range fields.
- `time_picker.dfy` (`TimePicker`) covers `roundToQuarterHour`, `toHhMm` and the drag-end split.
- `task_dao.dfy` (`TaskStore`) models the table. A `Table` maps ids to rows and carries SQLite's AUTOINCREMENT counter, so an id is never handed out twice. It has pure functions for the five queries. The class `TaskDao` holds the table in fields that its methods reassign.
- `tasks_repository.dfy` (`Repository`) holds `toMinutes`, `minutesToLocalTime`, the `observe` mapping and the class `TasksRepositoryImpl`. The repository keeps an invariant: every stored minute lies in [0, 1439], so reading the table back never throws.
- `coordinator.dfy` (`Coordinator`) is the coordinator as pure state transitions over a `State`. A `State` holds four things: the table; the alarms, keyed by PendingIntent request code; the enabled-id set; and the `editJobs` map. Every coroutine body counts as one atomic step. The properties of the coordinator are proved here.
- `tasks_view_model.dfy` (`ViewModel`) has two classes:
  - `AlarmScheduler` stands for AlarmManager and PendingIntent.
  - `TasksViewModel` has `enabledReminders` and `editJobs` fields. Each of its methods is proved to take exactly the matching `Coordinator` step: `State() == Step(old(State()), …)`.

Inputs from outside the app become parameters:

- The two clock readings of `scheduleReminder` become a `Clock`: `LocalDateTime.now()` as local milliseconds and `LocalDate.now()` as an epoch day. The code reads them one after the other, so the model does not assume they agree. The trigger is shown to be after `now` whenever the date reading is not from an earlier day.
- `LocalTime.now()` for `add()` is a parameter.
- The point where a probe of the reconciliation throws is a parameter, `faultAt`.
- Debounce expiry is an explicit event, `FireEdit`.

Behaviour of the code that the model follows, where a reader might expect otherwise:

- **A failed reconciliation keeps the old set.** When the reconciliation pass throws, the exception leaves `buildSet` before `_enabledReminders` is assigned. The old set stays; it is not emptied (`Coordinator.Refresh`).
- **The pass runs on every emission.** It runs each time `items` emits, not only once at start-up (`Coordinator.OnItemsMatchesStore`).
- **`remove` keeps pending edits.** It does not cancel a pending edit job for the id. When that job fires, it issues an `UPDATE` for a row that no longer exists. AUTOINCREMENT ids are never reused, so the write changes nothing, and since the id is no longer enabled nothing is armed (`Coordinator.EditAfterRemoveIsInert`).
- **Finished jobs stay in `editJobs`.** A job that has run is never removed from the map. The model keeps it with status `Completed`.
- **Request codes are 32 bits.** Alarms are keyed by `id.toInt()`, so ids that agree modulo 2^32 share one PendingIntent. Cancelling one of them disarms the other while it stays in the enabled set (`Coordinator.CollisionDisarmsOther`). The invariant "every enabled id has an alarm" is therefore proved only for operations whose id shares no request code with another enabled id.
- **Permissions.** The notification permission is requested in the UI (TasksScreen.kt), not in the view model. `scheduleReminder` does check whether exact alarms may be scheduled, but the answer only picks the kind of alarm; either way the same PendingIntent is armed, so the model has a single `Arm` (see "## Left out").

## Model

| member | source | states |
|---|---|---|
| `TimePicker.RoundToQuarterHour` | app/src/main/java/com/hdy/plan/ui/TimePicker.kt:183-188 | for every Int input, including ones where `this + 7` overflows, the result lies in [0, 1439] |
| `TimePicker.RoundsToNearestQuarter` | app/src/main/java/com/hdy/plan/ui/TimePicker.kt:185 | for inputs in [0, 1432] the result is a multiple of 15 within 7 minutes of the input (half-up to the nearest quarter) |
| `TimePicker.LateMinutesWrapToMidnight` | app/src/main/java/com/hdy/plan/ui/TimePicker.kt:185-186 | inputs 1433 to 1447, 1440 among them, give 0 rather than being clamped to 1439 |
| `TimePicker.RoundedIsQuarter` | app/src/main/java/com/hdy/plan/ui/TimePicker.kt:183-188 | for inputs in [0, 1439] the result is a multiple of 15 |
| `TimePicker.RoundIdempotent` | app/src/main/java/com/hdy/plan/ui/TimePicker.kt:183-188 | for inputs in [0, 1439], rounding the rounded value returns it unchanged |
| `TimePicker.RoundOutsideTheDay` | app/src/main/java/com/hdy/plan/ui/TimePicker.kt:185-187 | inputs from 1448 up to Int.MAX - 7 are clamped to 1439; the last seven Int values overflow to midnight; negative inputs give 0 |
| `TimePicker.InitialOnQuarter` | app/src/main/java/com/hdy/plan/ui/TimePicker.kt:42-44 | the picker's starting value is a quarter hour in [0, 1439], within 7 minutes of the initial time unless that is after 23:52 |
| `TimePicker.HhMmLayout` | app/src/main/java/com/hdy/plan/ui/TimePicker.kt:190-194 | (the contract of `TimePicker.ToHhMm`, which models `Int.toHhMm()`) for m in [0, 1439] the label is five characters: two digits of m/60, ':', two digits of m%60 |
| `TimePicker.HhMmInjective` | app/src/main/java/com/hdy/plan/ui/TimePicker.kt:190-194 | distinct minutes of the day get distinct labels |
| `TimePicker.CommitDrag` | app/src/main/java/com/hdy/plan/ui/TimePicker.kt:83 | `LocalTime.of(m / 60, m % 60)` succeeds exactly for m in [0, 1439], and then hour*60 + minute recombines to m |
| `TimePicker.DragEndOnQuarter` | app/src/main/java/com/hdy/plan/ui/TimePicker.kt:73-83 | for any raw dial value in [0, 1440], the committed time exists, recombines to the rounded minutes and has a minute on a quarter |
| `TaskStore.SortedRows` | app/src/main/java/com/hdy/plan/data/TaskDao.kt:10-11 | the listing has one entry per row, strictly ascending by id, each entry equal to its stored row |
| `TaskStore.SortedRowsComplete` | app/src/main/java/com/hdy/plan/data/TaskDao.kt:10-11 | every stored id appears in the listing |
| `TaskStore.SelectAll` | app/src/main/java/com/hdy/plan/data/TaskDao.kt:10-11 | the query returns every stored row exactly once, with its stored columns, strictly ascending by id |
| `TaskStore.TaskDao.ObserveAll` | app/src/main/java/com/hdy/plan/data/TaskDao.kt:10-11 | on the live table: one entry per stored row, ascending by id, each equal to the row, and no row missing |
| `TaskStore.NextId` | app/src/main/java/com/hdy/plan/data/TaskDao.kt:13-14 | the id an insert gets is positive, absent from the table and greater than every present id; none is left only when the counter is at Long.MAX |
| `TaskStore.InsertRow` | app/src/main/java/com/hdy/plan/data/TaskDao.kt:13-14 | insert adds exactly one row under the new id and keeps every other row; the table stays well formed |
| `TaskStore.DeleteWhere` | app/src/main/java/com/hdy/plan/data/TaskDao.kt:16-17 | delete removes only that id's row (nothing when absent) and leaves the other rows unchanged |
| `TaskStore.UpdateTextWhere` | app/src/main/java/com/hdy/plan/data/TaskDao.kt:19-20 | only that row's text changes; its minutes, the other rows and the key set are unchanged |
| `TaskStore.UpdateTimeWhere` | app/src/main/java/com/hdy/plan/data/TaskDao.kt:22-23 | only that row's minutes change; its text, the other rows and the key set are unchanged |
| `TaskStore.DeletedIdNotReused` | app/src/main/java/com/hdy/plan/data/TaskEntity.kt:8 | after a delete, the next insert never brings the deleted id back |
| `TaskStore.TaskDao.Insert` | app/src/main/java/com/hdy/plan/data/TaskDao.kt:13-14 | returns the fresh id and updates the table as `InsertRow` |
| `TaskStore.TaskDao.Delete` | app/src/main/java/com/hdy/plan/data/TaskDao.kt:16-17 | the table becomes `DeleteWhere` of the old table |
| `TaskStore.TaskDao.UpdateText` | app/src/main/java/com/hdy/plan/data/TaskDao.kt:19-20 | the table becomes `UpdateTextWhere` of the old table |
| `TaskStore.TaskDao.UpdateTime` | app/src/main/java/com/hdy/plan/data/TaskDao.kt:22-23 | the table becomes `UpdateTimeWhere` of the old table |
| `Repository.ToMinutes` | app/src/main/java/com/hdy/plan/data/TasksRepositoryImpl.kt:9 | the result lies in [0, 1439], and its quotient and remainder by 60 are the hour and minute |
| `Repository.MinutesToLocalTime` | app/src/main/java/com/hdy/plan/data/TasksRepositoryImpl.kt:10 | it succeeds exactly for [0, 1439], and then `toMinutes` of the result is the input |
| `Repository.TimeRoundTrip` | app/src/main/java/com/hdy/plan/data/TasksRepositoryImpl.kt:9-10 | storing a time and reading it back gives its hour and minute with zero seconds |
| `Repository.ObserveTasks` | app/src/main/java/com/hdy/plan/data/TasksRepositoryImpl.kt:15-18 | one task per row, in the DAO's order, with the same id and text and a time whose minutes are the stored minutes |
| `Repository.TasksRepositoryImpl.Observe` | app/src/main/java/com/hdy/plan/data/TasksRepositoryImpl.kt:15-18 | on the live table: one task per stored row, ascending by id, with the stored text, a time whose minutes are the stored minutes and zero seconds, and no row missing |
| `Repository.ObserveListsEveryRow` | app/src/main/java/com/hdy/plan/data/TasksRepositoryImpl.kt:15-18 | every stored id appears among the observed tasks |
| `Repository.AddKeepsConsistent` | app/src/main/java/com/hdy/plan/data/TasksRepositoryImpl.kt:20-22 | the new row holds the given text and `time.toMinutes()`, and stored minutes stay within the day |
| `Repository.TasksRepositoryImpl.Add` | app/src/main/java/com/hdy/plan/data/TasksRepositoryImpl.kt:20-22 | inserts one row with the text and `time.toMinutes()`; the invariant is kept |
| `Repository.TasksRepositoryImpl.Remove` | app/src/main/java/com/hdy/plan/data/TasksRepositoryImpl.kt:24-26 | deletes that id's row only |
| `Repository.TasksRepositoryImpl.UpdateText` | app/src/main/java/com/hdy/plan/data/TasksRepositoryImpl.kt:28-30 | updates that id's text only |
| `Repository.TasksRepositoryImpl.UpdateTime` | app/src/main/java/com/hdy/plan/data/TasksRepositoryImpl.kt:32-34 | stores `time.toMinutes()` for that id only; the invariant is kept |
| `Coordinator.NextTrigger` | app/src/main/java/com/hdy/plan/ui/TasksViewModel.kt:79-83 | the trigger is today at the time, or that plus exactly one day, and it is today exactly when strictly after now + 5 s; it is always after now, and within a day and 5 s of it when both readings are on the same day |
| `Coordinator.RolloverAtTen` | app/src/main/java/com/hdy/plan/ui/TasksViewModel.kt:79-83 | at 10:00 a 09:59 reminder goes to tomorrow and a 10:01 one stays today |
| `Coordinator.GuardWindowDefers` | app/src/main/java/com/hdy/plan/ui/TasksViewModel.kt:81-82 | a time of day that is now or up to 5 s ahead is armed a day later, not fired at once |
| `Coordinator.RequestCode` | app/src/main/java/com/hdy/plan/ui/TasksViewModel.kt:98 | the request code agrees with the id modulo 2^32, and equals it for ids below 2^31 |
| `Coordinator.SharedRequestCode` | app/src/main/java/com/hdy/plan/ui/TasksViewModel.kt:129 | ids 1 and 2^32 + 1 share a request code |
| `Coordinator.Find` | app/src/main/java/com/hdy/plan/ui/TasksViewModel.kt:60 | a found task is the first listed task with that id; no task is found only when no listed task has the id |
| `Coordinator.FindsStoredTask` | app/src/main/java/com/hdy/plan/ui/TasksViewModel.kt:171 | looking an id up in the observed items yields exactly the stored row, or nothing when the id is not stored |
| `Coordinator.Cancel` | app/src/main/java/com/hdy/plan/ui/TasksViewModel.kt:124-138 | the id leaves the enabled set and its request code is disarmed; other alarms and ids are untouched; nothing happens to the alarms when none was armed |
| `Coordinator.Schedule` | app/src/main/java/com/hdy/plan/ui/TasksViewModel.kt:75-122 | afterwards exactly one alarm sits under the task's request code, carrying the task and `NextTrigger`; the id is enabled; other alarms and ids are untouched |
| `Coordinator.Toggle` | app/src/main/java/com/hdy/plan/ui/TasksViewModel.kt:67-73 | membership of the id flips; an alarm sits under its request code exactly when it was disabled, and then it carries the task and `NextTrigger`; alarms under other request codes and the other ids' membership are unchanged |
| `Coordinator.UpdateTime` | app/src/main/java/com/hdy/plan/ui/TasksViewModel.kt:54-65 | the new minutes are always persisted; a disabled (or deleted) id arms nothing; an enabled stored id is rescheduled with its stored text and the new time |
| `Coordinator.UpdateText` | app/src/main/java/com/hdy/plan/ui/TasksViewModel.kt:53 | a direct text write that touches no alarm or enabled id |
| `Coordinator.Remove` | app/src/main/java/com/hdy/plan/ui/TasksViewModel.kt:48-52 | the row is deleted, the id is disabled and its alarm disarmed; pending edit jobs are kept |
| `Coordinator.Add` | app/src/main/java/com/hdy/plan/ui/TasksViewModel.kt:47 | inserts an empty task at the current minute of the day; reminders are untouched |
| `Coordinator.OnEdit` | app/src/main/java/com/hdy/plan/ui/TasksViewModel.kt:165-167 | the id gets one pending job holding the new text, replacing the old one; nothing is written or armed |
| `Coordinator.FireEdit` | app/src/main/java/com/hdy/plan/ui/TasksViewModel.kt:168-174 | a pending job writes its captured text and becomes completed; the id is re-armed with that text only when enabled and still stored; a job that is not pending does nothing |
| `Coordinator.Cleared` | app/src/main/java/com/hdy/plan/ui/TasksViewModel.kt:178-181 | no job is left pending, each keeps its text, jobs that had already finished or been cancelled are unchanged; the table, alarms and enabled set are unchanged |
| `Coordinator.Refresh` | app/src/main/java/com/hdy/plan/ui/TasksViewModel.kt:140-154 | without a failure the enabled set becomes exactly the listed ids with an armed request code; after a failure the state is unchanged |
| `Coordinator.Ids` | app/src/main/java/com/hdy/plan/ui/TasksViewModel.kt:39 | the id list has one id per item, in order |
| `Coordinator.DoubleToggle` | app/src/main/java/com/hdy/plan/ui/TasksViewModel.kt:67-73 | two toggles restore the enabled set, and leave an alarm armed for the id exactly when it was enabled before |
| `Coordinator.CancelKeepsArmed` | app/src/main/java/com/hdy/plan/ui/TasksViewModel.kt:124-138 | cancelling keeps "every enabled id has an alarm" when no other enabled id shares the request code |
| `Coordinator.ScheduleKeepsArmed` | app/src/main/java/com/hdy/plan/ui/TasksViewModel.kt:75-122 | scheduling keeps "every enabled id has an alarm" |
| `Coordinator.CollisionDisarmsOther` | app/src/main/java/com/hdy/plan/ui/TasksViewModel.kt:129 | with ids 1 and 2^32 + 1 both enabled, cancelling 1 leaves the other enabled without an alarm |
| `Coordinator.OperationsKeepArmed` | app/src/main/java/com/hdy/plan/ui/TasksViewModel.kt:48-73 | toggle, time edit, remove and a fired edit all keep "every enabled id has an alarm", given no request-code collision with the id |
| `Coordinator.RefreshEstablishesArmed` | app/src/main/java/com/hdy/plan/ui/TasksViewModel.kt:140-154 | a completed reconciliation establishes "every enabled id has an alarm" from any state |
| `Coordinator.RefreshIgnoresPriorSet` | app/src/main/java/com/hdy/plan/ui/TasksViewModel.kt:153 | the result does not depend on the enabled set before the pass (replace, not merge) |
| `Coordinator.RefreshExample` | app/src/main/java/com/hdy/plan/ui/TasksViewModel.kt:140-154 | believed {1, 2} with only 3 armed gives exactly {3} |
| `Coordinator.OnItemsMatchesStore` | app/src/main/java/com/hdy/plan/ui/TasksViewModel.kt:35-45 | (the contract of `Coordinator.OnItems`, the `init` collector) when no probe throws, the pass enables exactly the stored ids whose request code is armed; a throwing probe is caught and leaves the state unchanged (`Coordinator.Refresh`) |
| `Coordinator.EditsCoalesce` | app/src/main/java/com/hdy/plan/ui/TasksViewModel.kt:165-167 | a burst of edits writes and arms nothing and leaves one pending job for the id, holding the last text |
| `Coordinator.BurstWritesLastText` | app/src/main/java/com/hdy/plan/ui/TasksViewModel.kt:165-174 | when the burst's job fires, the table receives the last text of the burst |
| `Coordinator.EditAfterRemoveIsInert` | app/src/main/java/com/hdy/plan/ui/TasksViewModel.kt:48-52 | an edit pending at removal survives, but when it fires the row stays deleted and no alarm is armed for the id |
| `Coordinator.ClearedSilencesEdits` | app/src/main/java/com/hdy/plan/ui/TasksViewModel.kt:178-181 | after `onCleared`, firing any id's job changes nothing |
| `ViewModel.AlarmScheduler.Arm` | app/src/main/java/com/hdy/plan/ui/TasksViewModel.kt:96-119 | the PendingIntent under the code now carries the new alarm, replacing any earlier one |
| `ViewModel.AlarmScheduler.Cancel` | app/src/main/java/com/hdy/plan/ui/TasksViewModel.kt:133-136 | the alarm under the code is gone, the others stay |
| `ViewModel.CollidingIdsShareProbe` | app/src/main/java/com/hdy/plan/ui/TasksViewModel.kt:144-150 | (the contract of `ViewModel.AlarmScheduler.HasPendingIntent`, the `FLAG_NO_CREATE` probe) the probe sees only `id.toInt()`, so two ids that agree modulo 2^32 always get the same answer |
| `ViewModel.TasksViewModel.constructor` | app/src/main/java/com/hdy/plan/ui/TasksViewModel.kt:27-33 | a new view model has no enabled reminders and no edit jobs |
| `ViewModel.TasksViewModel.Add` | app/src/main/java/com/hdy/plan/ui/TasksViewModel.kt:47 | performs `Coordinator.Add` |
| `ViewModel.TasksViewModel.Remove` | app/src/main/java/com/hdy/plan/ui/TasksViewModel.kt:48-52 | performs `Coordinator.Remove`: cancel first, then delete |
| `ViewModel.TasksViewModel.UpdateText` | app/src/main/java/com/hdy/plan/ui/TasksViewModel.kt:53 | performs `Coordinator.UpdateText` |
| `ViewModel.TasksViewModel.UpdateTime` | app/src/main/java/com/hdy/plan/ui/TasksViewModel.kt:54-65 | performs `Coordinator.UpdateTime` |
| `ViewModel.TasksViewModel.ToggleReminder` | app/src/main/java/com/hdy/plan/ui/TasksViewModel.kt:67-73 | performs `Coordinator.Toggle` |
| `ViewModel.TasksViewModel.ScheduleReminder` | app/src/main/java/com/hdy/plan/ui/TasksViewModel.kt:75-122 | performs `Coordinator.Schedule`; the trigger variable, bumped at most once, equals `NextTrigger` |
| `ViewModel.TasksViewModel.CancelReminder` | app/src/main/java/com/hdy/plan/ui/TasksViewModel.kt:124-138 | performs `Coordinator.Cancel` and cancels only when a PendingIntent exists |
| `ViewModel.TasksViewModel.ArmedIds` | app/src/main/java/com/hdy/plan/ui/TasksViewModel.kt:142-152 | the loop yields exactly the listed ids that have a PendingIntent, or fails exactly when a probe throws |
| `ViewModel.TasksViewModel.RefreshEnabledFromAlarms` | app/src/main/java/com/hdy/plan/ui/TasksViewModel.kt:140-154 | performs `Coordinator.Refresh` and reports whether the pass threw |
| `ViewModel.TasksViewModel.OnItemsEmitted` | app/src/main/java/com/hdy/plan/ui/TasksViewModel.kt:37-43 | performs `Coordinator.OnItems`; a failure is swallowed |
| `ViewModel.TasksViewModel.OnEdit` | app/src/main/java/com/hdy/plan/ui/TasksViewModel.kt:165-167 | performs `Coordinator.OnEdit` |
| `ViewModel.TasksViewModel.FireEdit` | app/src/main/java/com/hdy/plan/ui/TasksViewModel.kt:168-174 | performs `Coordinator.FireEdit` |
| `ViewModel.TasksViewModel.OnCleared` | app/src/main/java/com/hdy/plan/ui/TasksViewModel.kt:178-181 | performs `Coordinator.Cleared` |

## Left out

- `TaskReminderReceiver` (TasksViewModel.kt:183-231) is not modelled; it only builds an Android notification, which is platform output.
- Alarm kinds are not distinguished. The exact-versus-inexact choice, the API-level branch and the SecurityException fallback (TasksViewModel.kt:103-119) all arm the same PendingIntent, so the model has a single `Arm`.
- Alarm delivery is not modelled. The scheduler's state changes only through arm and cancel.
- Time zones are not modelled. Times are local milliseconds, and the conversion to epoch milliseconds through the system zone (TasksViewModel.kt:84-87) is left out. The clock is read to whole milliseconds, and LocalTime's nanoseconds are dropped.
- The payload's time is kept as a `LocalTime` value; its `toString()` rendering is not modelled.
- Coroutines and StateFlow are not modelled:
  - Each launched body is one atomic step.
  - `items.value` is taken to be up to date with the table. The `stateIn` sharing, which can lag or still hold its initial empty list, is not modelled.
  - The 500 ms debounce delay is not modelled; expiry of a job is the explicit `FireEdit` event.
- An insert that fails because the id counter is exhausted throws inside a launched coroutine. The model keeps the state unchanged and does not model the crash.
- The angle-to-minute drag geometry and the clock-face drawing (TimePicker.kt:56-80 and the drawing code) use floating point and are not modelled. The dial's raw value is taken to lie in [0, 1440].
- TasksScreen.kt, MainActivity.kt, FabWithLongClick.kt, the theme files and AppGraph.kt are UI, theming or dependency wiring, and are not part of this model. The permission request that gates toggling lives in TasksScreen.kt.
- Coordinator.OperationsKeepArmed: proved only when the operated id shares no request code with another enabled id, because with 32-bit request codes the invariant does not hold in general (see `CollisionDisarmsOther`).
