/** TasksRepositoryImpl: converts between the table's minute-of-day column
    and LocalTime, and forwards each request to the DAO. */
module Repository {
  import opened Platform
  import opened TaskStore

  /** domain.Task */
  datatype Task = Task(id: int, text: string, time: LocalTime)

  /** `LocalTime.toMinutes()`: hour and minute as a minute of the day; the
      seconds are dropped. */
  function ToMinutes(t: LocalTime): (m: int)
    ensures 0 <= m < MinutesPerDay
    ensures m / 60 == t.hour && m % 60 == t.minute
  {
    t.hour * 60 + t.minute
  }

  /** `minutesToLocalTime(mins)`: `LocalTime.of(mins / 60, mins % 60)`,
      `None` where `LocalTime.of` would throw. */
  function MinutesToLocalTime(mins: int): (r: Option<LocalTime>)
    ensures r.Some? <==> 0 <= mins < MinutesPerDay
    ensures r.Some? ==> ToMinutes(r.value) == mins && r.value.second == 0
  {
    LocalTimeOf(Quot(mins, 60), Rem(mins, 60))
  }

  /** Storing a time and reading it back gives the same hour and minute,
      with the seconds cleared. */
  lemma TimeRoundTrip(t: LocalTime)
    ensures MinutesToLocalTime(ToMinutes(t)) == Some(TimeOfDay(t.hour, t.minute, 0))
  {
  }

  /** Every stored minute is a minute of the day: the repository only ever
      writes `toMinutes()` values, so reading the table back cannot throw. */
  predicate StoredTimesValid(t: Table)
  {
    forall id :: id in t.rows ==> 0 <= t.rows[id].timeMinutes < MinutesPerDay
  }

  predicate Consistent(t: Table)
  {
    Wf(t) && StoredTimesValid(t)
  }

  function ToTask(e: TaskEntity): Task
    requires 0 <= e.timeMinutes < MinutesPerDay
  {
    Task(e.id, e.text, MinutesToLocalTime(e.timeMinutes).value)
  }

  /** `observe()`: the DAO's listing mapped row by row to tasks. */
  function ObserveTasks(t: Table): (ts: seq<Task>)
    requires StoredTimesValid(t)
    ensures |ts| == |t.rows|
    ensures forall i :: 0 <= i < |ts| ==>
              ts[i].id == SelectAll(t)[i].id && ts[i].text == SelectAll(t)[i].text &&
              ToMinutes(ts[i].time) == SelectAll(t)[i].timeMinutes && ts[i].time.second == 0
    ensures forall i, j :: 0 <= i < j < |ts| ==> ts[i].id < ts[j].id
    ensures forall i :: 0 <= i < |ts| ==>
              ts[i].id in t.rows && t.rows[ts[i].id].text == ts[i].text &&
              t.rows[ts[i].id].timeMinutes == ToMinutes(ts[i].time)
  {
    var rows := SelectAll(t);
    seq(|rows|, i requires 0 <= i < |rows| => ToTask(rows[i]))
  }

  /** Every stored row shows up as a task. */
  lemma {:induction false} ObserveListsEveryRow(t: Table, id: int)
    requires StoredTimesValid(t) && id in t.rows
    ensures exists i :: 0 <= i < |ObserveTasks(t)| && ObserveTasks(t)[i].id == id
  {
    SortedRowsComplete(t.rows, id);
    var i :| 0 <= i < |SelectAll(t)| && SelectAll(t)[i].id == id;
    assert ObserveTasks(t)[i].id == id;
  }

  /** `add(emptyText, time)`: one new row with that text and `time.toMinutes()`. */
  lemma AddKeepsConsistent(t: Table, text: string, time: LocalTime)
    requires Consistent(t)
    ensures Consistent(InsertRow(t, Row(text, ToMinutes(time))))
    ensures NextId(t).Some? ==>
              InsertRow(t, Row(text, ToMinutes(time))).rows[NextId(t).value] == Row(text, ToMinutes(time))
  {
  }

  class TasksRepositoryImpl {
    const dao: TaskDao

    ghost predicate Valid()
      reads dao
    {
      Consistent(dao.Snapshot())
    }

    constructor (dao: TaskDao)
      requires Consistent(dao.Snapshot())
      ensures this.dao == dao && Valid()
    {
      this.dao := dao;
    }

    /** `observe()` on the live table: one task per stored row, by id, with
        the stored text and the stored minutes as a time. */
    function Observe(): (ts: seq<Task>)
      reads dao
      requires Valid()
      ensures |ts| == |dao.rows|
      ensures forall i, j :: 0 <= i < j < |ts| ==> ts[i].id < ts[j].id
      ensures forall i :: 0 <= i < |ts| ==>
                ts[i].id in dao.rows && dao.rows[ts[i].id].text == ts[i].text &&
                dao.rows[ts[i].id].timeMinutes == ToMinutes(ts[i].time) && ts[i].time.second == 0
      ensures forall id :: id in dao.rows ==> exists i :: 0 <= i < |ts| && ts[i].id == id
    {
      ObserveTasks(dao.Snapshot())
    }

    /** `add(emptyText, time)`. When the id counter is exhausted the insert
        throws and nothing is written. */
    method Add(emptyText: string, time: LocalTime)
      requires Valid()
      modifies dao
      ensures Valid()
      ensures dao.Snapshot() == InsertRow(old(dao.Snapshot()), Row(emptyText, ToMinutes(time)))
    {
      var _ := dao.Insert(emptyText, ToMinutes(time));
    }

    method Remove(id: int)
      requires Valid()
      modifies dao
      ensures Valid()
      ensures dao.Snapshot() == DeleteWhere(old(dao.Snapshot()), id)
    {
      dao.Delete(id);
    }

    method UpdateText(id: int, text: string)
      requires Valid()
      modifies dao
      ensures Valid()
      ensures dao.Snapshot() == UpdateTextWhere(old(dao.Snapshot()), id, text)
    {
      dao.UpdateText(id, text);
    }

    /** `updateTime(id, time)`: stores `time.toMinutes()` for that id. */
    method UpdateTime(id: int, time: LocalTime)
      requires Valid()
      modifies dao
      ensures Valid()
      ensures dao.Snapshot() == UpdateTimeWhere(old(dao.Snapshot()), id, ToMinutes(time))
    {
      dao.UpdateTime(id, ToMinutes(time));
    }
  }
}
