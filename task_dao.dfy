/** The `tasks` table behind TaskDao: rows keyed by an auto-generated Long
    id, the five queries the DAO declares, and SQLite's AUTOINCREMENT
    counter, which hands out ids that have never been used before. */
module TaskStore {
  import opened Platform

  /** One row as the DAO returns it (TaskEntity). */
  datatype TaskEntity = TaskEntity(id: int, text: string, timeMinutes: int)

  /** The non-key columns of a row. */
  datatype Row = Row(text: string, timeMinutes: int)

  /** The table's rows by id, and the largest id ever handed out (the
      table's entry in `sqlite_sequence`). */
  datatype Table = Table(rows: map<int, Row>, lastId: int)

  const EmptyTable: Table := Table(map[], 0)

  /** Every key was handed out by the counter, which stays in Long range. */
  predicate Wf(t: Table)
  {
    0 <= t.lastId <= LongMax &&
    forall id :: id in t.rows ==> 0 < id <= t.lastId
  }

  predicate IsMinimum(m: int, keys: set<int>)
  {
    m in keys && forall k :: k in keys ==> m <= k
  }

  lemma {:induction false} MinimumExists(keys: set<int>)
    requires keys != {}
    ensures exists m :: IsMinimum(m, keys)
    decreases keys
  {
    if forall y :: y !in keys { assert false; }
    var x :| x in keys;
    if keys != {x} {
      MinimumExists(keys - {x});
      var m :| IsMinimum(m, keys - {x});
      assert forall k :: k in keys ==> k == x || k in keys - {x};
      if x < m {
        assert IsMinimum(x, keys);
      } else {
        assert IsMinimum(m, keys);
      }
    } else {
      assert IsMinimum(x, keys);
    }
  }

  function MinKey(keys: set<int>): (m: int)
    requires keys != {}
    ensures IsMinimum(m, keys)
  {
    MinimumExists(keys);
    var m :| IsMinimum(m, keys); m
  }

  /** The rows ordered by id (`ORDER BY id, timeMinutes`; ids are unique, so
      the second key never decides). */
  function SortedRows(rows: map<int, Row>): (r: seq<TaskEntity>)
    ensures |r| == |rows|
    ensures forall i, j :: 0 <= i < j < |r| ==> r[i].id < r[j].id
    ensures forall i :: 0 <= i < |r| ==>
              r[i].id in rows && rows[r[i].id] == Row(r[i].text, r[i].timeMinutes)
    decreases |rows|
  {
    if |rows| == 0 then []
    else
      var k := MinKey(rows.Keys);
      var rest := rows - {k};
      assert rest.Keys == rows.Keys - {k};
      var tail := SortedRows(rest);
      assert forall i :: 0 <= i < |tail| ==> tail[i].id in rest && k < tail[i].id;
      var r := [TaskEntity(k, rows[k].text, rows[k].timeMinutes)] + tail;
      assert forall i :: 0 < i < |r| ==> r[i] == tail[i - 1];
      r
  }

  /** No row is left out of the listing. */
  lemma {:induction false} SortedRowsComplete(rows: map<int, Row>, id: int)
    requires id in rows
    ensures exists i :: 0 <= i < |SortedRows(rows)| && SortedRows(rows)[i].id == id
    decreases |rows|
  {
    var k := MinKey(rows.Keys);
    var rest := rows - {k};
    assert rest.Keys == rows.Keys - {k};
    var r := SortedRows(rows);
    if id == k {
      assert r[0].id == id;
    } else {
      SortedRowsComplete(rest, id);
      var j :| 0 <= j < |SortedRows(rest)| && SortedRows(rest)[j].id == id;
      assert r[j + 1].id == id;
    }
  }

  lemma ListsEveryRow(rows: map<int, Row>)
    ensures forall id :: id in rows ==> exists i :: 0 <= i < |SortedRows(rows)| && SortedRows(rows)[i].id == id
  {
    forall id | id in rows
      ensures exists i :: 0 <= i < |SortedRows(rows)| && SortedRows(rows)[i].id == id
    {
      SortedRowsComplete(rows, id);
    }
  }

  /** `observeAll()`: every row of the table exactly once, ordered by id. */
  function SelectAll(t: Table): (r: seq<TaskEntity>)
    ensures |r| == |t.rows|
    ensures forall i, j :: 0 <= i < j < |r| ==> r[i].id < r[j].id
    ensures forall i :: 0 <= i < |r| ==>
              r[i].id in t.rows && t.rows[r[i].id] == Row(r[i].text, r[i].timeMinutes)
    ensures forall id :: id in t.rows ==> exists i :: 0 <= i < |r| && r[i].id == id
  {
    ListsEveryRow(t.rows);
    SortedRows(t.rows)
  }

  /** The id `insert` assigns: one past the largest ever used, or `None`
      when the counter is exhausted (SQLITE_FULL). */
  function NextId(t: Table): (r: Option<int>)
    requires Wf(t)
    ensures r.Some? <==> t.lastId < LongMax
    ensures r.Some? ==> r.value !in t.rows && r.value > 0 &&
                        forall id :: id in t.rows ==> id < r.value
  {
    if t.lastId < LongMax then Some(t.lastId + 1) else None
  }

  /** `insert(entity)` with the id left to the table: one new row under
      `NextId`; nothing changes when no id is left. */
  function InsertRow(t: Table, row: Row): (r: Table)
    requires Wf(t)
    ensures Wf(r)
    ensures NextId(t).Some? ==>
              r.rows.Keys == t.rows.Keys + {NextId(t).value} &&
              r.rows[NextId(t).value] == row &&
              forall id :: id in t.rows ==> r.rows[id] == t.rows[id]
    ensures NextId(t).None? ==> r == t
  {
    match NextId(t)
    case Some(id) => Table(t.rows[id := row], id)
    case None => t
  }

  /** `DELETE FROM tasks WHERE id = :id`. */
  function DeleteWhere(t: Table, id: int): (r: Table)
    ensures Wf(t) ==> Wf(r)
    ensures r.rows.Keys == t.rows.Keys - {id}
    ensures forall k :: k in r.rows ==> r.rows[k] == t.rows[k]
    ensures r.lastId == t.lastId
  {
    t.(rows := t.rows - {id})
  }

  /** `UPDATE tasks SET text = :text WHERE id = :id`. */
  function UpdateTextWhere(t: Table, id: int, text: string): (r: Table)
    ensures Wf(t) ==> Wf(r)
    ensures r.rows.Keys == t.rows.Keys && r.lastId == t.lastId
    ensures forall k :: k in r.rows ==>
              r.rows[k].timeMinutes == t.rows[k].timeMinutes &&
              r.rows[k].text == (if k == id then text else t.rows[k].text)
  {
    if id in t.rows then t.(rows := t.rows[id := t.rows[id].(text := text)]) else t
  }

  /** `UPDATE tasks SET timeMinutes = :minutes WHERE id = :id`. */
  function UpdateTimeWhere(t: Table, id: int, minutes: int): (r: Table)
    ensures Wf(t) ==> Wf(r)
    ensures r.rows.Keys == t.rows.Keys && r.lastId == t.lastId
    ensures forall k :: k in r.rows ==>
              r.rows[k].text == t.rows[k].text &&
              r.rows[k].timeMinutes == (if k == id then minutes else t.rows[k].timeMinutes)
  {
    if id in t.rows then t.(rows := t.rows[id := t.rows[id].(timeMinutes := minutes)]) else t
  }

  /** A deleted id is never handed out again, so a row written after a
      delete is always a new row. */
  lemma {:induction false} DeletedIdNotReused(t: Table, id: int, row: Row)
    requires Wf(t) && id in t.rows
    ensures var t' := InsertRow(DeleteWhere(t, id), row);
      id !in t'.rows && forall k :: k in t'.rows && k != id && k in t.rows ==> t'.rows[k] == t.rows[k]
  {
    var d := DeleteWhere(t, id);
    assert Wf(d);
    if NextId(d).Some? {
      assert NextId(d).value > id;
    }
  }

  /** The DAO's connection to the table, which every query goes through. */
  class TaskDao {
    var rows: map<int, Row>
    var lastId: int

    function Snapshot(): Table
      reads this
    {
      Table(rows, lastId)
    }

    constructor ()
      ensures Snapshot() == EmptyTable
    {
      rows := map[];
      lastId := 0;
    }

    /** `observeAll()` on the live table: each stored row once, by id. */
    function ObserveAll(): (r: seq<TaskEntity>)
      reads this
      ensures |r| == |rows|
      ensures forall i, j :: 0 <= i < j < |r| ==> r[i].id < r[j].id
      ensures forall i :: 0 <= i < |r| ==> r[i].id in rows && rows[r[i].id] == Row(r[i].text, r[i].timeMinutes)
      ensures forall id :: id in rows ==> exists i :: 0 <= i < |r| && r[i].id == id
    {
      SelectAll(Snapshot())
    }

    method Insert(text: string, timeMinutes: int) returns (id: Option<int>)
      requires Wf(Snapshot())
      modifies this
      ensures id == NextId(old(Snapshot()))
      ensures Snapshot() == InsertRow(old(Snapshot()), Row(text, timeMinutes))
    {
      if lastId < LongMax {
        lastId := lastId + 1;
        rows := rows[lastId := Row(text, timeMinutes)];
        id := Some(lastId);
      } else {
        id := None;
      }
    }

    method Delete(id: int)
      modifies this
      ensures Snapshot() == DeleteWhere(old(Snapshot()), id)
    {
      rows := rows - {id};
    }

    method UpdateText(id: int, text: string)
      modifies this
      ensures Snapshot() == UpdateTextWhere(old(Snapshot()), id, text)
    {
      if id in rows {
        rows := rows[id := rows[id].(text := text)];
      }
    }

    method UpdateTime(id: int, minutes: int)
      modifies this
      ensures Snapshot() == UpdateTimeWhere(old(Snapshot()), id, minutes)
    {
      if id in rows {
        rows := rows[id := rows[id].(timeMinutes := minutes)];
      }
    }
  }
}
