/** The `tasks` table as a keyed store (app.py:15-29): rows by id, and the
    AUTOINCREMENT counter that hands out ids. */
module Store {
  import opened Wrappers
  import opened Tasks

  /** The rows with ids below `bound`, in increasing id order: what a scan of
      the table (`SELECT * FROM tasks`) yields. */
  function Listing(rows: map<int, Task>, bound: int): seq<Row>
    decreases bound
  {
    if bound <= 1 then []
    else Listing(rows, bound - 1) + (if bound - 1 in rows then [Row(bound - 1, rows[bound - 1])] else [])
  }

  ghost predicate Ascending(list: seq<Row>)
  {
    forall i, j :: 0 <= i < j < |list| ==> list[i].id < list[j].id
  }

  /** Every listed row is a row of the table with its stored columns. */
  ghost predicate Faithful(list: seq<Row>, rows: map<int, Task>)
  {
    forall row :: row in list ==> row.id in rows && rows[row.id] == row.task
  }

  /** The listing is the table below `bound`: ascending ids, nothing invented,
      nothing with an id in [1, bound) left out. */
  lemma {:induction false} ListingIsTable(rows: map<int, Task>, bound: int)
    ensures Ascending(Listing(rows, bound))
    ensures Faithful(Listing(rows, bound), rows)
    ensures forall row :: row in Listing(rows, bound) ==> 1 <= row.id < bound
    ensures forall id :: 1 <= id < bound && id in rows ==> Row(id, rows[id]) in Listing(rows, bound)
    decreases bound
  {
    if bound > 1 {
      ListingIsTable(rows, bound - 1);
    }
  }

  class TaskTable {
    /** The stored rows, by id. */
    var rows: map<int, Task>
    /** The id the next INSERT receives: one more than the largest ever issued. */
    var nextId: int

    ghost predicate Valid()
      reads this
    {
      1 <= nextId && forall id :: id in rows ==> 1 <= id < nextId
    }

    /** A freshly created table (CREATE TABLE IF NOT EXISTS on a new database). */
    constructor ()
      ensures Valid() && rows == map[] && nextId == 1
    {
      rows := map[];
      nextId := 1;
    }

    /** INSERT (app.py:68-72): the row gets a fresh id, larger than every id
        issued before; every other row is unchanged. */
    method Insert(t: Task) returns (id: int)
      requires Valid()
      modifies this
      ensures Valid()
      ensures id == old(nextId) && nextId == id + 1
      ensures id !in old(rows) && forall k :: k in old(rows) ==> k < id
      ensures rows == old(rows)[id := t]
    {
      id := nextId;
      rows := rows[id := t];
      nextId := nextId + 1;
    }

    /** `SELECT * FROM tasks WHERE id = ?` (app.py:117): the row, or nothing. */
    method Get(id: int) returns (found: Option<Task>)
      ensures found.Some? <==> id in rows
      ensures found.Some? ==> found.value == rows[id]
    {
      if id in rows {
        found := Some(rows[id]);
      } else {
        found := None;
      }
    }

    /** UPDATE ... WHERE id = ? (app.py:175-184): all ten columns of the matching
        row are overwritten; with no matching row nothing changes. */
    method Update(id: int, t: Task)
      requires Valid()
      modifies this
      ensures Valid()
      ensures nextId == old(nextId)
      ensures id in old(rows) ==> rows == old(rows)[id := t]
      ensures id !in old(rows) ==> rows == old(rows)
    {
      if id in rows {
        rows := rows[id := t];
      }
    }

    /** `SELECT * FROM tasks` (app.py:81): every row once, in id order. */
    method LoadAll() returns (list: seq<Row>)
      requires Valid()
      ensures list == Listing(rows, nextId)
      ensures Ascending(list) && Faithful(list, rows)
      ensures forall id :: id in rows ==> Row(id, rows[id]) in list
    {
      list := [];
      var k := 1;
      while k < nextId
        invariant 1 <= k <= nextId
        invariant list == Listing(rows, k)
      {
        if k in rows {
          list := list + [Row(k, rows[k])];
        }
        k := k + 1;
      }
      ListingIsTable(rows, nextId);
    }
  }

  /** Inserting and then reading back the new id returns exactly what was inserted. */
  method InsertThenGet(table: TaskTable, t: Task) returns (id: int, found: Option<Task>)
    requires table.Valid()
    modifies table
    ensures found == Some(t)
    ensures forall k :: k in old(table.rows) ==> k in table.rows && table.rows[k] == old(table.rows[k])
  {
    id := table.Insert(t);
    found := table.Get(id);
  }
}
