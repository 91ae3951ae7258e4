/**
 * The Postgres table `tasks(id TEXT PRIMARY KEY, filename TEXT, status TEXT)`
 * and the statements db_ops.py and async_db_ops.py run against it.  Both files
 * issue the same SQL; the async one also commits explicitly, which the
 * connection-pool context does anyway on a clean exit, so one model serves both.
 */
module TaskTable {
  import opened Wrappers

  /** The only status the code ever writes or queries for. */
  const InProgress: string := "in-progress"

  /** A row without its key. */
  datatype Row = Row(filename: string, status: string)

  /** A row as `SELECT *` returns it. */
  datatype Task = Task(id: string, filename: string, status: string)

  datatype DbError =
    | UndefinedTable    // the statement ran before `CREATE TABLE`
    | UniqueViolation   // a second row with the same primary key

  // ---------------------------------------------------------------------
  // SQL LIKE, for `WHERE status LIKE 'in-progress'`

  /** SQL `s LIKE p`: `%` matches any run of characters, `_` any one character. */
  function Like(s: string, p: string): bool
    decreases |s| + |p|
  {
    if p == [] then s == []
    else if p[0] == '%' then Like(s, p[1..]) || (s != [] && Like(s[1..], p))
    else s != [] && (p[0] == '_' || p[0] == s[0]) && Like(s[1..], p[1..])
  }

  predicate NoWildcards(p: string) {
    forall i :: 0 <= i < |p| ==> p[i] != '%' && p[i] != '_'
  }

  /** A pattern without wildcards matches exactly itself. */
  lemma {:induction false} LikeLiteral(s: string, p: string)
    requires NoWildcards(p)
    ensures Like(s, p) <==> s == p
  {
    if p != [] {
      assert NoWildcards(p[1..]) by {
        forall i | 0 <= i < |p[1..]| ensures p[1..][i] != '%' && p[1..][i] != '_' {
          assert p[1..][i] == p[i + 1];
        }
      }
      if s != [] {
        LikeLiteral(s[1..], p[1..]);
        assert s == [s[0]] + s[1..] && p == [p[0]] + p[1..];
      }
    }
  }

  /** 'in-progress' has no wildcard, so the query compares statuses for equality. */
  lemma InProgressIsLiteral(s: string)
    ensures Like(s, InProgress) <==> s == InProgress
  {
    assert NoWildcards(InProgress);
    LikeLiteral(s, InProgress);
  }

  // ---------------------------------------------------------------------
  // The table contents after each statement

  /** The rows `SELECT * FROM tasks WHERE status = 'in-progress'` returns. */
  function InProgressTasks(rows: map<string, Row>): (ts: set<Task>)
    ensures forall t :: t in ts <==> t.id in rows && rows[t.id] == Row(t.filename, t.status) && t.status == InProgress
  {
    set id | id in rows && rows[id].status == InProgress :: Task(id, rows[id].filename, rows[id].status)
  }

  /** `UPDATE tasks SET status = s WHERE id = id`. */
  function Updated(rows: map<string, Row>, id: string, status: string): (r: map<string, Row>)
    ensures r.Keys == rows.Keys
    ensures id in rows ==> r[id] == Row(rows[id].filename, status)
    ensures forall k :: k in rows && k != id ==> r[k] == rows[k]
  {
    if id in rows then rows[id := Row(rows[id].filename, status)] else rows
  }

  /** `DELETE FROM tasks WHERE id = id`. */
  function Removed(rows: map<string, Row>, id: string): (r: map<string, Row>)
    ensures r.Keys == rows.Keys - {id}
    ensures forall k :: k in r ==> r[k] == rows[k]
  {
    rows - {id}
  }

  /** An update with an absent id matches no row and changes nothing. */
  lemma UpdateAbsentIsNoop(rows: map<string, Row>, id: string, status: string)
    requires id !in rows
    ensures Updated(rows, id, status) == rows
  {
  }

  /**
   * After `update(id, s)` on an existing row the task is listed by `getTasks`
   * exactly when `s` is 'in-progress'; every other task is listed as before.
   */
  lemma UpdateThenSelect(rows: map<string, Row>, id: string, status: string)
    requires id in rows
    ensures (exists t: Task :: t in InProgressTasks(Updated(rows, id, status)) && t.id == id) <==> status == InProgress
    ensures forall t: Task :: t.id != id ==> (t in InProgressTasks(Updated(rows, id, status)) <==> t in InProgressTasks(rows))
  {
    var after := Updated(rows, id, status);
    if status == InProgress {
      var t := Task(id, rows[id].filename, status);
      assert t in InProgressTasks(after);
    }
  }

  /** A row inserted as 'in-progress' is listed; the listing of the other ids is unaffected. */
  lemma InsertThenSelect(rows: map<string, Row>, id: string, filename: string)
    requires id !in rows
    ensures Task(id, filename, InProgress) in InProgressTasks(rows[id := Row(filename, InProgress)])
    ensures forall t: Task :: t.id != id ==>
              (t in InProgressTasks(rows[id := Row(filename, InProgress)]) <==> t in InProgressTasks(rows))
  {
  }

  /** The shared `tasks` table: whether it exists yet, and its rows by primary key. */
  class Table {
    var created: bool
    var rows: map<string, Row>

    /** A table that does not exist has no rows. */
    ghost predicate Valid()
      reads this
    {
      !created ==> rows == map[]
    }

    /** A fresh database, before any `CREATE TABLE`. */
    constructor ()
      ensures Valid() && !created
    {
      created := false;
      rows := map[];
    }

    /** `CREATE TABLE IF NOT EXISTS tasks (...)`: never fails, and on an existing table changes nothing. */
    method CreateTable()
      requires Valid()
      modifies this
      ensures Valid() && created
      ensures rows == old(rows)
    {
      if !created {
        created := true;
        rows := map[];
      }
    }

    /** `INSERT INTO tasks(id, filename, status) VALUES(...)`. */
    method Insert(id: string, filename: string, status: string) returns (r: Outcome<DbError>)
      requires Valid()
      modifies this
      ensures Valid() && created == old(created)
      ensures !old(created) ==> r == Fail(UndefinedTable)
      ensures old(created) && id in old(rows) ==> r == Fail(UniqueViolation)
      ensures r.Pass? <==> old(created) && id !in old(rows)
      ensures rows == if r.Pass? then old(rows)[id := Row(filename, status)] else old(rows)
    {
      if !created {
        return Fail(UndefinedTable);
      }
      if id in rows {
        return Fail(UniqueViolation);
      }
      rows := rows[id := Row(filename, status)];
      r := Pass;
    }

    /** `SELECT * FROM tasks WHERE status LIKE 'in-progress'`: reads only. */
    method GetTasks() returns (r: Result<set<Task>, DbError>)
      ensures r.Success? <==> created
      ensures r.Success? ==> r.value == InProgressTasks(rows)
    {
      if !created {
        return Failure(UndefinedTable);
      }
      var selected := set id | id in rows && Like(rows[id].status, InProgress) :: Task(id, rows[id].filename, rows[id].status);
      forall id | id in rows
        ensures Like(rows[id].status, InProgress) <==> rows[id].status == InProgress
      {
        InProgressIsLiteral(rows[id].status);
      }
      r := Success(selected);
    }

    /** `UPDATE tasks SET status=%s WHERE id=%s`: an absent id matches nothing and is not an error. */
    method Update(id: string, status: string) returns (r: Outcome<DbError>)
      requires Valid()
      modifies this
      ensures Valid() && created == old(created)
      ensures r.Pass? <==> old(created)
      ensures rows == Updated(old(rows), id, status)
    {
      if !created {
        return Fail(UndefinedTable);
      }
      if id in rows {
        rows := rows[id := Row(rows[id].filename, status)];
      }
      r := Pass;
    }

    /** Remove the row with this id, if there is one (see the worker's `delete`). */
    method Delete(id: string) returns (r: Outcome<DbError>)
      requires Valid()
      modifies this
      ensures Valid() && created == old(created)
      ensures r.Pass? <==> old(created)
      ensures rows == Removed(old(rows), id)
    {
      if !created {
        return Fail(UndefinedTable);
      }
      rows := rows - {id};
      r := Pass;
    }
  }
}
