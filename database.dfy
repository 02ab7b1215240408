/**
  The relational database as the code base's statements see it. A table is a sequence of
  rows in insertion order with an AUTO_INCREMENT counter and the tables its FOREIGN KEY
  columns reference. A statement has one of three effects: create a table unless it
  exists, delete all rows of a table, insert rows. A query returns the rows of a table.

  The server is free to refuse any request (lost connection, lock timeout, constraint the
  model does not track): whether the k-th request of a session is refused is an oracle
  `refused(k)` fixed when the session starts. On top of that the model refuses what MySQL
  refuses for these statements: a missing table, an INSERT with an empty VALUES list (a
  syntax error) and a DELETE of rows that rows of another table still reference.

  A transaction works on its own copy of the tables; `Commit` publishes the copy, and
  anything else (an error return, which defers `Rollback`) discards it.
*/
module Database {
  import opened Wrappers

  datatype Value = Null | Int(n: int) | Text(s: string)

  /** The tables of the code base's schema. `MovieInfo` is the movie-info cache of
      src/data/sqldb; the older packages call it `omdb`. */
  datatype TableName = Movies | Locations | Actors | MoviesActors | Coordinates | MovieInfo | Omdb

  /** The table's name in SQL. */
  function NameText(t: TableName): string {
    match t
    case Movies => "movies"
    case Locations => "locations"
    case Actors => "actors"
    case MoviesActors => "movies_actors"
    case Coordinates => "coordinates"
    case MovieInfo => "movie_info"
    case Omdb => "omdb"
  }

  type Row = seq<Value>

  /** A table. `parents` are the tables its FOREIGN KEY clauses reference; `nextId` is the
      AUTO_INCREMENT counter, which `DELETE FROM` does not reset. */
  datatype Table = Table(autoId: bool, parents: set<TableName>, rows: seq<Row>, nextId: nat)

  type Tables = map<TableName, Table>

  datatype Error =
    | Refused(request: nat)
    | NoSuchTable(name: TableName)
    | EmptyValues(name: TableName)
    | StillReferenced(name: TableName)
    | ScanFailed
    | NoRows
    | NilMovie(movieId: int)

  datatype Effect =
    | Create(name: TableName, autoId: bool, parents: set<TableName>)
    | DeleteAll(name: TableName)
    | Insert(name: TableName, rows: seq<Row>)

  /** Appends one row; a NULL in the first column of an auto-increment table receives the
      next id. */
  function AddRow(t: Table, r: Row): (t': Table)
    ensures t'.autoId == t.autoId && t'.parents == t.parents
    ensures |t'.rows| == |t.rows| + 1 && t'.rows[..|t.rows|] == t.rows
    ensures if t.autoId && |r| > 0 && r[0] == Null
            then t'.rows[|t.rows|] == [Int(t.nextId)] + r[1..] && t'.nextId == t.nextId + 1
            else t'.rows[|t.rows|] == r && t'.nextId == t.nextId
  {
    if t.autoId && |r| > 0 && r[0] == Null then
      t.(rows := t.rows + [[Int(t.nextId)] + r[1..]], nextId := t.nextId + 1)
    else
      t.(rows := t.rows + [r])
  }

  /** Appends rows in order. */
  function AddRows(t: Table, rs: seq<Row>): Table
    decreases |rs|
  {
    if rs == [] then t else AddRows(AddRow(t, rs[0]), rs[1..])
  }

  /** `r` with its first column replaced by the id `id`. */
  function Numbered(r: Row, id: int): Row {
    if |r| > 0 then [Int(id)] + r[1..] else r
  }

  /** Rows whose first column is NULL: what the auto-increment column fills in. */
  predicate AllAuto(rs: seq<Row>) {
    forall i :: 0 <= i < |rs| ==> |rs[i]| > 0 && rs[i][0] == Null
  }

  /** Inserting NULL-id rows into an auto-increment table numbers them consecutively from
      the counter, in order, and advances the counter by their number. */
  lemma {:induction false} AddRowsNumbers(t: Table, rs: seq<Row>)
    requires t.autoId && AllAuto(rs)
    ensures AddRows(t, rs).autoId && AddRows(t, rs).parents == t.parents
    ensures AddRows(t, rs).nextId == t.nextId + |rs|
    ensures |AddRows(t, rs).rows| == |t.rows| + |rs|
    ensures AddRows(t, rs).rows[..|t.rows|] == t.rows
    ensures forall i :: 0 <= i < |rs| ==>
      AddRows(t, rs).rows[|t.rows| + i] == Numbered(rs[i], t.nextId + i)
    decreases |rs|
  {
    if rs != [] {
      var t1 := AddRow(t, rs[0]);
      assert AllAuto(rs[1..]) by {
        forall i | 0 <= i < |rs[1..]| ensures |rs[1..][i]| > 0 && rs[1..][i][0] == Null {
          assert rs[1..][i] == rs[i + 1];
        }
      }
      AddRowsNumbers(t1, rs[1..]);
      var u := AddRows(t1, rs[1..]);
      assert u == AddRows(t, rs);
      assert u.rows[..|t.rows|] == t.rows by {
        assert u.rows[..|t1.rows|][..|t.rows|] == t1.rows[..|t.rows|];
      }
      forall i | 0 <= i < |rs| ensures u.rows[|t.rows| + i] == Numbered(rs[i], t.nextId + i) {
        if i == 0 {
          assert u.rows[|t.rows|] == u.rows[..|t1.rows|][|t.rows|];
        } else {
          assert rs[1..][i - 1] == rs[i];
        }
      }
    }
  }

  /** `rs` numbered consecutively from `n`. */
  function NumberedFrom(rs: seq<Row>, n: int): (r: seq<Row>)
    ensures |r| == |rs|
  {
    seq(|rs|, i requires 0 <= i < |rs| => Numbered(rs[i], n + i))
  }

  lemma NumberedFromCons(rs: seq<Row>, n: int)
    requires rs != []
    ensures NumberedFrom(rs, n) == [Numbered(rs[0], n)] + NumberedFrom(rs[1..], n + 1)
  {
  }

  /** Numbering `a + b` from `n` numbers `a` from `n` and `b` from where `a` ends. */
  lemma NumberedFromAppend(a: seq<Row>, b: seq<Row>, n: int)
    ensures NumberedFrom(a + b, n) == NumberedFrom(a, n) + NumberedFrom(b, n + |a|)
  {
    var l, r := NumberedFrom(a + b, n), NumberedFrom(a, n) + NumberedFrom(b, n + |a|);
    assert |l| == |r|;
    forall k | 0 <= k < |l| ensures l[k] == r[k] {
      assert l[k] == Numbered((a + b)[k], n + k);
      if k < |a| {
        assert (a + b)[k] == a[k];
        assert r[k] == NumberedFrom(a, n)[k];
      } else {
        assert (a + b)[k] == b[k - |a|];
        assert r[k] == NumberedFrom(b, n + |a|)[k - |a|];
      }
    }
  }

  /** The same as one table value: the numbered rows are appended and the counter advanced. */
  lemma {:induction false} AddRowsNumbered(t: Table, rs: seq<Row>)
    requires t.autoId && AllAuto(rs)
    ensures AddRows(t, rs) == t.(rows := t.rows + NumberedFrom(rs, t.nextId), nextId := t.nextId + |rs|)
    decreases |rs|
  {
    if rs == [] {
      assert t.rows + NumberedFrom(rs, t.nextId) == t.rows;
    } else {
      var t1 := AddRow(t, rs[0]);
      assert t1 == t.(rows := t.rows + [Numbered(rs[0], t.nextId)], nextId := t.nextId + 1);
      assert AllAuto(rs[1..]) by {
        forall i | 0 <= i < |rs[1..]| ensures |rs[1..][i]| > 0 && rs[1..][i][0] == Null {
          assert rs[1..][i] == rs[i + 1];
        }
      }
      AddRowsNumbered(t1, rs[1..]);
      NumberedFromCons(rs, t.nextId);
      assert t.rows + [Numbered(rs[0], t.nextId)] + NumberedFrom(rs[1..], t.nextId + 1)
          == t.rows + NumberedFrom(rs, t.nextId);
    }
  }

  /** Rows appended to a table without an auto-increment column are stored unchanged. */
  lemma {:induction false} AddRowsVerbatim(t: Table, rs: seq<Row>)
    requires !t.autoId
    ensures AddRows(t, rs) == t.(rows := t.rows + rs)
    decreases |rs|
  {
    if rs != [] {
      AddRowsVerbatim(AddRow(t, rs[0]), rs[1..]);
      assert t.rows + [rs[0]] + rs[1..] == t.rows + rs;
    }
  }

  /** Some row of another table references a row of `name` through a foreign key. */
  predicate Referenced(ts: Tables, name: TableName) {
    exists c | c in ts :: name in ts[c].parents && ts[c].rows != []
  }

  /** The effect of one statement on the tables, or why the server rejects it. */
  function Apply(ts: Tables, e: Effect): (r: Result<Tables, Error>)
    ensures r.Success? ==> r.value.Keys >= ts.Keys
  {
    match e
    case Create(name, autoId, parents) =>
      if name in ts then Success(ts) else Success(ts[name := Table(autoId, parents, [], 1)])
    case DeleteAll(name) =>
      if name !in ts then Failure(NoSuchTable(name))
      else if Referenced(ts, name) then Failure(StillReferenced(name))
      else Success(ts[name := ts[name].(rows := [])])
    case Insert(name, rows) =>
      if name !in ts then Failure(NoSuchTable(name))
      else if rows == [] then Failure(EmptyValues(name))
      else Success(ts[name := AddRows(ts[name], rows)])
  }

  /** An INSERT changes its own table and no other. */
  lemma ApplyInsertFrame(ts: Tables, name: TableName, rows: seq<Row>, other: TableName)
    requires Apply(ts, Insert(name, rows)).Success? && other != name
    ensures other in Apply(ts, Insert(name, rows)).value <==> other in ts
    ensures other in ts ==> Apply(ts, Insert(name, rows)).value[other] == ts[other]
  {
  }

  // ---------------------------------------------------------------------------
  // Sessions
  // ---------------------------------------------------------------------------

  /** What one connection has seen and done: the tables as it sees them, every SQL text it
      sent in order, and how many requests it has made. */
  datatype Session = Session(tables: Tables, log: seq<string>, requests: nat)

  /** The session after sending `sql` (the server refuses or applies `e`). */
  function Sent(s: Session, sql: string): Session {
    s.(log := s.log + [sql], requests := s.requests + 1)
  }

  /** `tx.Exec(sql)` where `sql` denotes the effect `e`. */
  function Execute(s: Session, sql: string, e: Effect, refused: nat -> bool): (r: (Session, Option<Error>))
    ensures r.0.log == s.log + [sql] && r.0.requests == s.requests + 1
    ensures r.1.None? <==> !refused(s.requests) && Apply(s.tables, e).Success?
    ensures r.1.None? ==> r.0.tables == Apply(s.tables, e).value
    ensures r.1.Some? ==> r.0.tables == s.tables
  {
    if refused(s.requests) then (Sent(s, sql), Some(Refused(s.requests)))
    else match Apply(s.tables, e)
      case Success(ts) => (Sent(s, sql).(tables := ts), None)
      case Failure(err) => (Sent(s, sql), Some(err))
  }

  /** `tx.Query(sql)` where `sql` selects every row of table `name`, in storage order. */
  function Select(s: Session, sql: string, name: TableName, refused: nat -> bool): (r: (Session, Result<seq<Row>, Error>))
    ensures r.0 == Sent(s, sql)
    ensures r.1.Success? <==> !refused(s.requests) && name in s.tables
    ensures r.1.Success? ==> r.1.value == s.tables[name].rows
  {
    if refused(s.requests) then (Sent(s, sql), Failure(Refused(s.requests)))
    else if name !in s.tables then (Sent(s, sql), Failure(NoSuchTable(name)))
    else (Sent(s, sql), Success(s.tables[name].rows))
  }

  /** The rows whose column `col` holds `v`, in storage order. */
  function RowsWhere(rows: seq<Row>, col: nat, v: Value): (r: seq<Row>)
    ensures forall x :: x in r ==> x in rows && col < |x| && x[col] == v
    ensures forall x :: x in rows && col < |x| && x[col] == v ==> x in r
  {
    if rows == [] then []
    else
      var rest := RowsWhere(rows[1..], col, v);
      assert forall x :: x in rows[1..] ==> x in rows;
      if col < |rows[0]| && rows[0][col] == v then [rows[0]] + rest else rest
  }

  /** `tx.Query(sql, v)` where `sql` selects the rows of `name` whose column `col` is `v`. */
  function SelectWhere(s: Session, sql: string, name: TableName, col: nat, v: Value, refused: nat -> bool): (r: (Session, Result<seq<Row>, Error>))
    ensures r.0 == Sent(s, sql)
    ensures r.1.Success? <==> !refused(s.requests) && name in s.tables
    ensures r.1.Success? ==> r.1.value == RowsWhere(s.tables[name].rows, col, v)
  {
    if refused(s.requests) then (Sent(s, sql), Failure(Refused(s.requests)))
    else if name !in s.tables then (Sent(s, sql), Failure(NoSuchTable(name)))
    else (Sent(s, sql), Success(RowsWhere(s.tables[name].rows, col, v)))
  }

  /** One statement of a fixed script: its text and its effect. */
  datatype Statement = Statement(sql: string, effect: Effect)

  /** Runs a script statement by statement and stops at the first error, as the
      `if err != nil { return err }` chains of the code base do. */
  function RunScript(s: Session, script: seq<Statement>, refused: nat -> bool): (Session, Option<Error>)
    decreases |script|
  {
    if script == [] then (s, None)
    else
      var (s1, err) := Execute(s, script[0].sql, script[0].effect, refused);
      if err.Some? then (s1, err) else RunScript(s1, script[1..], refused)
  }

  /** One step of a script, for callers that send its statements one at a time. */
  lemma RunScriptUnfold(s: Session, script: seq<Statement>, refused: nat -> bool)
    requires script != []
    ensures var e := Execute(s, script[0].sql, script[0].effect, refused);
      RunScript(s, script, refused) == if e.1.Some? then e else RunScript(e.0, script[1..], refused)
  {
  }

  /** The effects of a script applied in order, stopping at the first rejected one. */
  function ApplyAll(ts: Tables, script: seq<Statement>): Result<Tables, Error>
    decreases |script|
  {
    if script == [] then Success(ts)
    else match Apply(ts, script[0].effect)
      case Failure(err) => Failure(err)
      case Success(ts1) => ApplyAll(ts1, script[1..])
  }

  /** None of the `n` requests from the `from`-th on is refused. */
  ghost predicate NoRefusals(refused: nat -> bool, from: nat, n: nat) {
    forall k :: from <= k < from + n ==> !refused(k)
  }

  /** When the server refuses none of its requests, a script's outcome is that of its
      effects: it succeeds exactly when every effect applies, with their combined result. */
  lemma {:induction false} RunScriptEffects(s: Session, script: seq<Statement>, refused: nat -> bool)
    requires NoRefusals(refused, s.requests, |script|)
    ensures var r := RunScript(s, script, refused);
      (r.1.None? <==> ApplyAll(s.tables, script).Success?) &&
      (r.1.None? ==> r.0.tables == ApplyAll(s.tables, script).value)
    decreases |script|
  {
    if script != [] {
      var e := Execute(s, script[0].sql, script[0].effect, refused);
      assert !refused(s.requests);
      if e.1.None? {
        RunScriptEffects(e.0, script[1..], refused);
      }
    }
  }

  /** Running two scripts one after the other applies the second to what the first
      produced, unless the first is rejected. */
  lemma {:induction false} ApplyAllAppend(ts: Tables, a: seq<Statement>, b: seq<Statement>)
    ensures ApplyAll(ts, a + b) ==
      match ApplyAll(ts, a)
      case Failure(err) => Failure(err)
      case Success(ts1) => ApplyAll(ts1, b)
    decreases |a|
  {
    if a == [] {
      assert a + b == b;
    } else {
      assert (a + b)[0] == a[0] && (a + b)[1..] == a[1..] + b;
      match Apply(ts, a[0].effect)
      case Failure(_) =>
      case Success(ts1) => ApplyAllAppend(ts1, a[1..], b);
    }
  }

  /** The texts of a script. */
  function Texts(script: seq<Statement>): (r: seq<string>)
    ensures |r| == |script|
    ensures forall i :: 0 <= i < |script| ==> r[i] == script[i].sql
  {
    if script == [] then [] else [script[0].sql] + Texts(script[1..])
  }

  /** A script sends one request per statement it gets to: all of them when it succeeds,
      at least one when it fails. */
  lemma {:induction false} RunScriptRequests(s: Session, script: seq<Statement>, refused: nat -> bool)
    ensures var r := RunScript(s, script, refused);
      s.requests <= r.0.requests <= s.requests + |script| &&
      (r.1.None? ==> r.0.requests == s.requests + |script|) &&
      (r.1.Some? ==> r.0.requests > s.requests)
    decreases |script|
  {
    if script != [] {
      var e := Execute(s, script[0].sql, script[0].effect, refused);
      if e.1.None? {
        RunScriptRequests(e.0, script[1..], refused);
      }
    }
  }

  /** What a script sends is the prefix of its texts of the length of its requests: it
      stops at the first statement that fails. */
  lemma {:induction false} RunScriptLog(s: Session, script: seq<Statement>, refused: nat -> bool)
    ensures var r := RunScript(s, script, refused);
      s.requests <= r.0.requests <= s.requests + |script| &&
      r.0.log == s.log + Texts(script)[..r.0.requests - s.requests]
    decreases |script|
  {
    RunScriptRequests(s, script, refused);
    if script != [] {
      var e := Execute(s, script[0].sql, script[0].effect, refused);
      if e.1.Some? {
        assert Texts(script)[..1] == [script[0].sql];
      } else {
        RunScriptLog(e.0, script[1..], refused);
        var r := RunScript(e.0, script[1..], refused);
        var n := r.0.requests - e.0.requests;
        assert Texts(script)[..n + 1] == [script[0].sql] + Texts(script[1..])[..n];
      }
    }
  }

  // ---------------------------------------------------------------------------
  // Transactions and the objects that run them
  // ---------------------------------------------------------------------------

  /** An open transaction (`*sql.Tx`). */
  class Tx {
    var tables: Tables
    var log: seq<string>
    var requests: nat
    const refused: nat -> bool

    function State(): Session
      reads this
    {
      Session(tables, log, requests)
    }

    constructor (tables: Tables, requests: nat, refused: nat -> bool)
      ensures this.tables == tables && this.log == [] && this.requests == requests
      ensures this.refused == refused
    {
      this.tables := tables;
      this.log := [];
      this.requests := requests;
      this.refused := refused;
    }

    /** `tx.Exec(sql)`, `sql` denoting `e`. */
    method Exec(sql: string, e: Effect) returns (err: Option<Error>)
      modifies this
      ensures (State(), err) == Execute(old(State()), sql, e, refused)
    {
      var r := Execute(State(), sql, e, refused);
      tables, log, requests := r.0.tables, r.0.log, r.0.requests;
      err := r.1;
    }

    /** `data.Insert`: `tx.Exec` of a one-row INSERT followed by `LastInsertId`, which is
        the id the auto-increment column gave the row (0 for a table without one). */
    method Insert(sql: string, name: TableName, row: Row) returns (id: int, err: Option<Error>)
      modifies this
      ensures (State(), err) == Execute(old(State()), sql, Effect.Insert(name, [row]), refused)
      ensures err.None? ==> id == LastInsertId(old(tables)[name], row)
      ensures err.Some? ==> id == -1
    {
      var before := tables;
      err := Exec(sql, Effect.Insert(name, [row]));
      if err.Some? {
        id := -1;
      } else {
        id := LastInsertId(before[name], row);
      }
    }

    /** `tx.Query(sql)` reading all rows of `name`. */
    method Query(sql: string, name: TableName) returns (r: Result<seq<Row>, Error>)
      modifies this
      ensures (State(), r) == Select(old(State()), sql, name, refused)
    {
      var q := Select(State(), sql, name, refused);
      log, requests := q.0.log, q.0.requests;
      r := q.1;
    }

    /** `tx.Query(sql, v)` reading the rows of `name` whose column `col` is `v`. */
    method QueryWhere(sql: string, name: TableName, col: nat, v: Value) returns (r: Result<seq<Row>, Error>)
      modifies this
      ensures (State(), r) == SelectWhere(old(State()), sql, name, col, v, refused)
    {
      var q := SelectWhere(State(), sql, name, col, v, refused);
      log, requests := q.0.log, q.0.requests;
      r := q.1;
    }
  }

  /** The id `LastInsertId` reports for inserting `row` into `t`. */
  function LastInsertId(t: Table, row: Row): int {
    if t.autoId && |row| > 0 && row[0] == Null then t.nextId else 0
  }

  /** A connection pool (`*sql.DB`): the committed tables. */
  class Db {
    var tables: Tables
    var requests: nat
    const refused: nat -> bool

    constructor (tables: Tables, refused: nat -> bool)
      ensures this.tables == tables && this.requests == 0 && this.refused == refused
    {
      this.tables := tables;
      this.requests := 0;
      this.refused := refused;
    }

    /** `db.Begin()`: one request; on success a transaction over a copy of the tables. */
    method Begin() returns (r: Result<Tx, Error>)
      modifies this
      ensures requests == old(requests) + 1 && tables == old(tables)
      ensures r.Success? <==> !refused(old(requests))
      ensures r.Failure? ==> r.error == Refused(old(requests))
      ensures r.Success? ==> fresh(r.value) && r.value.tables == tables
      ensures r.Success? ==> r.value.log == [] && r.value.requests == requests
      ensures r.Success? ==> r.value.refused == refused
    {
      if refused(requests) {
        r := Failure(Refused(requests));
        requests := requests + 1;
      } else {
        requests := requests + 1;
        var tx := new Tx(tables, requests, refused);
        r := Success(tx);
      }
    }

    /** `tx.Commit()`: one request; on success the transaction's tables become the
        committed ones. */
    method Commit(tx: Tx) returns (err: Option<Error>)
      modifies this
      ensures requests == tx.requests + 1
      ensures err.None? <==> !refused(tx.requests)
      ensures err.Some? ==> err == Some(Refused(tx.requests))
      ensures err.None? ==> tables == tx.tables
      ensures err.Some? ==> tables == old(tables)
    {
      if refused(tx.requests) {
        err := Some(Refused(tx.requests));
      } else {
        err := None;
        tables := tx.tables;
      }
      requests := tx.requests + 1;
    }

    /** The deferred `tx.Rollback()` after an error: the transaction's work is discarded. */
    method Rollback(tx: Tx)
      modifies this
      ensures requests == tx.requests + 1 && tables == old(tables)
    {
      requests := tx.requests + 1;
    }

    /** The end of `transaction`: `tx.Rollback()` when the callback returned an error,
        `tx.Commit()` otherwise. */
    method Settle(tx: Tx, err: Option<Error>) returns (r: Option<Error>)
      modifies this
      ensures (tables, requests, r) == Settled(old(tables), tx.State(), err, refused)
    {
      if err.Some? {
        Rollback(tx);
        return err;
      }
      r := Commit(tx);
    }
  }

  /** The session a transaction begun by the `requests`-th request starts from. */
  function TxStart(ts: Tables, requests: nat): Session {
    Session(ts, [], requests + 1)
  }

  /** `transaction(db, callback)`: `db.Begin()`, then the callback, whose outcome from
      `TxStart(ts, requests)` is `work`, then `tx.Commit()` when it succeeded or the
      deferred `tx.Rollback()` when it failed. The result is the committed tables, the
      requests sent so far and the error returned. */
  function Transaction(ts: Tables, requests: nat, work: (Session, Option<Error>), refused: nat -> bool): (Tables, nat, Option<Error>)
  {
    if refused(requests) then (ts, requests + 1, Some(Refused(requests)))
    else Settled(ts, work.0, work.1, refused)
  }

  /** The end of a transaction whose work left session `s` and error `err`: the deferred
      rollback after an error, the commit otherwise. */
  function Settled(ts: Tables, s: Session, err: Option<Error>, refused: nat -> bool): (Tables, nat, Option<Error>)
  {
    if err.Some? then (ts, s.requests + 1, err)
    else if refused(s.requests) then (ts, s.requests + 1, Some(Refused(s.requests)))
    else (s.tables, s.requests + 1, None)
  }

  /** A transaction is all or nothing: when it fails the committed tables are those it
      started from; it succeeds exactly when it begins, its work succeeds and it commits,
      and then the committed tables are those its work produced. */
  lemma TransactionAtomic(ts: Tables, requests: nat, work: (Session, Option<Error>), refused: nat -> bool)
    ensures var r := Transaction(ts, requests, work, refused);
      (r.2.Some? ==> r.0 == ts) &&
      (r.2.None? <==> !refused(requests) && work.1.None? && !refused(work.0.requests)) &&
      (r.2.None? ==> r.0 == work.0.tables)
  {
  }
}
