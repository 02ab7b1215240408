/**
  `InitTables`, which every generation of the code base runs at the start of the
  transaction that replaces the stored movies. It creates the four entity tables unless
  they exist, clears them children first, then creates the two side tables that survive a
  reload: `coordinates` and the movie-info cache (`movie_info` in src/data/sqldb, `omdb`
  in the older packages). The copies differ only in that cache table's name.
*/
module Schema {
  import opened Wrappers
  import opened Database

  /** The text of a `CREATE TABLE IF NOT EXISTS`; the column definitions are elided. */
  function CreateText(name: TableName): string {
    "CREATE TABLE IF NOT EXISTS " + NameText(name) + " (...)"
  }

  /** The text of a `DELETE FROM`. */
  function DeleteText(name: TableName): string {
    "DELETE FROM " + NameText(name)
  }

  /** The foreign keys of the schema: which tables each table references. */
  function ParentsOf(name: TableName): set<TableName> {
    if name == Locations then {Movies}
    else if name == MoviesActors then {Movies, Actors}
    else {}
  }

  /** Creating a table as the schema defines it. */
  function CreateTable(name: TableName, autoId: bool): Statement {
    Statement(CreateText(name), Create(name, autoId, ParentsOf(name)))
  }

  function ClearTable(name: TableName): Statement {
    Statement(DeleteText(name), DeleteAll(name))
  }

  /** The four entity tables, parents before children. */
  function EntityCreates(): seq<Statement> {
    [CreateTable(Movies, true), CreateTable(Locations, true), CreateTable(Actors, true),
     CreateTable(MoviesActors, false)]
  }

  /** Clearing the entity tables, children before parents. */
  function EntityClears(): seq<Statement> {
    [ClearTable(MoviesActors), ClearTable(Actors), ClearTable(Locations), ClearTable(Movies)]
  }

  /** The two side tables that survive a reload. */
  function SideCreates(infoTable: TableName): seq<Statement> {
    [CreateTable(Coordinates, false), CreateTable(infoTable, false)]
  }

  /** The ten statements of `InitTables`, in the order the code sends them. */
  function InitScript(infoTable: TableName): seq<Statement> {
    EntityCreates() + EntityClears() + SideCreates(infoTable)
  }

  /** `InitTables(tx, logger)`; `infoTable` is the cache table the copy creates last. The
      code spells out the ten statements of `InitScript` one after the other, each
      followed by `if err != nil { return err }`; here that block runs once per statement.
      Logging is not modelled. */
  method InitTables(tx: Tx, infoTable: TableName) returns (err: Option<Error>)
    modifies tx
    ensures (tx.State(), err) == RunScript(old(tx.State()), InitScript(infoTable), tx.refused)
  {
    var script := InitScript(infoTable);
    ghost var outcome := RunScript(tx.State(), script, tx.refused);
    assert script[0..] == script;
    err := None;
    var i := 0;
    while i < |script|
      invariant 0 <= i <= |script|
      invariant outcome == RunScript(tx.State(), script[i..], tx.refused)
      invariant err == None
    {
      RunScriptUnfold(tx.State(), script[i..], tx.refused);
      assert script[i..][1..] == script[i + 1..];
      err := tx.Exec(script[i].sql, script[i].effect);
      if err.Some? {
        return;
      }
      i := i + 1;
    }
  }

  // ---------------------------------------------------------------------------
  // What InitTables achieves
  // ---------------------------------------------------------------------------

  /** Every existing table has the foreign keys the schema gives it: the database was
      created by this code base (or is empty). */
  ghost predicate Shaped(ts: Tables) {
    forall c :: c in ts ==> ts[c].parents == ParentsOf(c)
  }

  /** The tables after `CREATE TABLE IF NOT EXISTS name`. */
  function Ensured(ts: Tables, name: TableName, autoId: bool): Tables {
    if name in ts then ts else ts[name := Table(autoId, ParentsOf(name), [], 1)]
  }

  /** The tables after `DELETE FROM name`. */
  function Cleared(ts: Tables, name: TableName): Tables
    requires name in ts
  {
    ts[name := ts[name].(rows := [])]
  }

  lemma EnsuredShaped(ts: Tables, name: TableName, autoId: bool)
    requires Shaped(ts)
    ensures Shaped(Ensured(ts, name, autoId))
  {
  }

  lemma ClearedShaped(ts: Tables, name: TableName)
    requires Shaped(ts) && name in ts
    ensures Shaped(Cleared(ts, name))
  {
  }

  function WithEntityTables(ts: Tables): Tables {
    Ensured(Ensured(Ensured(Ensured(ts, Movies, true), Locations, true), Actors, true), MoviesActors, false)
  }

  function WithoutEntityRows(ts: Tables): Tables
    requires Movies in ts && Locations in ts && Actors in ts && MoviesActors in ts
  {
    Cleared(Cleared(Cleared(Cleared(ts, MoviesActors), Actors), Locations), Movies)
  }

  function WithSideTables(ts: Tables, info: TableName): Tables {
    Ensured(Ensured(ts, Coordinates, false), info, false)
  }

  /** The tables a successful `InitTables` leaves. */
  function InitResult(ts: Tables, info: TableName): Tables {
    WithSideTables(WithoutEntityRows(WithEntityTables(ts)), info)
  }

  lemma {:induction false} CreateEntities(ts: Tables)
    requires Shaped(ts)
    ensures ApplyAll(ts, EntityCreates()) == Success(WithEntityTables(ts))
    ensures Shaped(WithEntityTables(ts))
  {
    var script := EntityCreates();
    var t1 := Ensured(ts, Movies, true);
    var t2 := Ensured(t1, Locations, true);
    var t3 := Ensured(t2, Actors, true);
    var t4 := Ensured(t3, MoviesActors, false);
    assert ApplyAll(t3, script[3..]) == Success(t4);
    assert ApplyAll(t2, script[2..]) == Success(t4);
    assert ApplyAll(t1, script[1..]) == Success(t4);
    EnsuredShaped(ts, Movies, true);
    EnsuredShaped(t1, Locations, true);
    EnsuredShaped(t2, Actors, true);
    EnsuredShaped(t3, MoviesActors, false);
  }

  /** Clearing children before parents: no foreign key stops any of the four deletes. */
  lemma {:induction false} ClearEntities(t4: Tables)
    requires Shaped(t4) && Movies in t4 && Locations in t4 && Actors in t4 && MoviesActors in t4
    ensures ApplyAll(t4, EntityClears()) == Success(WithoutEntityRows(t4))
    ensures Shaped(WithoutEntityRows(t4))
  {
    var script := EntityClears();
    var t5 := Cleared(t4, MoviesActors);
    var t6 := Cleared(t5, Actors);
    var t7 := Cleared(t6, Locations);
    var t8 := Cleared(t7, Movies);
    ClearedShaped(t4, MoviesActors);
    ClearedShaped(t5, Actors);
    ClearedShaped(t6, Locations);
    ClearedShaped(t7, Movies);
    LeafUnreferenced(t4, MoviesActors);
    LeafUnreferenced(t6, Locations);
    ActorsUnreferenced(t5);
    MoviesUnreferenced(t7);
    assert script[4..] == [];
    ClearStep(t7, Movies, script[3..], t8);
    ClearStep(t6, Locations, script[2..], t8);
    ClearStep(t5, Actors, script[1..], t8);
    ClearStep(t4, MoviesActors, script, t8);
  }

  /** No table names `Locations` or `MoviesActors` as a parent. */
  lemma LeafUnreferenced(ts: Tables, name: TableName)
    requires Shaped(ts) && (name == Locations || name == MoviesActors)
    ensures !Referenced(ts, name)
  {
  }

  /** Once `MoviesActors` is empty, no row refers to an actor. */
  lemma ActorsUnreferenced(ts: Tables)
    requires Shaped(ts) && MoviesActors in ts && ts[MoviesActors].rows == []
    ensures !Referenced(ts, Actors)
  {
    forall c | c in ts && Actors in ts[c].parents ensures ts[c].rows == [] {
      assert c == MoviesActors;
    }
  }

  /** Once `Locations` and `MoviesActors` are empty, no row refers to a movie. */
  lemma MoviesUnreferenced(ts: Tables)
    requires Shaped(ts) && Locations in ts && MoviesActors in ts
    requires ts[Locations].rows == [] && ts[MoviesActors].rows == []
    ensures !Referenced(ts, Movies)
  {
    forall c | c in ts && Movies in ts[c].parents ensures ts[c].rows == [] {
      assert c == Locations || c == MoviesActors;
    }
  }

  /** A `DELETE` of a table nothing refers to, then the rest of the script. */
  lemma ClearStep(ts: Tables, name: TableName, script: seq<Statement>, final: Tables)
    requires script != [] && script[0] == ClearTable(name)
    requires name in ts && !Referenced(ts, name)
    requires ApplyAll(Cleared(ts, name), script[1..]) == Success(final)
    ensures ApplyAll(ts, script) == Success(final)
  {
  }

  lemma {:induction false} CreateSideTables(t8: Tables, info: TableName)
    ensures ApplyAll(t8, SideCreates(info)) == Success(WithSideTables(t8, info))
  {
    var script := SideCreates(info);
    var t9 := Ensured(t8, Coordinates, false);
    assert ApplyAll(t9, script[1..]) == Success(WithSideTables(t8, info));
  }

  /** On a database of this schema, the statements of `InitTables` are all accepted. */
  lemma InitScriptApplies(ts: Tables, info: TableName)
    requires Shaped(ts)
    ensures ApplyAll(ts, InitScript(info)) == Success(InitResult(ts, info))
  {
    var t4 := WithEntityTables(ts);
    CreateEntities(ts);
    ClearEntities(t4);
    var t8 := WithoutEntityRows(t4);
    CreateSideTables(t8, info);
    ApplyAllAppend(ts, EntityCreates() + EntityClears(), SideCreates(info));
    ApplyAllAppend(ts, EntityCreates(), EntityClears());
  }

  /** Whether `c` is one of the four tables `InitTables` clears. */
  predicate IsEntity(c: TableName) {
    c == Movies || c == Locations || c == Actors || c == MoviesActors
  }

  lemma EnsuredTable(ts: Tables, name: TableName, autoId: bool, c: TableName)
    ensures c in Ensured(ts, name, autoId) <==> c in ts || c == name
    ensures c in ts ==> Ensured(ts, name, autoId)[c] == ts[c]
    ensures c == name && c !in ts ==> Ensured(ts, name, autoId)[c].rows == []
  {
  }

  lemma ClearedTable(ts: Tables, name: TableName, c: TableName)
    requires name in ts
    ensures c in Cleared(ts, name) <==> c in ts
    ensures c == name ==> Cleared(ts, name)[c] == ts[c].(rows := [])
    ensures c != name && c in ts ==> Cleared(ts, name)[c] == ts[c]
  {
  }

  /** The tables after `InitTables`, one table `c` at a time: all six exist; the four
      entity tables are empty but otherwise as they were (their id counters in
      particular), or new; `coordinates`, the info table and every other table are as they
      were, or new and empty. */
  lemma InitResultTable(ts: Tables, info: TableName, c: TableName)
    requires info == MovieInfo || info == Omdb
    ensures c in InitResult(ts, info) <==> c in ts || IsEntity(c) || c == Coordinates || c == info
    ensures IsEntity(c) ==> InitResult(ts, info)[c].rows == []
    ensures IsEntity(c) && c in ts ==> InitResult(ts, info)[c] == ts[c].(rows := [])
    ensures !IsEntity(c) && c in ts ==> InitResult(ts, info)[c] == ts[c]
  {
    var t1 := Ensured(ts, Movies, true);
    var t2 := Ensured(t1, Locations, true);
    var t3 := Ensured(t2, Actors, true);
    var t4 := Ensured(t3, MoviesActors, false);
    EnsuredTable(ts, Movies, true, c);
    EnsuredTable(t1, Locations, true, c);
    EnsuredTable(t2, Actors, true, c);
    EnsuredTable(t3, MoviesActors, false, c);
    var t5 := Cleared(t4, MoviesActors);
    var t6 := Cleared(t5, Actors);
    var t7 := Cleared(t6, Locations);
    var t8 := Cleared(t7, Movies);
    ClearedTable(t4, MoviesActors, c);
    ClearedTable(t5, Actors, c);
    ClearedTable(t6, Locations, c);
    ClearedTable(t7, Movies, c);
    var t9 := Ensured(t8, Coordinates, false);
    EnsuredTable(t8, Coordinates, false, c);
    EnsuredTable(t9, info, false, c);
    assert InitResult(ts, info) == Ensured(t9, info, false);
  }

  /** On a database of this schema `InitTables` can only fail by a refused request. When
      none of its ten requests is refused it succeeds, sends all ten statements, and leaves
      the tables `InitResult` describes. */
  lemma InitTablesEffect(s: Session, info: TableName, refused: nat -> bool)
    requires Shaped(s.tables) && NoRefusals(refused, s.requests, 10)
    ensures RunScript(s, InitScript(info), refused) ==
      (Session(InitResult(s.tables, info), s.log + Texts(InitScript(info)), s.requests + 10), None)
  {
    var script := InitScript(info);
    InitScriptApplies(s.tables, info);
    RunScriptEffects(s, script, refused);
    RunScriptRequests(s, script, refused);
    RunScriptLog(s, script, refused);
    assert Texts(script)[..10] == Texts(script);
  }

  /** `InitTables` is idempotent: running it on its own result changes no table. */
  lemma InitResultIdempotent(ts: Tables, info: TableName)
    requires info == MovieInfo || info == Omdb
    ensures InitResult(InitResult(ts, info), info) == InitResult(ts, info)
  {
    var once := InitResult(ts, info);
    var twice := InitResult(once, info);
    forall c | true
      ensures c in twice <==> c in once
      ensures c in once ==> twice[c] == once[c]
    {
      InitResultTable(ts, info, c);
      InitResultTable(once, info, c);
    }
  }

  /** Running `InitTables` twice, with no request refused, leaves the same tables as
      running it once. */
  lemma InitTablesTwice(s: Session, info: TableName, refused: nat -> bool)
    requires Shaped(s.tables) && NoRefusals(refused, s.requests, 20)
    requires info == MovieInfo || info == Omdb
    ensures var once := RunScript(s, InitScript(info), refused).0;
      RunScript(once, InitScript(info), refused).0.tables == once.tables
  {
    InitTablesEffect(s, info, refused);
    var once := RunScript(s, InitScript(info), refused).0;
    InitScriptApplies(s.tables, info);
    assert Shaped(once.tables) by {
      var t4 := WithEntityTables(s.tables);
      CreateEntities(s.tables);
      ClearEntities(t4);
      var t8 := WithoutEntityRows(t4);
      EnsuredShaped(t8, Coordinates, false);
      EnsuredShaped(Ensured(t8, Coordinates, false), info, false);
    }
    InitTablesEffect(once, info, refused);
    InitResultIdempotent(s.tables, info);
  }

  /** Why the deletes go children first: while `locations` has rows, deleting the movies
      they reference is refused. */
  lemma ParentFirstRefused(ts: Tables)
    requires Shaped(ts) && Movies in ts && Locations in ts && ts[Locations].rows != []
    ensures Apply(ts, DeleteAll(Movies)) == Failure(StillReferenced(Movies))
  {
    assert Movies in ts[Locations].parents;
  }
}
