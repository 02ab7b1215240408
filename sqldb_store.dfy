/**
  Bulk storage of the current code (src/data/sqldb/store.go): `InsertMovies` writes all
  movies with one multi-row INSERT, reads their ids back by title, writes all locations,
  then each distinct actor, reads the actor ids back by name, and writes the movie/actor
  relation; `StoreMovies` runs `InitTables` and `InsertMovies` in one transaction;
  `StoreMovieInfo` writes a title-to-JSON map with one INSERT.
*/
module SqldbStore {
  import opened Wrappers
  import GoStrings
  import opened Database
  import opened SqlText
  import Schema
  import Types

  // ---------------------------------------------------------------------------
  // The rows each statement writes
  // ---------------------------------------------------------------------------

  /** The tuple `(NULL, '<title>', '<writer>', '<director>', '<distributor>',
      '<production company>', <release year>)` of a movie. */
  function MovieRow(m: Types.Movie): Row {
    [Null, Text(m.title), Text(m.writer), Text(m.director), Text(m.distributor),
     Text(m.productionCompany), Int(m.releaseYear)]
  }

  function MovieRows(ms: seq<Types.Movie>): (r: seq<Row>)
    ensures |r| == |ms|
  {
    seq(|ms|, i requires 0 <= i < |ms| => MovieRow(ms[i]))
  }

  /** `m[name]` on a Go map: the zero value when the name is missing. */
  function IdOf(ids: map<string, int>, name: string): int {
    if name in ids then ids[name] else 0
  }

  /** The tuple `(NULL, <movie id>, '<name>', '<fun fact>')` of a location. */
  function LocationRow(movieId: int, l: Types.Location): Row {
    [Null, Int(movieId), Text(l.name), Text(l.funFact)]
  }

  /** The location rows of one movie, under the id its title maps to. */
  function MovieLocationRows(m: Types.Movie, mids: map<string, int>): (r: seq<Row>)
    ensures |r| == |m.locations|
  {
    seq(|m.locations|, j requires 0 <= j < |m.locations| =>
      LocationRow(IdOf(mids, m.title), m.locations[j]))
  }

  /** The location rows of all movies, movie by movie. */
  function LocationRows(ms: seq<Types.Movie>, mids: map<string, int>): seq<Row>
  {
    if ms == [] then []
    else LocationRows(ms[..|ms| - 1], mids) + MovieLocationRows(ms[|ms| - 1], mids)
  }

  /** Every actor name of every movie, in order, repetitions included. */
  function ActorNames(ms: seq<Types.Movie>): seq<string>
  {
    if ms == [] then [] else ActorNames(ms[..|ms| - 1]) + ms[|ms| - 1].actors
  }

  /** The names of `xs` without repetitions, each where it first occurs. */
  function Distinct(xs: seq<string>): seq<string>
  {
    if xs == [] then []
    else
      var d := Distinct(xs[..|xs| - 1]);
      if xs[|xs| - 1] in d then d else d + [xs[|xs| - 1]]
  }

  function Elems<T>(xs: seq<T>): set<T> {
    set x | x in xs
  }

  /** The tuple `(NULL, '<name>')` of an actor. */
  function ActorRow(a: string): Row {
    [Null, Text(a)]
  }

  function ActorRows(names: seq<string>): (r: seq<Row>)
    ensures |r| == |names|
  {
    seq(|names|, k requires 0 <= k < |names| => ActorRow(names[k]))
  }

  /** The relation tuples `(<movie id>, <actor id>)` of one movie. */
  function MovieRelationRows(m: Types.Movie, mids: map<string, int>, aids: map<string, int>): (r: seq<Row>)
    ensures |r| == |m.actors|
  {
    seq(|m.actors|, j requires 0 <= j < |m.actors| =>
      [Int(IdOf(mids, m.title)), Int(IdOf(aids, m.actors[j]))])
  }

  function RelationRows(ms: seq<Types.Movie>, mids: map<string, int>, aids: map<string, int>): seq<Row>
  {
    if ms == [] then []
    else RelationRows(ms[..|ms| - 1], mids, aids) + MovieRelationRows(ms[|ms| - 1], mids, aids)
  }

  /** The `\n`-led tuples of `rows` joined by `,`: what each loop accumulates. */
  function ValuesText(rows: seq<Row>): string {
    GoStrings.Join(Tuples("\n", rows), ",")
  }

  /** The head of each bulk INSERT. */
  function InsertHead(name: TableName): string {
    match name
    case Movies => "INSERT INTO movies VALUES"
    case Locations => "INSERT INTO locations VALUES"
    case Actors => "INSERT INTO actors VALUES"
    case MoviesActors => "INSERT INTO movies_actors VALUES"
    case Coordinates => "INSERT INTO coordinates VALUES"
    case MovieInfo => "INSERT INTO movie_info VALUES"
    case Omdb => "INSERT INTO omdb VALUES"
  }

  /** `"INSERT INTO <table> VALUES" + vals`. */
  function InsertText(name: TableName, rows: seq<Row>): string {
    BulkText(InsertHead(name), "\n", ",", rows)
  }

  // ---------------------------------------------------------------------------
  // Reading ids back
  // ---------------------------------------------------------------------------

  const MovieIdsSql := "SELECT title, id FROM movies"
  const ActorIdsSql := "SELECT name, id FROM actors"

  /** `rows.Scan(&name, &id)` on the `(name, id)` projection of a row: the name is the
      row's second column and must be a string (NULL does not scan into a Go string), the
      id its first. */
  function ScanNameId(row: Row): Option<(string, int)> {
    if |row| >= 2 && row[1].Text? && row[0].Int? then Some((row[1].s, row[0].n)) else None
  }

  /** The map the scan loop fills, `m[name] = id` row after row; None when a row does not
      scan. */
  function IdsByName(rows: seq<Row>): Option<map<string, int>>
  {
    if rows == [] then Some(map[])
    else match IdsByName(rows[..|rows| - 1])
      case None => None
      case Some(m) =>
        match ScanNameId(rows[|rows| - 1])
        case None => None
        case Some(p) => Some(m[p.0 := p.1])
  }

  /** `movieTitleIdMap` / `actorIdMap`: the query, then the scan loop. */
  function QueryIds(s: Session, sql: string, name: TableName, refused: nat -> bool): (r: (Session, Result<map<string, int>, Error>))
    ensures r.0 == Sent(s, sql)
  {
    var (s1, q) := Select(s, sql, name, refused);
    match q
    case Failure(e) => (s1, Failure(e))
    case Success(rows) =>
      match IdsByName(rows)
      case None => (s1, Failure(ScanFailed))
      case Some(m) => (s1, Success(m))
  }

  // ---------------------------------------------------------------------------
  // InsertMovies
  // ---------------------------------------------------------------------------

  /** A bulk INSERT guarded by `count > 0`: nothing is sent for no rows. */
  function ExecBulk(s: Session, name: TableName, rows: seq<Row>, refused: nat -> bool): (Session, Option<Error>)
  {
    if rows == [] then (s, None)
    else Execute(s, InsertText(name, rows), Insert(name, rows), refused)
  }

  /** The movies' INSERT, then their ids. */
  function MoviesPhase(s: Session, ms: seq<Types.Movie>, refused: nat -> bool): (Session, Result<map<string, int>, Error>)
  {
    IdsPhase(s, Movies, MovieRows(ms), MovieIdsSql, refused)
  }

  /** A bulk INSERT into `name`, then the id map read back from it. */
  function IdsPhase(s: Session, name: TableName, rows: seq<Row>, sql: string, refused: nat -> bool): (Session, Result<map<string, int>, Error>)
  {
    var e := ExecBulk(s, name, rows, refused);
    if e.1.Some? then (e.0, Failure(e.1.value)) else QueryIds(e.0, sql, name, refused)
  }

  /** The locations' INSERT, then the actors' phase. */
  function ActorsPhase(s: Session, ms: seq<Types.Movie>, mids: map<string, int>, refused: nat -> bool): (Session, Result<map<string, int>, Error>)
  {
    var e := ExecBulk(s, Locations, LocationRows(ms, mids), refused);
    if e.1.Some? then (e.0, Failure(e.1.value)) else ActorIdsPhase(e.0, ms, refused)
  }

  /** The actors' INSERT, then their ids. */
  function ActorIdsPhase(s: Session, ms: seq<Types.Movie>, refused: nat -> bool): (Session, Result<map<string, int>, Error>)
  {
    IdsPhase(s, Actors, ActorRows(Distinct(ActorNames(ms))), ActorIdsSql, refused)
  }

  /** What `InsertMovies` does to a session: nothing for no movies; otherwise the phases
      in order, each stopping the whole at its first error. */
  function InsertMoviesRun(s: Session, ms: seq<Types.Movie>, refused: nat -> bool): (Session, Option<Error>)
  {
    if ms == [] then (s, None)
    else
      var p := MoviesPhase(s, ms, refused);
      if p.1.Failure? then (p.0, Some(p.1.error))
      else
        var q := ActorsPhase(p.0, ms, p.1.value, refused);
        if q.1.Failure? then (q.0, Some(q.1.error))
        else ExecBulk(q.0, MoviesActors, RelationRows(ms, p.1.value, q.1.value), refused)
  }

  /** The members of `Distinct(xs)` are those of `xs`. */
  lemma {:induction false} DistinctMembers(xs: seq<string>)
    ensures forall x :: x in Distinct(xs) <==> x in xs
  {
    if xs != [] {
      var init := xs[..|xs| - 1];
      DistinctMembers(init);
      assert xs == init + [xs[|xs| - 1]];
    }
  }

  /** One more name: `Distinct` grows by it exactly when it is new, and the set of names
      seen by it. */
  lemma DistinctSnoc(xs: seq<string>, a: string)
    ensures Distinct(xs + [a]) == if a in xs then Distinct(xs) else Distinct(xs) + [a]
    ensures Elems(xs + [a]) == Elems(xs) + {a}
  {
    assert (xs + [a])[..|xs|] == xs;
    DistinctMembers(xs);
  }

  lemma ElemsSnoc<T>(xs: seq<T>, a: T)
    ensures Elems(xs + [a]) == Elems(xs) + {a}
  {
  }

  lemma ActorRowsSnoc(names: seq<string>, a: string)
    ensures ActorRows(names + [a]) == ActorRows(names) + [ActorRow(a)]
  {
  }

  /** A row that does not scan ends the scan for good. */
  lemma {:induction false} IdsByNameStuck(rows: seq<Row>, i: nat)
    requires i <= |rows| && IdsByName(rows[..i]) == None
    ensures IdsByName(rows) == None
    decreases |rows| - i
  {
    if i < |rows| {
      assert rows[..i + 1][..i] == rows[..i];
      IdsByNameStuck(rows, i + 1);
    } else {
      assert rows[..i] == rows;
    }
  }

  /** Each loop's `if len(vals) > 0 { vals += "," }; vals += val`. */
  function Appended(vals: string, val: string): string {
    (if |vals| > 0 then vals + "," else vals) + val
  }

  /** The value list grows by one tuple as each loop grows it. */
  lemma ValuesSnoc(rows: seq<Row>, row: Row)
    ensures ValuesText(rows + [row]) == Appended(ValuesText(rows), Tuple("\n", row))
  {
    AppendTuple("\n", ",", rows, row, ValuesText(rows));
  }

  lemma PrefixSnoc<T>(done: seq<T>, xs: seq<T>, j: nat)
    requires j < |xs|
    ensures done + xs[..j + 1] == (done + xs[..j]) + [xs[j]]
  {
    assert xs[..j + 1] == xs[..j] + [xs[j]];
  }

  lemma MovieRowsSnoc(ms: seq<Types.Movie>, i: nat)
    requires i < |ms|
    ensures MovieRows(ms[..i + 1]) == MovieRows(ms[..i]) + [MovieRow(ms[i])]
  {
  }

  lemma LocationRowsSnoc(ms: seq<Types.Movie>, i: nat, mids: map<string, int>)
    requires i < |ms|
    ensures LocationRows(ms[..i + 1], mids) == LocationRows(ms[..i], mids) + MovieLocationRows(ms[i], mids)
  {
    assert ms[..i + 1][..i] == ms[..i];
  }

  lemma ActorNamesSnoc(ms: seq<Types.Movie>, i: nat)
    requires i < |ms|
    ensures ActorNames(ms[..i + 1]) == ActorNames(ms[..i]) + ms[i].actors
  {
    assert ms[..i + 1][..i] == ms[..i];
  }

  lemma RelationRowsSnoc(ms: seq<Types.Movie>, i: nat, mids: map<string, int>, aids: map<string, int>)
    requires i < |ms|
    ensures RelationRows(ms[..i + 1], mids, aids) == RelationRows(ms[..i], mids, aids) + MovieRelationRows(ms[i], mids, aids)
  {
    assert ms[..i + 1][..i] == ms[..i];
  }

  /** The first loop: one tuple per movie. */
  method MoviesValues(ms: seq<Types.Movie>) returns (vals: string)
    ensures vals == ValuesText(MovieRows(ms))
  {
    vals := "";
    for i := 0 to |ms|
      invariant vals == ValuesText(MovieRows(ms[..i]))
    {
      var row := MovieRow(ms[i]);
      ValuesSnoc(MovieRows(ms[..i]), row);
      MovieRowsSnoc(ms, i);
      vals := Appended(vals, Tuple("\n", row));
    }
    assert ms[..|ms|] == ms;
  }

  /** The second loop: one tuple per location of each movie, under the id its title maps
      to, and their count. */
  method LocationsValues(ms: seq<Types.Movie>, mids: map<string, int>) returns (vals: string, count: nat)
    ensures vals == ValuesText(LocationRows(ms, mids))
    ensures count == |LocationRows(ms, mids)|
  {
    vals := "";
    count := 0;
    for i := 0 to |ms|
      invariant vals == ValuesText(LocationRows(ms[..i], mids))
      invariant count == |LocationRows(ms[..i], mids)|
    {
      vals, count := MovieLocationsValues(ms[i], mids, vals, count, LocationRows(ms[..i], mids));
      LocationRowsSnoc(ms, i, mids);
    }
    assert ms[..|ms|] == ms;
  }

  /** The inner loop of the second: the tuples of one movie's locations appended to the
      list so far. */
  method MovieLocationsValues(m: Types.Movie, mids: map<string, int>, vals0: string, count0: nat, ghost done: seq<Row>)
    returns (vals: string, count: nat)
    requires vals0 == ValuesText(done) && count0 == |done|
    ensures vals == ValuesText(done + MovieLocationRows(m, mids))
    ensures count == |done| + |m.locations|
  {
    vals, count := vals0, count0;
    var mId := IdOf(mids, m.title);
    ghost var rows := done;
    for j := 0 to |m.locations|
      invariant rows == done + MovieLocationRows(m, mids)[..j]
      invariant vals == ValuesText(rows) && count == |rows|
    {
      var row := LocationRow(mId, m.locations[j]);
      ValuesSnoc(rows, row);
      PrefixSnoc(done, MovieLocationRows(m, mids), j);
      vals := Appended(vals, Tuple("\n", row));
      count := count + 1;
      rows := rows + [row];
    }
    assert MovieLocationRows(m, mids)[..|m.locations|] == MovieLocationRows(m, mids);
  }

  /** The third loop: one tuple per actor name not seen before, and the set of names
      seen. */
  method ActorsValues(ms: seq<Types.Movie>) returns (vals: string, seen: set<string>)
    ensures vals == ValuesText(ActorRows(Distinct(ActorNames(ms))))
    ensures seen == Elems(ActorNames(ms))
  {
    vals := "";
    seen := {};
    for i := 0 to |ms|
      invariant vals == ValuesText(ActorRows(Distinct(ActorNames(ms[..i]))))
      invariant seen == Elems(ActorNames(ms[..i]))
    {
      vals, seen := MovieActorsValues(ms[i], vals, seen, ActorNames(ms[..i]));
      ActorNamesSnoc(ms, i);
    }
    assert ms[..|ms|] == ms;
  }

  /** The inner loop of the third: one movie's actors not seen before appended to the list
      so far. */
  method MovieActorsValues(m: Types.Movie, vals0: string, seen0: set<string>, ghost done: seq<string>)
    returns (vals: string, seen: set<string>)
    requires vals0 == ValuesText(ActorRows(Distinct(done))) && seen0 == Elems(done)
    ensures vals == ValuesText(ActorRows(Distinct(done + m.actors)))
    ensures seen == Elems(done + m.actors)
  {
    vals, seen := vals0, seen0;
    ghost var names := done;
    for j := 0 to |m.actors|
      invariant names == done + m.actors[..j]
      invariant vals == ValuesText(ActorRows(Distinct(names))) && seen == Elems(names)
    {
      var a := m.actors[j];
      DistinctSnoc(names, a);
      PrefixSnoc(done, m.actors, j);
      if a !in seen {
        seen := seen + {a};
        ActorRowsSnoc(Distinct(names), a);
        ValuesSnoc(ActorRows(Distinct(names)), ActorRow(a));
        vals := Appended(vals, Tuple("\n", ActorRow(a)));
      }
      names := names + [a];
    }
    assert m.actors[..|m.actors|] == m.actors;
  }

  /** The fourth loop: one `(movie id, actor id)` tuple per actor of each movie, and
      their count. */
  method RelationsValues(ms: seq<Types.Movie>, mids: map<string, int>, aids: map<string, int>) returns (vals: string, count: nat)
    ensures vals == ValuesText(RelationRows(ms, mids, aids))
    ensures count == |RelationRows(ms, mids, aids)|
  {
    vals := "";
    count := 0;
    for i := 0 to |ms|
      invariant vals == ValuesText(RelationRows(ms[..i], mids, aids))
      invariant count == |RelationRows(ms[..i], mids, aids)|
    {
      vals, count := MovieRelationsValues(ms[i], mids, aids, vals, count, RelationRows(ms[..i], mids, aids));
      RelationRowsSnoc(ms, i, mids, aids);
    }
    assert ms[..|ms|] == ms;
  }

  /** The inner loop of the fourth: one movie's relation tuples appended to the list so
      far. */
  method MovieRelationsValues(m: Types.Movie, mids: map<string, int>, aids: map<string, int>,
                              vals0: string, count0: nat, ghost done: seq<Row>)
    returns (vals: string, count: nat)
    requires vals0 == ValuesText(done) && count0 == |done|
    ensures vals == ValuesText(done + MovieRelationRows(m, mids, aids))
    ensures count == |done| + |m.actors|
  {
    vals, count := vals0, count0;
    var mId := IdOf(mids, m.title);
    ghost var rows := done;
    for j := 0 to |m.actors|
      invariant rows == done + MovieRelationRows(m, mids, aids)[..j]
      invariant vals == ValuesText(rows) && count == |rows|
    {
      var aId := IdOf(aids, m.actors[j]);
      var row := [Int(mId), Int(aId)];
      ValuesSnoc(rows, row);
      PrefixSnoc(done, MovieRelationRows(m, mids, aids), j);
      vals := Appended(vals, Tuple("\n", row));
      count := count + 1;
      rows := rows + [row];
    }
    assert MovieRelationRows(m, mids, aids)[..|m.actors|] == MovieRelationRows(m, mids, aids);
  }

  /** `movieTitleIdMap` and `actorIdMap`: query the `(name, id)` pairs of a table and
      collect them, a later row overwriting an earlier one with the same name. */
  method NameIdMap(tx: Tx, sql: string, name: TableName) returns (r: Result<map<string, int>, Error>)
    modifies tx
    ensures (tx.State(), r) == QueryIds(old(tx.State()), sql, name, tx.refused)
  {
    var q := tx.Query(sql, name);
    if q.Failure? {
      return Failure(q.error);
    }
    var rows := q.value;
    var m := map[];
    for i := 0 to |rows|
      invariant IdsByName(rows[..i]) == Some(m)
    {
      assert rows[..i + 1][..i] == rows[..i];
      var p := ScanNameId(rows[i]);
      if p.None? {
        IdsByNameStuck(rows, i + 1);
        return Failure(ScanFailed);
      }
      m := m[p.value.0 := p.value.1];
    }
    assert rows[..|rows|] == rows;
    return Success(m);
  }

  /** `movieTitleIdMap(tx)`. */
  method MovieTitleIdMap(tx: Tx) returns (r: Result<map<string, int>, Error>)
    modifies tx
    ensures (tx.State(), r) == QueryIds(old(tx.State()), MovieIdsSql, Movies, tx.refused)
  {
    r := NameIdMap(tx, MovieIdsSql, Movies);
  }

  /** `actorIdMap(tx)`. */
  method ActorIdMap(tx: Tx) returns (r: Result<map<string, int>, Error>)
    modifies tx
    ensures (tx.State(), r) == QueryIds(old(tx.State()), ActorIdsSql, Actors, tx.refused)
  {
    r := NameIdMap(tx, ActorIdsSql, Actors);
  }

  /** A set has members exactly when the sequence it was taken from has. */
  lemma ElemsEmpty(xs: seq<string>)
    ensures |Elems(xs)| > 0 <==> Distinct(xs) != []
  {
    DistinctMembers(xs);
    if xs != [] {
      assert xs[0] in Elems(xs);
      assert xs[0] in Distinct(xs);
    } else {
      assert Elems(xs) == {};
    }
  }

  /** The movies' INSERT, then their ids. */
  method InsertMovieRows(tx: Tx, ms: seq<Types.Movie>) returns (r: Result<map<string, int>, Error>)
    requires ms != []
    modifies tx
    ensures (tx.State(), r) == MoviesPhase(old(tx.State()), ms, tx.refused)
  {
    var vals := MoviesValues(ms);
    if |ms| > 0 {
      var err := tx.Exec("INSERT INTO movies VALUES" + vals, Insert(Movies, MovieRows(ms)));
      if err.Some? {
        return Failure(err.value);
      }
    }
    r := MovieTitleIdMap(tx);
  }

  /** The locations' INSERT, then the actors' phase. */
  method InsertLocationAndActorRows(tx: Tx, ms: seq<Types.Movie>, mids: map<string, int>) returns (r: Result<map<string, int>, Error>)
    modifies tx
    ensures (tx.State(), r) == ActorsPhase(old(tx.State()), ms, mids, tx.refused)
  {
    var vals, count := LocationsValues(ms, mids);
    if count > 0 {
      var err := tx.Exec("INSERT INTO locations VALUES" + vals, Insert(Locations, LocationRows(ms, mids)));
      if err.Some? {
        return Failure(err.value);
      }
    }
    r := InsertActorRows(tx, ms);
  }

  /** The actors' INSERT, then their ids. */
  method InsertActorRows(tx: Tx, ms: seq<Types.Movie>) returns (r: Result<map<string, int>, Error>)
    modifies tx
    ensures (tx.State(), r) == ActorIdsPhase(old(tx.State()), ms, tx.refused)
  {
    ghost var s0 := tx.State();
    ghost var rows := ActorRows(Distinct(ActorNames(ms)));
    var vals, seen := ActorsValues(ms);
    ElemsEmpty(ActorNames(ms));
    assert |seen| > 0 <==> rows != [];
    if |seen| > 0 {
      var err := tx.Exec("INSERT INTO actors VALUES" + vals, Insert(Actors, ActorRows(Distinct(ActorNames(ms)))));
      IdsPhaseExecuted(s0, Actors, rows, ActorIdsSql, vals, tx.refused, tx.State(), err);
      if err.Some? {
        return Failure(err.value);
      }
    } else {
      assert rows == [];
    }
    r := ActorIdMap(tx);
  }

  /** The id phase once its INSERT, with the value list `vals` of its rows, has run. */
  lemma IdsPhaseExecuted(s0: Session, name: TableName, rows: seq<Row>, sql: string, vals: string, refused: nat -> bool,
                         s1: Session, err: Option<Error>)
    requires rows != [] && vals == ValuesText(rows)
    requires Execute(s0, InsertHead(name) + vals, Insert(name, rows), refused) == (s1, err)
    ensures IdsPhase(s0, name, rows, sql, refused) ==
      if err.Some? then (s1, Failure(err.value)) else QueryIds(s1, sql, name, refused)
  {
  }

  /** `InsertMovies(tx, ms)`. */
  method InsertMovies(tx: Tx, ms: seq<Types.Movie>) returns (err: Option<Error>)
    modifies tx
    ensures (tx.State(), err) == InsertMoviesRun(old(tx.State()), ms, tx.refused)
    ensures ms == [] ==> err.None? && tx.State() == old(tx.State())
  {
    if |ms| == 0 {
      return None;
    }
    var mids := InsertMovieRows(tx, ms);
    if mids.Failure? {
      return Some(mids.error);
    }
    var aids := InsertLocationAndActorRows(tx, ms, mids.value);
    if aids.Failure? {
      return Some(aids.error);
    }
    err := InsertRelationRows(tx, ms, mids.value, aids.value);
  }

  /** The movie/actor relation's INSERT. */
  method InsertRelationRows(tx: Tx, ms: seq<Types.Movie>, mids: map<string, int>, aids: map<string, int>) returns (err: Option<Error>)
    modifies tx
    ensures (tx.State(), err) == ExecBulk(old(tx.State()), MoviesActors, RelationRows(ms, mids, aids), tx.refused)
  {
    var relVals, relCount := RelationsValues(ms, mids, aids);
    if relCount > 0 {
      err := tx.Exec("INSERT INTO movies_actors VALUES" + relVals, Insert(MoviesActors, RelationRows(ms, mids, aids)));
      if err.Some? {
        return;
      }
    }
    return None;
  }

  // ---------------------------------------------------------------------------
  // The transactions
  // ---------------------------------------------------------------------------

  /** The callback of `StoreMovies`: `InitTables` with the `movie_info` side table, then
      `InsertMovies`. */
  function InitAndInsertRun(s: Session, ms: seq<Types.Movie>, refused: nat -> bool): (Session, Option<Error>)
  {
    var i := RunScript(s, Schema.InitScript(MovieInfo), refused);
    if i.1.Some? then i else InsertMoviesRun(i.0, ms, refused)
  }

  /** The closure `StoreMovies` hands to `transaction`. */
  method InitAndInsert(tx: Tx, ms: seq<Types.Movie>) returns (err: Option<Error>)
    modifies tx
    ensures (tx.State(), err) == InitAndInsertRun(old(tx.State()), ms, tx.refused)
  {
    err := Schema.InitTables(tx, MovieInfo);
    if err.Some? {
      return;
    }
    err := InsertMovies(tx, ms);
  }

  /** `StoreMovies(db, ms)` (and `InitTablesAndInsertMovies`, the same code): the tables
      are (re)initialised and the movies written in one transaction. */
  method StoreMovies(db: Db, ms: seq<Types.Movie>) returns (err: Option<Error>)
    modifies db
    ensures (db.tables, db.requests, err) == Transaction(old(db.tables), old(db.requests),
      InitAndInsertRun(TxStart(old(db.tables), old(db.requests)), ms, db.refused), db.refused)
  {
    var b := db.Begin();
    if b.Failure? {
      return Some(b.error);
    }
    var tx := b.value;
    assert tx.State() == TxStart(old(db.tables), old(db.requests));
    err := InitAndInsert(tx, ms);
    err := db.Settle(tx, err);
  }

  /** The tuple `('<title>', '<info JSON>')` of a `movie_info` row. */
  function InfoRow(info: map<string, string>, t: string): Row {
    [Text(t), Text(if t in info then info[t] else "")]
  }

  /** Every title and JSON text `StoreMovieInfo` quotes is `Plain`. */
  predicate PlainInfo(info: map<string, string>) {
    forall t :: t in info ==> Plain(t) && Plain(info[t])
  }

  function InfoRows(info: map<string, string>, titles: seq<string>): (r: seq<Row>)
    ensures |r| == |titles|
  {
    seq(|titles|, k requires 0 <= k < |titles| => InfoRow(info, titles[k]))
  }

  lemma InfoRowsSnoc(info: map<string, string>, titles: seq<string>, t: string)
    ensures InfoRows(info, titles + [t]) == InfoRows(info, titles) + [InfoRow(info, t)]
  {
  }

  /** The loop over the map: one tuple per entry, in the order the iteration visits the
      titles (`order`, which Go leaves unspecified). */
  method InfoValues(info: map<string, string>) returns (vals: string, order: seq<string>)
    ensures |order| == |info| && Elems(order) == info.Keys
    ensures vals == ValuesText(InfoRows(info, order))
  {
    var rest := info.Keys;
    order := [];
    vals := "";
    while rest != {}
      invariant rest !! Elems(order) && rest + Elems(order) == info.Keys
      invariant |order| == |Elems(order)|
      invariant vals == ValuesText(InfoRows(info, order))
      decreases |rest|
    {
      var t :| t in rest;
      vals := AppendInfo(info, order, vals, t);
      TakeOne(rest, order, t);
      order := order + [t];
      rest := rest - {t};
    }
  }

  /** Moving one title from the titles left to the titles visited keeps them apart, keeps
      their union, and visits no title twice. */
  lemma TakeOne(rest: set<string>, order: seq<string>, t: string)
    requires t in rest && rest !! Elems(order) && |order| == |Elems(order)|
    ensures (rest - {t}) !! Elems(order + [t]) && (rest - {t}) + Elems(order + [t]) == rest + Elems(order)
    ensures |order + [t]| == |Elems(order + [t])|
  {
    ElemsSnoc(order, t);
  }

  /** The body of that loop: the entry of `t` appended to the list so far. */
  method AppendInfo(info: map<string, string>, ghost order: seq<string>, vals0: string, t: string) returns (vals: string)
    requires t in info && vals0 == ValuesText(InfoRows(info, order))
    ensures vals == ValuesText(InfoRows(info, order + [t]))
  {
    var row := [Text(t), Text(info[t])];
    assert row == InfoRow(info, t);
    InfoRowsSnoc(info, order, t);
    ValuesSnoc(InfoRows(info, order), row);
    vals := Appended(vals0, Tuple("\n", row));
  }

  /** The closure `StoreMovieInfo` hands to `transaction`. */
  method InsertMovieInfo(tx: Tx, info: map<string, string>) returns (err: Option<Error>, ghost order: seq<string>)
    modifies tx
    ensures |order| == |info| && Elems(order) == info.Keys
    ensures (tx.State(), err) == ExecBulk(old(tx.State()), MovieInfo, InfoRows(info, order), tx.refused)
  {
    var vals, titles := InfoValues(info);
    order := titles;
    if |info| > 0 {
      err := tx.Exec("INSERT INTO movie_info VALUES" + vals, Insert(MovieInfo, InfoRows(info, titles)));
      if err.Some? {
        return;
      }
    }
    return None, order;
  }

  /** `StoreMovieInfo(db, movieInfo)`: nothing at all for an empty map; otherwise one
      transaction writing one row per entry. */
  method StoreMovieInfo(db: Db, info: map<string, string>) returns (err: Option<Error>, ghost order: seq<string>)
    modifies db
    ensures |info| == 0 ==> err.None? && db.tables == old(db.tables) && db.requests == old(db.requests)
    ensures |info| > 0 && !db.refused(old(db.requests)) ==> |order| == |info| && Elems(order) == info.Keys
    ensures |info| > 0 ==> (db.tables, db.requests, err) == Transaction(old(db.tables), old(db.requests),
      ExecBulk(TxStart(old(db.tables), old(db.requests)), MovieInfo, InfoRows(info, order), db.refused), db.refused)
  {
    order := [];
    if |info| == 0 {
      return None, order;
    }
    var b := db.Begin();
    if b.Failure? {
      return Some(b.error), order;
    }
    var tx := b.value;
    assert tx.State() == TxStart(old(db.tables), old(db.requests));
    err, order := InsertMovieInfo(tx, info);
    err := db.Settle(tx, err);
  }

  // ---------------------------------------------------------------------------
  // What the statements write
  // ---------------------------------------------------------------------------

  /** The index of the first occurrence of `x` in `xs`, `|xs|` when there is none. */
  function FirstIndex(xs: seq<string>, x: string): (k: nat)
    ensures k <= |xs| && (k < |xs| ==> xs[k] == x)
    ensures forall i :: 0 <= i < k ==> xs[i] != x
  {
    if xs == [] then 0 else if xs[0] == x then 0 else 1 + FirstIndex(xs[1..], x)
  }

  /** A name already in `xs` keeps its first index when another is appended. */
  lemma FirstIndexSnoc(xs: seq<string>, a: string, y: string)
    requires y in xs
    ensures FirstIndex(xs + [a], y) == FirstIndex(xs, y) < |xs|
  {
    var k := FirstIndex(xs, y);
    assert (xs + [a])[k] == y;
  }

  /** `Distinct` lists each name once. */
  lemma {:induction false} DistinctUnique(xs: seq<string>)
    ensures forall i, j :: 0 <= i < j < |Distinct(xs)| ==> Distinct(xs)[i] != Distinct(xs)[j]
  {
    if xs != [] {
      var init := xs[..|xs| - 1];
      DistinctUnique(init);
    }
  }

  /** `Distinct` lists the names in the order of their first occurrences. */
  lemma {:induction false} DistinctFirstSeen(xs: seq<string>)
    ensures forall i, j :: 0 <= i < j < |Distinct(xs)| ==>
      FirstIndex(xs, Distinct(xs)[i]) < FirstIndex(xs, Distinct(xs)[j])
  {
    if xs != [] {
      var init := xs[..|xs| - 1];
      var a := xs[|xs| - 1];
      assert xs == init + [a];
      DistinctFirstSeen(init);
      DistinctMembers(init);
      var d := Distinct(init);
      forall i | 0 <= i < |d| ensures FirstIndex(xs, d[i]) == FirstIndex(init, d[i]) < |init| {
        FirstIndexSnoc(init, a, d[i]);
      }
      if a !in d {
        assert FirstIndex(xs, a) == |init|;
      }
    }
  }

  /** The scan reads every row: the name column holds a string and the id column an
      integer. */
  predicate Scannable(rows: seq<Row>) {
    forall k :: 0 <= k < |rows| ==> ScanNameId(rows[k]).Some?
  }

  /** The (name, id) pairs a scannable result holds, in row order. */
  function Pairs(rows: seq<Row>): (r: seq<(string, int)>)
    requires Scannable(rows)
    ensures |r| == |rows|
  {
    seq(|rows|, k requires 0 <= k < |rows| => ScanNameId(rows[k]).value)
  }

  /** `m[name] = id` for each pair in turn. */
  function Assign(ps: seq<(string, int)>): map<string, int> {
    if ps == [] then map[] else Assign(ps[..|ps| - 1])[ps[|ps| - 1].0 := ps[|ps| - 1].1]
  }

  /** Filling a map pair by pair: every name is a key, every key is a name, and a name
      maps to the id of its LAST pair. */
  lemma AssignLastWins(ps: seq<(string, int)>)
    ensures forall k :: 0 <= k < |ps| ==> ps[k].0 in Assign(ps)
    ensures forall t :: t in Assign(ps) ==> exists k :: 0 <= k < |ps| && ps[k].0 == t
    ensures forall k :: 0 <= k < |ps| && (forall l :: k < l < |ps| ==> ps[l].0 != ps[k].0) ==>
      Assign(ps)[ps[k].0] == ps[k].1
  {
    AssignKeys(ps);
    AssignLast(ps);
  }

  /** The keys of the filled map are exactly the names of the pairs. */
  lemma {:induction false} AssignKeys(ps: seq<(string, int)>)
    ensures forall k :: 0 <= k < |ps| ==> ps[k].0 in Assign(ps)
    ensures forall t :: t in Assign(ps) ==> exists k :: 0 <= k < |ps| && ps[k].0 == t
  {
    if ps != [] {
      var n := |ps| - 1;
      var init := ps[..n];
      AssignKeys(init);
      assert forall k :: 0 <= k < n ==> init[k] == ps[k];
      assert Assign(ps) == Assign(init)[ps[n].0 := ps[n].1];
      forall t | t in Assign(ps) ensures exists k :: 0 <= k < |ps| && ps[k].0 == t {
        if t != ps[n].0 {
          var k :| 0 <= k < n && init[k].0 == t;
          assert ps[k].0 == t;
        }
      }
    }
  }

  /** A name whose pair is its last maps to that pair's id. */
  lemma {:induction false} AssignLast(ps: seq<(string, int)>)
    ensures forall k :: 0 <= k < |ps| && (forall l :: k < l < |ps| ==> ps[l].0 != ps[k].0) ==>
      ps[k].0 in Assign(ps) && Assign(ps)[ps[k].0] == ps[k].1
  {
    if ps != [] {
      var n := |ps| - 1;
      var init := ps[..n];
      AssignLast(init);
      AssignKeys(init);
      assert forall k :: 0 <= k < n ==> init[k] == ps[k];
      assert Assign(ps) == Assign(init)[ps[n].0 := ps[n].1];
      forall k | 0 <= k < |ps| && (forall l :: k < l < |ps| ==> ps[l].0 != ps[k].0)
        ensures ps[k].0 in Assign(ps) && Assign(ps)[ps[k].0] == ps[k].1
      {
        if k < n {
          assert ps[n].0 != ps[k].0;
          assert forall l :: k < l < n ==> init[l].0 != init[k].0;
        }
      }
    }
  }

  /** A scannable result always scans, into the map its pairs fill. */
  lemma {:induction false} IdsByNameScanned(rows: seq<Row>)
    requires Scannable(rows)
    ensures IdsByName(rows) == Some(Assign(Pairs(rows)))
  {
    if rows != [] {
      var init := rows[..|rows| - 1];
      assert forall k :: 0 <= k < |init| ==> init[k] == rows[k];
      IdsByNameScanned(init);
      assert Pairs(rows)[..|rows| - 1] == Pairs(init);
    }
  }

  /** The movie rows leave their ids to the auto-increment column, and once numbered
      they scan. */
  lemma {:induction false} MovieRowsScan(ms: seq<Types.Movie>, n: int)
    ensures AllAuto(MovieRows(ms)) && Scannable(NumberedFrom(MovieRows(ms), n))
  {
    var rows := NumberedFrom(MovieRows(ms), n);
    forall k | 0 <= k < |rows| ensures ScanNameId(rows[k]).Some? {
      assert rows[k] == Numbered(MovieRow(ms[k]), n + k);
    }
  }

  /** The actor rows leave their ids to the auto-increment column, and once numbered they
      scan. */
  lemma {:induction false} ActorRowsScan(names: seq<string>, n: int)
    ensures AllAuto(ActorRows(names)) && Scannable(NumberedFrom(ActorRows(names), n))
  {
    var rows := NumberedFrom(ActorRows(names), n);
    forall k | 0 <= k < |rows| ensures ScanNameId(rows[k]).Some? {
      assert rows[k] == Numbered(ActorRow(names[k]), n + k);
    }
  }

  /** The pairs the movie-id query reads after the movies were numbered from `n`. */
  lemma {:induction false} MoviePairs(ms: seq<Types.Movie>, n: int)
    ensures var rows := NumberedFrom(MovieRows(ms), n);
      Scannable(rows) && forall k :: 0 <= k < |ms| ==> Pairs(rows)[k] == (ms[k].title, n + k)
  {
    var rows := NumberedFrom(MovieRows(ms), n);
    forall k | 0 <= k < |rows| ensures ScanNameId(rows[k]) == Some((ms[k].title, n + k)) {
      assert rows[k] == Numbered(MovieRow(ms[k]), n + k);
    }
  }

  /** The ids read back after the movies were numbered from `n`: the keys are the titles,
      and a title that several movies share carries the id of the last of them. */
  lemma {:induction false} MovieIds(ms: seq<Types.Movie>, n: int)
    ensures var ids := IdsByName(NumberedFrom(MovieRows(ms), n));
      ids.Some? &&
      (forall t :: t in ids.value <==> exists i :: 0 <= i < |ms| && ms[i].title == t) &&
      forall i :: 0 <= i < |ms| && (forall j :: i < j < |ms| ==> ms[j].title != ms[i].title) ==>
        ids.value[ms[i].title] == n + i
  {
    var rows := NumberedFrom(MovieRows(ms), n);
    MoviePairs(ms, n);
    IdsByNameScanned(rows);
    MovieIdsAssigned(ms, n, Pairs(rows));
  }

  lemma {:induction false} MovieIdsAssigned(ms: seq<Types.Movie>, n: int, ps: seq<(string, int)>)
    requires |ps| == |ms| && forall k :: 0 <= k < |ms| ==> ps[k] == (ms[k].title, n + k)
    ensures forall t :: t in Assign(ps) <==> exists i :: 0 <= i < |ms| && ms[i].title == t
    ensures forall i :: 0 <= i < |ms| && (forall j :: i < j < |ms| ==> ms[j].title != ms[i].title) ==>
      Assign(ps)[ms[i].title] == n + i
  {
    AssignLastWins(ps);
    forall t | t in Assign(ps) ensures exists i :: 0 <= i < |ms| && ms[i].title == t {
      var k :| 0 <= k < |ps| && ps[k].0 == t;
      assert ms[k].title == t;
    }
    forall i | 0 <= i < |ms| && (forall j :: i < j < |ms| ==> ms[j].title != ms[i].title)
      ensures Assign(ps)[ms[i].title] == n + i
    {
      assert ps[i] == (ms[i].title, n + i);
      forall l | i < l < |ps| ensures ps[l].0 != ps[i].0 {
        assert ps[l] == (ms[l].title, n + l);
      }
    }
  }

  /** The pairs the actor-id query reads after the names were numbered from `n`. */
  lemma {:induction false} ActorPairs(names: seq<string>, n: int)
    ensures var rows := NumberedFrom(ActorRows(names), n);
      Scannable(rows) && forall k :: 0 <= k < |names| ==> Pairs(rows)[k] == (names[k], n + k)
  {
    var rows := NumberedFrom(ActorRows(names), n);
    forall k | 0 <= k < |rows| ensures ScanNameId(rows[k]) == Some((names[k], n + k)) {
      assert rows[k] == Numbered(ActorRow(names[k]), n + k);
    }
  }

  /** The ids read back after distinct actor names were numbered from `n`: each name has
      the id of its own row, and no other key is present. */
  lemma {:induction false} ActorIds(names: seq<string>, n: int)
    requires forall i, j :: 0 <= i < j < |names| ==> names[i] != names[j]
    ensures var ids := IdsByName(NumberedFrom(ActorRows(names), n));
      ids.Some? && ids.value.Keys == Elems(names) &&
      forall i :: 0 <= i < |names| ==> ids.value[names[i]] == n + i
  {
    var rows := NumberedFrom(ActorRows(names), n);
    ActorPairs(names, n);
    var ps := Pairs(rows);
    IdsByNameScanned(rows);
    AssignLastWins(ps);
    forall t | t in Assign(ps) ensures t in Elems(names) {
      var k :| 0 <= k < |ps| && ps[k].0 == t;
      assert names[k] == t;
    }
    forall i | 0 <= i < |names| ensures Assign(ps)[names[i]] == n + i {
      assert ps[i] == (names[i], n + i);
      forall l | i < l < |ps| ensures ps[l].0 != ps[i].0 {
        assert ps[l] == (names[l], n + l);
      }
    }
  }

  /** Where a movie's rows sit: the `j`-th location of movie `i` follows the location rows
      of the movies before it. */
  lemma {:induction false} LocationRowAt(ms: seq<Types.Movie>, mids: map<string, int>, i: nat, j: nat)
    requires i < |ms| && j < |ms[i].locations|
    ensures |LocationRows(ms[..i], mids)| + j < |LocationRows(ms, mids)|
    ensures LocationRows(ms, mids)[|LocationRows(ms[..i], mids)| + j] ==
      LocationRow(IdOf(mids, ms[i].title), ms[i].locations[j])
  {
    var init := ms[..|ms| - 1];
    if i == |ms| - 1 {
      assert ms[..i] == init;
    } else {
      LocationRowAt(init, mids, i, j);
      assert init[..i] == ms[..i] && init[i] == ms[i];
    }
  }

  /** The `j`-th relation row of movie `i` follows the relation rows of the movies before
      it. */
  lemma {:induction false} RelationRowAt(ms: seq<Types.Movie>, mids: map<string, int>, aids: map<string, int>, i: nat, j: nat)
    requires i < |ms| && j < |ms[i].actors|
    ensures |RelationRows(ms[..i], mids, aids)| + j < |RelationRows(ms, mids, aids)|
    ensures RelationRows(ms, mids, aids)[|RelationRows(ms[..i], mids, aids)| + j] ==
      [Int(IdOf(mids, ms[i].title)), Int(IdOf(aids, ms[i].actors[j]))]
  {
    var init := ms[..|ms| - 1];
    if i == |ms| - 1 {
      assert ms[..i] == init;
    } else {
      RelationRowAt(init, mids, aids, i, j);
      assert init[..i] == ms[..i] && init[i] == ms[i];
    }
  }

  /** Every location row leaves its id to the auto-increment column. */
  lemma {:induction false} LocationRowsAuto(ms: seq<Types.Movie>, mids: map<string, int>)
    ensures AllAuto(LocationRows(ms, mids))
  {
    if ms != [] {
      LocationRowsAuto(ms[..|ms| - 1], mids);
    }
  }

  /** The actor names are those of the movies' cast lists. */
  lemma {:induction false} ActorNamesMembers(ms: seq<Types.Movie>, i: nat, j: nat)
    requires i < |ms| && j < |ms[i].actors|
    ensures ms[i].actors[j] in ActorNames(ms)
  {
    var init := ms[..|ms| - 1];
    if i < |ms| - 1 {
      ActorNamesMembers(init, i, j);
      assert init[i] == ms[i];
    }
    assert ActorNames(ms) == ActorNames(init) + ms[|ms| - 1].actors;
  }

  /** The index of the last movie titled `t`, or -1. */
  function LastWithTitle(ms: seq<Types.Movie>, t: string): (k: int)
    ensures -1 <= k < |ms| && (k >= 0 ==> ms[k].title == t)
    ensures forall l :: k < l < |ms| ==> ms[l].title != t
  {
    if ms == [] then -1
    else if ms[|ms| - 1].title == t then |ms| - 1
    else LastWithTitle(ms[..|ms| - 1], t)
  }

  // ---------------------------------------------------------------------------
  // What InsertMovies does to the tables
  // ---------------------------------------------------------------------------

  /** The session after a bulk INSERT the server accepts: the rows added to their table
      and the statement logged; for no rows, nothing is sent. */
  function AfterBulk(s: Session, name: TableName, rows: seq<Row>): Session
    requires name in s.tables
  {
    if rows == [] then s
    else Session(s.tables[name := AddRows(s.tables[name], rows)], s.log + [InsertText(name, rows)], s.requests + 1)
  }

  lemma ExecBulkInserts(s: Session, name: TableName, rows: seq<Row>, refused: nat -> bool)
    requires name in s.tables && !refused(s.requests)
    ensures ExecBulk(s, name, rows, refused) == (AfterBulk(s, name, rows), None)
  {
  }

  /** The session after an id phase the server accepts: the INSERT, then the query. */
  function AfterIds(s: Session, name: TableName, rows: seq<Row>, sql: string): Session
    requires name in s.tables
  {
    Sent(AfterBulk(s, name, rows), sql)
  }

  /** An id phase that meets no refusal and whose rows scan yields the map of the table it
      filled. */
  lemma IdsPhaseReads(s: Session, name: TableName, rows: seq<Row>, sql: string, refused: nat -> bool)
    requires name in s.tables && NoRefusals(refused, s.requests, 2)
    requires IdsByName(AfterBulk(s, name, rows).tables[name].rows).Some?
    ensures IdsPhase(s, name, rows, sql, refused) ==
      (AfterIds(s, name, rows, sql), Success(IdsByName(AfterBulk(s, name, rows).tables[name].rows).value))
  {
    assert !refused(s.requests);
    ExecBulkInserts(s, name, rows, refused);
    var e := AfterBulk(s, name, rows);
    assert !refused(e.requests);
  }

  /** An auto-increment table without rows holds, after the INSERT, exactly the rows
      numbered from its next id; every other table is as it was. */
  lemma BulkNumbered(s: Session, name: TableName, rows: seq<Row>)
    requires name in s.tables && s.tables[name].autoId && s.tables[name].rows == [] && AllAuto(rows)
    ensures var t := s.tables[name];
      AfterBulk(s, name, rows).tables[name] == t.(rows := NumberedFrom(rows, t.nextId), nextId := t.nextId + |rows|)
  {
    var t := s.tables[name];
    AddRowsNumbered(t, rows);
    assert [] + NumberedFrom(rows, t.nextId) == NumberedFrom(rows, t.nextId);
    if rows == [] {
      assert NumberedFrom(rows, t.nextId) == [];
    }
  }

  /** A table that keeps its own ids gets the rows appended as they are. */
  lemma BulkVerbatim(s: Session, name: TableName, rows: seq<Row>)
    requires name in s.tables && !s.tables[name].autoId
    ensures AfterBulk(s, name, rows).tables[name] == s.tables[name].(rows := s.tables[name].rows + rows)
  {
    AddRowsVerbatim(s.tables[name], rows);
    if rows == [] {
      assert s.tables[name].rows + rows == s.tables[name].rows;
    }
  }

  /** An INSERT leaves every other table as it was. */
  lemma BulkFrame(s: Session, name: TableName, rows: seq<Row>, other: TableName)
    requires name in s.tables && other != name
    ensures other in AfterBulk(s, name, rows).tables <==> other in s.tables
    ensures other in s.tables ==> AfterBulk(s, name, rows).tables[other] == s.tables[other]
  {
  }

  /** The id map a scan yields, or the empty map for rows that do not scan. */
  function ScannedIds(rows: seq<Row>): map<string, int> {
    match IdsByName(rows)
    case Some(m) => m
    case None => map[]
  }

  /** The tables `InsertMovies` writes into, as `InitTables` leaves them: the four entity
      tables exist, the movies and actors tables are empty, the three entity tables number
      their rows themselves and the relation table does not. */
  predicate Ready(ts: Tables) {
    Movies in ts && Locations in ts && Actors in ts && MoviesActors in ts &&
    ts[Movies].autoId && ts[Movies].rows == [] && ts[Locations].autoId &&
    ts[Actors].autoId && ts[Actors].rows == [] && !ts[MoviesActors].autoId
  }

  /** The session after the movies' phase. */
  function AfterMovies(s: Session, ms: seq<Types.Movie>): Session
    requires Movies in s.tables
  {
    AfterIds(s, Movies, MovieRows(ms), MovieIdsSql)
  }

  /** The session after the locations' INSERT. */
  function AfterLocations(s1: Session, ms: seq<Types.Movie>): Session
    requires Movies in s1.tables && Locations in s1.tables
  {
    AfterBulk(s1, Locations, LocationRows(ms, ScannedIds(s1.tables[Movies].rows)))
  }

  /** The session after the actors' phase. */
  function AfterActors(s2: Session, ms: seq<Types.Movie>): Session
    requires Actors in s2.tables
  {
    AfterIds(s2, Actors, ActorRows(Distinct(ActorNames(ms))), ActorIdsSql)
  }

  /** The session after the relation's INSERT. */
  function AfterRelations(s3: Session, ms: seq<Types.Movie>): Session
    requires Movies in s3.tables && Actors in s3.tables && MoviesActors in s3.tables
  {
    AfterBulk(s3, MoviesActors,
      RelationRows(ms, ScannedIds(s3.tables[Movies].rows), ScannedIds(s3.tables[Actors].rows)))
  }

  /** Every text of a movie that `InsertMovies` quotes by hand (its five text columns,
      its location names and fun facts, its actors) is `Plain`: the only texts whose
      literals MySQL reads back as written (`SqlText.ReadEscaped`). */
  predicate PlainMovie(m: Types.Movie) {
    Plain(m.title) && Plain(m.writer) && Plain(m.director) && Plain(m.distributor) &&
    Plain(m.productionCompany) &&
    (forall l :: l in m.locations ==> Plain(l.name) && Plain(l.funFact)) &&
    (forall a :: a in m.actors ==> Plain(a))
  }

  predicate PlainTexts(ms: seq<Types.Movie>) {
    forall i :: 0 <= i < |ms| ==> PlainMovie(ms[i])
  }

  /** What a successful `InsertMovies` leaves. */
  function StoredSession(s: Session, ms: seq<Types.Movie>): Session
    requires Ready(s.tables)
  {
    var s1 := AfterMovies(s, ms);
    var s2 := AfterLocations(s1, ms);
    var s3 := AfterActors(s2, ms);
    AfterRelations(s3, ms)
  }

  /** The movies' phase on an empty movies table: the movies numbered from the table's next
      id, their ids read back, nothing else changed. */
  lemma MoviesStep(s: Session, ms: seq<Types.Movie>, refused: nat -> bool)
    requires Movies in s.tables && s.tables[Movies].autoId && s.tables[Movies].rows == []
    requires NoRefusals(refused, s.requests, 2)
    ensures var s1 := AfterMovies(s, ms);
      MoviesPhase(s, ms, refused) == (s1, Success(ScannedIds(s1.tables[Movies].rows))) &&
      s1.tables[Movies].rows == NumberedFrom(MovieRows(ms), s.tables[Movies].nextId) &&
      s.requests < s1.requests <= s.requests + 2
    ensures forall c :: c != Movies ==> (c in AfterMovies(s, ms).tables <==> c in s.tables)
    ensures forall c :: c != Movies && c in s.tables ==> AfterMovies(s, ms).tables[c] == s.tables[c]
  {
    var n := s.tables[Movies].nextId;
    MovieRowsScan(ms, n);
    BulkNumbered(s, Movies, MovieRows(ms));
    IdsByNameScanned(NumberedFrom(MovieRows(ms), n));
    IdsPhaseReads(s, Movies, MovieRows(ms), MovieIdsSql, refused);
    forall c | c != Movies
      ensures (c in AfterMovies(s, ms).tables <==> c in s.tables) &&
        (c in s.tables ==> AfterMovies(s, ms).tables[c] == s.tables[c])
    {
      BulkFrame(s, Movies, MovieRows(ms), c);
    }
  }

  /** The actors' phase on an empty actors table: the distinct names numbered from the
      table's next id, their ids read back, nothing else changed. */
  lemma ActorsStep(s2: Session, ms: seq<Types.Movie>, refused: nat -> bool)
    requires Actors in s2.tables && s2.tables[Actors].autoId && s2.tables[Actors].rows == []
    requires NoRefusals(refused, s2.requests, 2)
    ensures var s3 := AfterActors(s2, ms);
      ActorIdsPhase(s2, ms, refused) == (s3, Success(ScannedIds(s3.tables[Actors].rows))) &&
      s3.tables[Actors].rows == NumberedFrom(ActorRows(Distinct(ActorNames(ms))), s2.tables[Actors].nextId) &&
      s2.requests < s3.requests <= s2.requests + 2
    ensures forall c :: c != Actors ==> (c in AfterActors(s2, ms).tables <==> c in s2.tables)
    ensures forall c :: c != Actors && c in s2.tables ==> AfterActors(s2, ms).tables[c] == s2.tables[c]
  {
    var n := s2.tables[Actors].nextId;
    var names := Distinct(ActorNames(ms));
    ActorRowsScan(names, n);
    BulkNumbered(s2, Actors, ActorRows(names));
    IdsByNameScanned(NumberedFrom(ActorRows(names), n));
    IdsPhaseReads(s2, Actors, ActorRows(names), ActorIdsSql, refused);
    forall c | c != Actors
      ensures (c in AfterActors(s2, ms).tables <==> c in s2.tables) &&
        (c in s2.tables ==> AfterActors(s2, ms).tables[c] == s2.tables[c])
    {
      BulkFrame(s2, Actors, ActorRows(names), c);
    }
  }

  /** The locations' INSERT and the actors' phase, after the movies' phase: both succeed,
      and the movies table is left as it was. */
  lemma LocationsAndActorsStep(s1: Session, ms: seq<Types.Movie>, refused: nat -> bool)
    requires Movies in s1.tables && Locations in s1.tables && Actors in s1.tables && MoviesActors in s1.tables
    requires s1.tables[Actors].autoId && s1.tables[Actors].rows == []
    requires NoRefusals(refused, s1.requests, 3)
    ensures Actors in AfterLocations(s1, ms).tables
    ensures var s3 := AfterActors(AfterLocations(s1, ms), ms);
      ActorsPhase(s1, ms, ScannedIds(s1.tables[Movies].rows), refused) == (s3, Success(ScannedIds(s3.tables[Actors].rows))) &&
      Movies in s3.tables && MoviesActors in s3.tables &&
      s3.tables[Movies] == s1.tables[Movies] && s1.requests < s3.requests <= s1.requests + 3
  {
    var mids := ScannedIds(s1.tables[Movies].rows);
    assert !refused(s1.requests);
    ExecBulkInserts(s1, Locations, LocationRows(ms, mids), refused);
    var s2 := AfterLocations(s1, ms);
    BulkFrame(s1, Locations, LocationRows(ms, mids), Actors);
    BulkFrame(s1, Locations, LocationRows(ms, mids), Movies);
    BulkFrame(s1, Locations, LocationRows(ms, mids), MoviesActors);
    ActorsStep(s2, ms, refused);
  }

  /** When the server refuses none of its requests, `InsertMovies` on tables as
      `InitTables` leaves them succeeds and leaves `StoredSession`. */
  lemma InsertMoviesEffect(s: Session, ms: seq<Types.Movie>, refused: nat -> bool)
    requires ms != [] && Ready(s.tables) && NoRefusals(refused, s.requests, 6)
    requires PlainTexts(ms) && RelationsKeyed(s, ms)
    ensures InsertMoviesRun(s, ms, refused) == (StoredSession(s, ms), None)
  {
    MoviesStep(s, ms, refused);
    var s1 := AfterMovies(s, ms);
    LocationsAndActorsStep(s1, ms, refused);
    var s3 := AfterActors(AfterLocations(s1, ms), ms);
    var mids, aids := ScannedIds(s1.tables[Movies].rows), ScannedIds(s3.tables[Actors].rows);
    assert !refused(s3.requests);
    ExecBulkInserts(s3, MoviesActors, RelationRows(ms, mids, aids), refused);
    assert InsertMoviesRun(s, ms, refused) == ExecBulk(s3, MoviesActors, RelationRows(ms, mids, aids), refused);
    assert StoredSession(s, ms) == AfterRelations(s3, ms);
  }

  /** After `InsertMovies`, the movies table holds the movies numbered from its next id. */
  lemma StoredMovies(s: Session, ms: seq<Types.Movie>)
    requires Ready(s.tables) && PlainTexts(ms)
    ensures Movies in StoredSession(s, ms).tables
    ensures StoredSession(s, ms).tables[Movies].rows == NumberedFrom(MovieRows(ms), s.tables[Movies].nextId)
  {
    var s1 := AfterMovies(s, ms);
    MovieRowsScan(ms, s.tables[Movies].nextId);
    BulkNumbered(s, Movies, MovieRows(ms));
    BulkFrame(s, Movies, MovieRows(ms), Locations);
    BulkFrame(s, Movies, MovieRows(ms), Actors);
    BulkFrame(s, Movies, MovieRows(ms), MoviesActors);
    var mids := ScannedIds(s1.tables[Movies].rows);
    var s2 := AfterLocations(s1, ms);
    BulkFrame(s1, Locations, LocationRows(ms, mids), Movies);
    BulkFrame(s1, Locations, LocationRows(ms, mids), Actors);
    BulkFrame(s1, Locations, LocationRows(ms, mids), MoviesActors);
    var s3 := AfterActors(s2, ms);
    BulkFrame(s2, Actors, ActorRows(Distinct(ActorNames(ms))), Movies);
    BulkFrame(s2, Actors, ActorRows(Distinct(ActorNames(ms))), MoviesActors);
    var aids := ScannedIds(s3.tables[Actors].rows);
    BulkFrame(s3, MoviesActors, RelationRows(ms, mids, aids), Movies);
  }

  /** The ids `InsertMovies` reads back for the movies: those of the numbered movie rows. */
  function StoredMovieIds(s: Session, ms: seq<Types.Movie>): map<string, int>
    requires Movies in s.tables
  {
    ScannedIds(NumberedFrom(MovieRows(ms), s.tables[Movies].nextId))
  }

  /** The ids `InsertMovies` reads back for the actors: those of the numbered actor rows. */
  function StoredActorIds(s: Session, ms: seq<Types.Movie>): map<string, int>
    requires Actors in s.tables
  {
    ScannedIds(NumberedFrom(ActorRows(Distinct(ActorNames(ms))), s.tables[Actors].nextId))
  }

  /** After `InsertMovies`, the locations table holds its earlier rows, then every
      location numbered on from the table's next id, each under its movie's id. */
  lemma StoredLocations(s: Session, ms: seq<Types.Movie>)
    requires Ready(s.tables) && PlainTexts(ms)
    ensures Locations in StoredSession(s, ms).tables
    ensures var l := s.tables[Locations];
      StoredSession(s, ms).tables[Locations].rows ==
        l.rows + NumberedFrom(LocationRows(ms, StoredMovieIds(s, ms)), l.nextId)
  {
    var s1 := AfterMovies(s, ms);
    BulkNumbered(s, Movies, MovieRows(ms) + []);
    assert MovieRows(ms) + [] == MovieRows(ms);
    MovieRowsScan(ms, s.tables[Movies].nextId);
    BulkFrame(s, Movies, MovieRows(ms), Locations);
    var mids := ScannedIds(s1.tables[Movies].rows);
    assert mids == StoredMovieIds(s, ms);
    var s2 := AfterLocations(s1, ms);
    LocationRowsAuto(ms, mids);
    AddRowsNumbered(s1.tables[Locations], LocationRows(ms, mids));
    var s3 := AfterActors(s2, ms);
    BulkFrame(s2, Actors, ActorRows(Distinct(ActorNames(ms))), Locations);
    var aids := ScannedIds(s3.tables[Actors].rows);
    BulkFrame(s3, MoviesActors, RelationRows(ms, ScannedIds(s3.tables[Movies].rows), aids), Locations);
  }

  /** After `InsertMovies`, the actors table holds each distinct actor once, in the
      order first met, numbered from the table's next id. */
  lemma StoredActors(s: Session, ms: seq<Types.Movie>)
    requires Ready(s.tables) && PlainTexts(ms)
    ensures Actors in StoredSession(s, ms).tables
    ensures StoredSession(s, ms).tables[Actors].rows ==
      NumberedFrom(ActorRows(Distinct(ActorNames(ms))), s.tables[Actors].nextId)
  {
    var s1 := AfterMovies(s, ms);
    BulkFrame(s, Movies, MovieRows(ms), Actors);
    BulkFrame(s, Movies, MovieRows(ms), Locations);
    var mids := ScannedIds(s1.tables[Movies].rows);
    var s2 := AfterLocations(s1, ms);
    BulkFrame(s1, Locations, LocationRows(ms, mids), Actors);
    var names := Distinct(ActorNames(ms));
    ActorRowsScan(names, s.tables[Actors].nextId);
    BulkNumbered(s2, Actors, ActorRows(names));
    var s3 := AfterActors(s2, ms);
    var aids := ScannedIds(s3.tables[Actors].rows);
    BulkFrame(s3, MoviesActors, RelationRows(ms, ScannedIds(s3.tables[Movies].rows), aids), Actors);
  }

  /** After `InsertMovies`, the movie-actor table holds its earlier rows, then one
      `(movie id, actor id)` pair per actor of each movie, with the ids read back. */
  lemma StoredRelations(s: Session, ms: seq<Types.Movie>)
    requires Ready(s.tables) && PlainTexts(ms)
    ensures MoviesActors in StoredSession(s, ms).tables
    ensures StoredSession(s, ms).tables[MoviesActors].rows ==
      s.tables[MoviesActors].rows + RelationRows(ms, StoredMovieIds(s, ms), StoredActorIds(s, ms))
  {
    var s1 := AfterMovies(s, ms);
    BulkNumbered(s, Movies, MovieRows(ms));
    MovieRowsScan(ms, s.tables[Movies].nextId);
    BulkFrame(s, Movies, MovieRows(ms), MoviesActors);
    BulkFrame(s, Movies, MovieRows(ms), Actors);
    BulkFrame(s, Movies, MovieRows(ms), Locations);
    var mids := ScannedIds(s1.tables[Movies].rows);
    var s2 := AfterLocations(s1, ms);
    BulkFrame(s1, Locations, LocationRows(ms, mids), MoviesActors);
    BulkFrame(s1, Locations, LocationRows(ms, mids), Actors);
    BulkFrame(s1, Locations, LocationRows(ms, mids), Movies);
    var names := Distinct(ActorNames(ms));
    ActorRowsScan(names, s.tables[Actors].nextId);
    BulkNumbered(s2, Actors, ActorRows(names));
    var s3 := AfterActors(s2, ms);
    BulkFrame(s2, Actors, ActorRows(names), MoviesActors);
    BulkFrame(s2, Actors, ActorRows(names), Movies);
    var aids := ScannedIds(s3.tables[Actors].rows);
    BulkVerbatim(s3, MoviesActors, RelationRows(ms, mids, aids));
  }

  /** The id a movie's title is resolved to is that of the last movie row with the title. */
  lemma {:induction false} MovieIdOf(ms: seq<Types.Movie>, n: int, i: nat)
    requires i < |ms|
    ensures var k := LastWithTitle(ms, ms[i].title);
      i <= k && IdOf(ScannedIds(NumberedFrom(MovieRows(ms), n)), ms[i].title) == n + k
  {
    var k := LastWithTitle(ms, ms[i].title);
    MovieIds(ms, n);
    assert ms[k].title == ms[i].title;
  }

  /** The id an actor of a movie is resolved to is that of the actor's one row: the
      position of the name among the distinct names, counted on from `n`. */
  lemma {:induction false} ActorIdOf(ms: seq<Types.Movie>, n: int, i: nat, j: nat)
    requires i < |ms| && j < |ms[i].actors|
    ensures var names := Distinct(ActorNames(ms)); var k := FirstIndex(names, ms[i].actors[j]);
      k < |names| && names[k] == ms[i].actors[j] &&
      IdOf(ScannedIds(NumberedFrom(ActorRows(names), n)), ms[i].actors[j]) == n + k
  {
    var names := Distinct(ActorNames(ms));
    ActorNamesMembers(ms, i, j);
    DistinctMembers(ActorNames(ms));
    DistinctUnique(ActorNames(ms));
    ActorIds(names, n);
  }

  /** The `p`-th of the rows numbered from `n` after `before`. */
  lemma NumberedAppendedAt(before: seq<Row>, rows: seq<Row>, n: int, p: nat)
    requires p < |rows|
    ensures (before + NumberedFrom(rows, n))[|before| + p] == Numbered(rows[p], n + p)
  {
  }

  /** Where a location lands among the numbered rows after `before`, and which movie row its
      id names: the row of the last movie with its movie's title. */
  lemma {:induction false} LocationRowRefers(ms: seq<Types.Movie>, n: int, before: seq<Row>, l: int, i: nat, j: nat)
    requires i < |ms| && j < |ms[i].locations|
    ensures var mids := ScannedIds(NumberedFrom(MovieRows(ms), n));
      var p := |LocationRows(ms[..i], mids)| + j;
      var k := LastWithTitle(ms, ms[i].title);
      var lrows := before + NumberedFrom(LocationRows(ms, mids), l);
      i <= k && ms[k].title == ms[i].title &&
      NumberedFrom(MovieRows(ms), n)[k] == Numbered(MovieRow(ms[k]), n + k) &&
      |before| + p < |lrows| &&
      lrows[|before| + p] == Numbered(LocationRow(n + k, ms[i].locations[j]), l + p)
  {
    var mids := ScannedIds(NumberedFrom(MovieRows(ms), n));
    MovieIdOf(ms, n, i);
    LocationRowAt(ms, mids, i, j);
    var rows := LocationRows(ms, mids);
    var p := |LocationRows(ms[..i], mids)| + j;
    var k := LastWithTitle(ms, ms[i].title);
    assert MovieRows(ms)[k] == MovieRow(ms[k]);
    assert NumberedFrom(MovieRows(ms), n)[k] == Numbered(MovieRows(ms)[k], n + k);
    assert rows[p] == LocationRow(n + k, ms[i].locations[j]);
    NumberedAppendedAt(before, rows, l, p);
  }

  /** Where a relation row lands after `before`, and which ids it holds: that of the
      last movie with its movie's title (numbered from `n`) and that of its actor's one row
      (numbered from `a`). */
  lemma {:induction false} RelationRowRefers(ms: seq<Types.Movie>, n: int, a: int, before: seq<Row>, i: nat, j: nat)
    requires i < |ms| && j < |ms[i].actors|
    ensures var mids := ScannedIds(NumberedFrom(MovieRows(ms), n));
      var names := Distinct(ActorNames(ms));
      var aids := ScannedIds(NumberedFrom(ActorRows(names), a));
      var p := |RelationRows(ms[..i], mids, aids)| + j;
      var k := LastWithTitle(ms, ms[i].title); var x := FirstIndex(names, ms[i].actors[j]);
      var rrows := before + RelationRows(ms, mids, aids);
      i <= k && ms[k].title == ms[i].title && x < |names| && names[x] == ms[i].actors[j] &&
      |before| + p < |rrows| && rrows[|before| + p] == [Int(n + k), Int(a + x)]
  {
    var mids := ScannedIds(NumberedFrom(MovieRows(ms), n));
    var names := Distinct(ActorNames(ms));
    var aids := ScannedIds(NumberedFrom(ActorRows(names), a));
    var k := LastWithTitle(ms, ms[i].title);
    var x := FirstIndex(names, ms[i].actors[j]);
    assert i <= k && IdOf(mids, ms[i].title) == n + k by { MovieIdOf(ms, n, i); }
    assert x < |names| && IdOf(aids, ms[i].actors[j]) == a + x by { ActorIdOf(ms, a, i, j); }
    RelationRowPlaced(ms, mids, aids, before, i, j, n + k, a + x);
  }

  /** The relation row of actor `j` of movie `i` after `before`, given the ids it resolves to. */
  lemma RelationRowPlaced(ms: seq<Types.Movie>, mids: map<string, int>, aids: map<string, int>,
                          before: seq<Row>, i: nat, j: nat, mid: int, aid: int)
    requires i < |ms| && j < |ms[i].actors|
    requires IdOf(mids, ms[i].title) == mid && IdOf(aids, ms[i].actors[j]) == aid
    ensures var p := |RelationRows(ms[..i], mids, aids)| + j;
      var rrows := before + RelationRows(ms, mids, aids);
      |before| + p < |rrows| && rrows[|before| + p] == [Int(mid), Int(aid)]
  {
    var rows := RelationRows(ms, mids, aids);
    RelationRowAt(ms, mids, aids, i, j);
    AppendedAt(before, rows, |RelationRows(ms[..i], mids, aids)| + j, [Int(mid), Int(aid)]);
  }

  /** The `p`-th row of `rows` after `before`. */
  lemma AppendedAt(before: seq<Row>, rows: seq<Row>, p: nat, row: Row)
    requires p < |rows| && rows[p] == row
    ensures |before| + p < |before + rows| && (before + rows)[|before| + p] == row
  {
  }

  // ---------------------------------------------------------------------------
  // The primary key of movies_actors
  // ---------------------------------------------------------------------------

  /** No two rows alike. The key `(movie_id, actor_id)` of `movies_actors` is the whole
      row, so the server accepts the relation INSERT only for such rows. */
  predicate DistinctRows(rows: seq<Row>) {
    forall p, q :: 0 <= p < q < |rows| ==> rows[p] != rows[q]
  }

  /** No name twice in a list. */
  predicate NoRepeats(xs: seq<string>) {
    forall p, q :: 0 <= p < q < |xs| ==> xs[p] != xs[q]
  }

  /** No two movies with one title, and no actor twice in one cast. */
  predicate KeysUnique(ms: seq<Types.Movie>) {
    (forall p, q :: 0 <= p < q < |ms| ==> ms[p].title != ms[q].title) &&
    (forall i :: 0 <= i < |ms| ==> NoRepeats(ms[i].actors))
  }

  /** The relation rows `InsertMovies` writes on session `s` respect the key. */
  predicate RelationsKeyed(s: Session, ms: seq<Types.Movie>)
    requires Movies in s.tables && Actors in s.tables
  {
    DistinctRows(RelationRows(ms, StoredMovieIds(s, ms), StoredActorIds(s, ms)))
  }

  /** The input that breaks the key: a movie naming one actor in two slots gives two equal
      relation rows, whatever ids are read back, so the server refuses the relation INSERT
      and `StoreMovies` rolls back. */
  lemma RepeatedActorBreaksKey(ms: seq<Types.Movie>, mids: map<string, int>, aids: map<string, int>,
                               i: nat, j1: nat, j2: nat)
    requires i < |ms| && j1 < j2 < |ms[i].actors| && ms[i].actors[j1] == ms[i].actors[j2]
    ensures !DistinctRows(RelationRows(ms, mids, aids))
  {
    RelationRowAt(ms, mids, aids, i, j1);
    RelationRowAt(ms, mids, aids, i, j2);
  }

  /** Which movie and which actor slot the `p`-th relation row comes from. */
  lemma {:induction false} RelationRowOf(ms: seq<Types.Movie>, mids: map<string, int>, aids: map<string, int>, p: nat)
    returns (i: nat, j: nat)
    requires p < |RelationRows(ms, mids, aids)|
    ensures i < |ms| && j < |ms[i].actors| && p == |RelationRows(ms[..i], mids, aids)| + j
    ensures RelationRows(ms, mids, aids)[p] == [Int(IdOf(mids, ms[i].title)), Int(IdOf(aids, ms[i].actors[j]))]
  {
    var init := ms[..|ms| - 1];
    var before := RelationRows(init, mids, aids);
    if p < |before| {
      i, j := RelationRowOf(init, mids, aids, p);
      assert init[..i] == ms[..i] && init[i] == ms[i];
    } else {
      i, j := |ms| - 1, p - |before|;
      assert ms[..i] == init;
    }
  }

  /** Movies whose titles resolve to distinct ids, each naming actors whose names resolve
      to distinct ids, give distinct relation rows. */
  lemma RelationRowsDistinct(ms: seq<Types.Movie>, mids: map<string, int>, aids: map<string, int>)
    requires forall p, q :: 0 <= p < q < |ms| ==> IdOf(mids, ms[p].title) != IdOf(mids, ms[q].title)
    requires forall i, j1, j2 :: 0 <= i < |ms| && 0 <= j1 < j2 < |ms[i].actors| ==>
      IdOf(aids, ms[i].actors[j1]) != IdOf(aids, ms[i].actors[j2])
    ensures DistinctRows(RelationRows(ms, mids, aids))
  {
    var rows := RelationRows(ms, mids, aids);
    forall p, q | 0 <= p < q < |rows| ensures rows[p] != rows[q] {
      var i1, j1 := RelationRowOf(ms, mids, aids, p);
      var i2, j2 := RelationRowOf(ms, mids, aids, q);
      if i1 == i2 {
        assert j1 != j2;
        assert rows[p][1] != rows[q][1];
      } else {
        assert rows[p][0] != rows[q][0];
      }
    }
  }

  /** With distinct titles and casts that name no actor twice, the relation rows
      `InsertMovies` writes respect the key: the condition under which the server accepts
      them. */
  lemma UniqueKeysKeyed(s: Session, ms: seq<Types.Movie>)
    requires Movies in s.tables && Actors in s.tables && KeysUnique(ms)
    ensures RelationsKeyed(s, ms)
  {
    var n, a := s.tables[Movies].nextId, s.tables[Actors].nextId;
    var mids, aids := StoredMovieIds(s, ms), StoredActorIds(s, ms);
    forall p, q | 0 <= p < q < |ms| ensures IdOf(mids, ms[p].title) != IdOf(mids, ms[q].title) {
      MovieIdOf(ms, n, p);
      MovieIdOf(ms, n, q);
    }
    forall i, j1, j2 | 0 <= i < |ms| && 0 <= j1 < j2 < |ms[i].actors|
      ensures IdOf(aids, ms[i].actors[j1]) != IdOf(aids, ms[i].actors[j2])
    {
      ActorIdOf(ms, a, i, j1);
      ActorIdOf(ms, a, i, j2);
    }
    RelationRowsDistinct(ms, mids, aids);
  }

  /** Each cast with repeated names dropped, in first-seen order: the movies whose
      relation rows the loop should write. */
  function DistinctCasts(ms: seq<Types.Movie>): (r: seq<Types.Movie>)
    ensures |r| == |ms|
  {
    seq(|ms|, i requires 0 <= i < |ms| => ms[i].(actors := Distinct(ms[i].actors)))
  }

  /** Dropping repeated names keeps every title and every actor of each cast, and leaves
      titles that were distinct with keys the server accepts. */
  lemma DistinctCastsUnique(ms: seq<Types.Movie>)
    requires forall p, q :: 0 <= p < q < |ms| ==> ms[p].title != ms[q].title
    ensures KeysUnique(DistinctCasts(ms))
    ensures forall i :: 0 <= i < |ms| ==>
      DistinctCasts(ms)[i].title == ms[i].title && Elems(DistinctCasts(ms)[i].actors) == Elems(ms[i].actors)
  {
    forall i | 0 <= i < |ms|
      ensures NoRepeats(DistinctCasts(ms)[i].actors) &&
        Elems(DistinctCasts(ms)[i].actors) == Elems(ms[i].actors)
    {
      DistinctUnique(ms[i].actors);
      DistinctMembers(ms[i].actors);
    }
  }

  /** `InsertMovies` touches only the four entity tables. */
  lemma {:induction false} StoredOthers(s: Session, ms: seq<Types.Movie>, other: TableName)
    requires Ready(s.tables)
    requires other != Movies && other != Locations && other != Actors && other != MoviesActors
    ensures other in StoredSession(s, ms).tables <==> other in s.tables
    ensures other in s.tables ==> StoredSession(s, ms).tables[other] == s.tables[other]
  {
    var s1 := AfterMovies(s, ms);
    BulkFrame(s, Movies, MovieRows(ms), other);
    var mids := ScannedIds(s1.tables[Movies].rows);
    var s2 := AfterLocations(s1, ms);
    BulkFrame(s1, Locations, LocationRows(ms, mids), other);
    BulkFrame(s1, Locations, LocationRows(ms, mids), Movies);
    var names := Distinct(ActorNames(ms));
    var s3 := AfterActors(s2, ms);
    BulkFrame(s2, Actors, ActorRows(names), other);
    BulkFrame(s2, Actors, ActorRows(names), Movies);
    var aids := ScannedIds(s3.tables[Actors].rows);
    BulkFrame(s3, MoviesActors, RelationRows(ms, mids, aids), other);
  }

  /** `InsertMovies` sends between two requests (the movies' INSERT and the title query)
      and six (every statement of it). */
  lemma StoredRequests(s: Session, ms: seq<Types.Movie>)
    requires Ready(s.tables) && ms != []
    ensures s.requests + 2 <= StoredSession(s, ms).requests <= s.requests + 6
  {
    var s1 := AfterMovies(s, ms);
    assert s.requests + 2 == s1.requests;
    var s2 := AfterLocations(s1, ms);
    assert s1.requests <= s2.requests <= s1.requests + 1;
    var s3 := AfterActors(s2, ms);
    assert s2.requests + 1 <= s3.requests <= s2.requests + 2;
  }

  /** The auto-increment setting of each entity table as the schema creates it: the
      movies, locations and actors tables number their rows, the relation table does not. */
  predicate Keyed(ts: Tables) {
    (Movies in ts ==> ts[Movies].autoId) && (Locations in ts ==> ts[Locations].autoId) &&
    (Actors in ts ==> ts[Actors].autoId) && (MoviesActors in ts ==> !ts[MoviesActors].autoId)
  }

  /** `InitTables` leaves the tables `InsertMovies` expects. */
  lemma InitReady(ts: Tables)
    requires Keyed(ts)
    ensures Ready(Schema.InitResult(ts, MovieInfo)) && Keyed(Schema.InitResult(ts, MovieInfo))
  {
    var r := Schema.InitResult(ts, MovieInfo);
    Schema.InitResultTable(ts, MovieInfo, Movies);
    Schema.InitResultTable(ts, MovieInfo, Locations);
    Schema.InitResultTable(ts, MovieInfo, Actors);
    Schema.InitResultTable(ts, MovieInfo, MoviesActors);
  }

  /** The session `InsertMovies` starts from inside `StoreMovies`: the tables as
      `InitTables` leaves them, after `Begin` and the ten statements of `InitTables`. */
  function InitSession(ts: Tables, requests: nat): Session {
    Session(Schema.InitResult(ts, MovieInfo), Texts(Schema.InitScript(MovieInfo)), requests + 11)
  }

  /** Inside `StoreMovies`, on a database of this schema and with none of its requests
      refused, `InitTables` succeeds and leaves the tables `InsertMovies` expects. */
  lemma StoreMoviesInit(ts: Tables, requests: nat, refused: nat -> bool)
    requires Schema.Shaped(ts) && Keyed(ts) && NoRefusals(refused, requests + 1, 10)
    ensures RunScript(TxStart(ts, requests), Schema.InitScript(MovieInfo), refused) ==
      (InitSession(ts, requests), None)
    ensures Ready(InitSession(ts, requests).tables)
  {
    Schema.InitTablesEffect(TxStart(ts, requests), MovieInfo, refused);
    assert [] + Texts(Schema.InitScript(MovieInfo)) == Texts(Schema.InitScript(MovieInfo));
    InitReady(ts);
  }

  /** Once `InitTables` has left session `i`, `StoreMovies` with none of its requests
      refused commits exactly what `InsertMovies` writes into `i`. */
  lemma StoreMoviesCommits(ts: Tables, requests: nat, i: Session, ms: seq<Types.Movie>, refused: nat -> bool)
    requires RunScript(TxStart(ts, requests), Schema.InitScript(MovieInfo), refused) == (i, None)
    requires Ready(i.tables) && ms != [] && !refused(requests) && NoRefusals(refused, i.requests, 7)
    requires PlainTexts(ms) && RelationsKeyed(i, ms)
    ensures Transaction(ts, requests, InitAndInsertRun(TxStart(ts, requests), ms, refused), refused) ==
      (StoredSession(i, ms).tables, StoredSession(i, ms).requests + 1, None)
  {
    InitAndInsertEffect(TxStart(ts, requests), i, ms, refused);
    StoredRequests(i, ms);
    Commits(ts, requests, InitAndInsertRun(TxStart(ts, requests), ms, refused), refused);
  }

  /** The transaction's work: once `InitTables` has left session `i`, `InsertMovies`
      with none of its requests refused does what `StoredSession` describes. */
  lemma InitAndInsertEffect(s: Session, i: Session, ms: seq<Types.Movie>, refused: nat -> bool)
    requires RunScript(s, Schema.InitScript(MovieInfo), refused) == (i, None)
    requires Ready(i.tables) && ms != [] && NoRefusals(refused, i.requests, 6)
    requires PlainTexts(ms) && RelationsKeyed(i, ms)
    ensures InitAndInsertRun(s, ms, refused) == (StoredSession(i, ms), None)
  {
    InsertMoviesEffect(i, ms, refused);
  }

  /** A transaction whose work succeeded commits it when neither `Begin` nor `Commit` is
      refused. */
  lemma Commits(ts: Tables, requests: nat, work: (Session, Option<Error>), refused: nat -> bool)
    requires !refused(requests) && work.1.None? && !refused(work.0.requests)
    ensures Transaction(ts, requests, work, refused) == (work.0.tables, work.0.requests + 1, None)
  {
  }

  /** The phases stop at the first failure: when the movies' INSERT is refused, nothing
      more is sent and no table changes. */
  lemma InsertMoviesStops(s: Session, ms: seq<Types.Movie>, refused: nat -> bool)
    requires ms != [] && refused(s.requests)
    ensures InsertMoviesRun(s, ms, refused) ==
      (Sent(s, InsertText(Movies, MovieRows(ms))), Some(Refused(s.requests)))
  {
  }
}
