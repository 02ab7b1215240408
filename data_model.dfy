/**
  The first generation of the database code (data/model.go), over the movie type of
  data/load.go. `InsertMovies` writes row by row: each movie, then each of its locations
  under the id the movie's INSERT reported, then for each actor an INSERT of the actor when
  the cache `as` does not know the name yet and an INSERT of the movie/actor relation.
  `StoreMovies` runs `InitTables` (with the `omdb` side table) and `InsertMovies` in one
  transaction. `LoadMovies` reads the movies table into a map from id to movie, queries
  the locations of each id in turn, and sorts the result by title.
*/
module DataModel {
  import opened Wrappers
  import opened Database
  import Schema
  import Sorting
  import SqldbStore
  import DataLoad

  const InsertMovieSql := "INSERT INTO movies VALUES (?, ?, ?, ?, ?, ?, ?)"
  const InsertLocationSql := "INSERT INTO locations VALUES (?, ?, ?, ?)"
  const InsertActorSql := "INSERT INTO actors VALUES (?, ?)"
  const InsertRelationSql := "INSERT INTO movies_actors VALUES (?, ?)"

  // ---------------------------------------------------------------------------
  // The rows each INSERT writes
  // ---------------------------------------------------------------------------

  /** The arguments `nil, m.Title, m.Writer, m.Director, m.Distributor,
      m.ProductionCompany, m.ReleaseYear` of a movie's INSERT. */
  function MovieRow(m: DataLoad.Movie): Row {
    [Null, Text(m.title), Text(m.writer), Text(m.director), Text(m.distributor),
     Text(m.productionCompany), Int(m.releaseYear)]
  }

  /** The arguments `nil, mId, l.Name, l.FunFact` of a location's INSERT. */
  function LocationRow(movieId: int, l: DataLoad.Location): Row {
    [Null, Int(movieId), Text(l.name), Text(l.funFact)]
  }

  /** The arguments `mId, aId` of a relation's INSERT. */
  function RelationRow(movieId: int, actorId: int): Row {
    [Int(movieId), Int(actorId)]
  }

  // ---------------------------------------------------------------------------
  // InsertMovies
  // ---------------------------------------------------------------------------

  /** `Insert(tx, sql, row...)` (src/data/util.go): the session after the one-row
      INSERT, the id `LastInsertId` reports (-1 after an error) and the error. */
  function InsertRow(s: Session, sql: string, name: TableName, row: Row, refused: nat -> bool): (Session, int, Option<Error>)
  {
    var (s1, err) := Execute(s, sql, Insert(name, [row]), refused);
    if err.Some? then (s1, -1, err) else (s1, LastInsertId(s.tables[name], row), None)
  }

  /** The locations' loop of one movie: one INSERT per location, stopping at the first
      error. */
  function LocationsRun(s: Session, movieId: int, ls: seq<DataLoad.Location>, refused: nat -> bool): (Session, Option<Error>)
    decreases |ls|
  {
    if ls == [] then (s, None)
    else
      var (s1, _, err) := InsertRow(s, InsertLocationSql, Locations, LocationRow(movieId, ls[0]), refused);
      if err.Some? then (s1, err) else LocationsRun(s1, movieId, ls[1..], refused)
  }

  /** `aId, exists := as[a]`, and when the name is not cached, the actor's INSERT and
      `as[a] = aId`. On success the name is cached. */
  function CacheActor(s: Session, a: string, cache: map<string, int>, refused: nat -> bool): (r: (Session, map<string, int>, Option<Error>))
    ensures r.2.None? ==> a in r.1
  {
    if a in cache then (s, cache, None)
    else
      var (s1, id, err) := InsertRow(s, InsertActorSql, Actors, SqldbStore.ActorRow(a), refused);
      if err.Some? then (s1, cache, err) else (s1, cache[a := id], None)
  }

  /** The actors' loop of one movie: each actor's id from the cache or a new INSERT, then
      the relation row of the movie and that id, stopping at the first error. */
  function ActorsRun(s: Session, movieId: int, actors: seq<string>, cache: map<string, int>, refused: nat -> bool): (Session, map<string, int>, Option<Error>)
    decreases |actors|
  {
    if actors == [] then (s, cache, None)
    else
      var (s1, c1, err) := ActorRun(s, movieId, actors[0], cache, refused);
      if err.Some? then (s1, c1, err) else ActorsRun(s1, movieId, actors[1..], c1, refused)
  }

  /** One pass of the actors' loop: the actor's id from the cache or a new INSERT, then
      the relation row of the movie and that id. */
  function ActorRun(s: Session, movieId: int, a: string, cache: map<string, int>, refused: nat -> bool): (Session, map<string, int>, Option<Error>)
  {
    var (s1, c1, err1) := CacheActor(s, a, cache, refused);
    if err1.Some? then (s1, c1, err1)
    else
      var (s2, _, err2) := InsertRow(s1, InsertRelationSql, MoviesActors, RelationRow(movieId, c1[a]), refused);
      (s2, c1, err2)
  }

  /** One pass of the movies' loop: the movie's INSERT, its locations under the id it
      reported, then its actors. */
  function MovieRun(s: Session, m: DataLoad.Movie, cache: map<string, int>, refused: nat -> bool): (Session, map<string, int>, Option<Error>)
  {
    var (s1, movieId, err1) := InsertRow(s, InsertMovieSql, Movies, MovieRow(m), refused);
    if err1.Some? then (s1, cache, err1)
    else
      var (s2, err2) := LocationsRun(s1, movieId, m.locations, refused);
      if err2.Some? then (s2, cache, err2) else ActorsRun(s2, movieId, m.actors, cache, refused)
  }

  /** The movies' loop, the actor cache carried from movie to movie. */
  function MoviesRun(s: Session, ms: seq<DataLoad.Movie>, cache: map<string, int>, refused: nat -> bool): (Session, map<string, int>, Option<Error>)
    decreases |ms|
  {
    if ms == [] then (s, cache, None)
    else
      var (s1, c1, err) := MovieRun(s, ms[0], cache, refused);
      if err.Some? then (s1, c1, err) else MoviesRun(s1, ms[1..], c1, refused)
  }

  /** What `InsertMovies(tx, ms)` does to a session, starting from an empty cache. */
  function InsertMoviesRun(s: Session, ms: seq<DataLoad.Movie>, refused: nat -> bool): (Session, Option<Error>)
  {
    var r := MoviesRun(s, ms, map[], refused);
    (r.0, r.2)
  }

  /** The locations' loop of `InsertMovies`. */
  method InsertLocations(tx: Tx, movieId: int, ls: seq<DataLoad.Location>) returns (err: Option<Error>)
    modifies tx
    ensures (tx.State(), err) == LocationsRun(old(tx.State()), movieId, ls, tx.refused)
  {
    for j := 0 to |ls|
      invariant LocationsRun(old(tx.State()), movieId, ls, tx.refused) ==
        LocationsRun(tx.State(), movieId, ls[j..], tx.refused)
    {
      assert ls[j..][1..] == ls[j + 1..];
      var id, e := tx.Insert(InsertLocationSql, Locations, LocationRow(movieId, ls[j]));
      if e.Some? {
        return e;
      }
    }
    return None;
  }

  /** The actors' loop of `InsertMovies`; `cache'` is the map `as` afterwards. */
  method InsertActors(tx: Tx, movieId: int, actors: seq<string>, cache: map<string, int>) returns (cache': map<string, int>, err: Option<Error>)
    modifies tx
    ensures (tx.State(), cache', err) == ActorsRun(old(tx.State()), movieId, actors, cache, tx.refused)
  {
    cache' := cache;
    for j := 0 to |actors|
      invariant ActorsRun(old(tx.State()), movieId, actors, cache, tx.refused) ==
        ActorsRun(tx.State(), movieId, actors[j..], cache', tx.refused)
    {
      assert actors[j..][1..] == actors[j + 1..];
      var a := actors[j];
      var aId: int;
      if a in cache' {
        aId := cache'[a];
      } else {
        var e;
        aId, e := tx.Insert(InsertActorSql, Actors, SqldbStore.ActorRow(a));
        if e.Some? {
          return cache', e;
        }
        cache' := cache'[a := aId];
      }
      var id, e := tx.Insert(InsertRelationSql, MoviesActors, RelationRow(movieId, aId));
      if e.Some? {
        return cache', e;
      }
    }
    return cache', None;
  }

  /** One pass of the movies' loop of `InsertMovies`. */
  method InsertMovie(tx: Tx, m: DataLoad.Movie, cache: map<string, int>) returns (cache': map<string, int>, err: Option<Error>)
    modifies tx
    ensures (tx.State(), cache', err) == MovieRun(old(tx.State()), m, cache, tx.refused)
  {
    var movieId, e := tx.Insert(InsertMovieSql, Movies, MovieRow(m));
    if e.Some? {
      return cache, e;
    }
    e := InsertLocations(tx, movieId, m.locations);
    if e.Some? {
      return cache, e;
    }
    cache', err := InsertActors(tx, movieId, m.actors, cache);
  }

  /** `InsertMovies(tx, ms)`. */
  method InsertMovies(tx: Tx, ms: seq<DataLoad.Movie>) returns (err: Option<Error>)
    modifies tx
    ensures (tx.State(), err) == InsertMoviesRun(old(tx.State()), ms, tx.refused)
  {
    var cache := map[];
    for i := 0 to |ms|
      invariant MoviesRun(old(tx.State()), ms, map[], tx.refused) ==
        MoviesRun(tx.State(), ms[i..], cache, tx.refused)
    {
      assert ms[i..][1..] == ms[i + 1..];
      var e;
      cache, e := InsertMovie(tx, ms[i], cache);
      if e.Some? {
        return e;
      }
    }
    return None;
  }

  // ---------------------------------------------------------------------------
  // What InsertMovies writes
  // ---------------------------------------------------------------------------

  /** The tables the writer expects: the four entity tables exist, the movies, locations
      and actors tables number their rows themselves and the relation table does not. */
  predicate Writable(ts: Tables) {
    Movies in ts && Locations in ts && Actors in ts && MoviesActors in ts &&
    ts[Movies].autoId && ts[Locations].autoId && ts[Actors].autoId && !ts[MoviesActors].autoId
  }

  /** Table `t` after rows with NULL ids are appended and numbered from its counter. */
  function Grown(t: Table, rows: seq<Row>): Table {
    t.(rows := t.rows + NumberedFrom(rows, t.nextId), nextId := t.nextId + |rows|)
  }

  /** The tables after the writer appended movie, location and actor rows (numbered by
      their tables) and relation rows (stored as they are); every other table unchanged. */
  function Written(ts: Tables, movies: seq<Row>, locations: seq<Row>, actors: seq<Row>, relations: seq<Row>): (r: Tables)
    requires Writable(ts)
    ensures Writable(r) && r.Keys == ts.Keys
    ensures forall name :: name in ts && name !in {Movies, Locations, Actors, MoviesActors} ==> r[name] == ts[name]
  {
    ts[Movies := Grown(ts[Movies], movies)]
      [Locations := Grown(ts[Locations], locations)]
      [Actors := Grown(ts[Actors], actors)]
      [MoviesActors := ts[MoviesActors].(rows := ts[MoviesActors].rows + relations)]
  }

  lemma GrownTwice(t: Table, a: seq<Row>, b: seq<Row>)
    ensures Grown(Grown(t, a), b) == Grown(t, a + b)
  {
    NumberedFromAppend(a, b, t.nextId);
  }

  /** Writing twice is writing the concatenations once. */
  lemma WrittenTwice(ts: Tables, m1: seq<Row>, l1: seq<Row>, a1: seq<Row>, r1: seq<Row>,
                     m2: seq<Row>, l2: seq<Row>, a2: seq<Row>, r2: seq<Row>)
    requires Writable(ts)
    ensures Written(Written(ts, m1, l1, a1, r1), m2, l2, a2, r2) == Written(ts, m1 + m2, l1 + l2, a1 + a2, r1 + r2)
  {
    GrownTwice(ts[Movies], m1, m2);
    GrownTwice(ts[Locations], l1, l2);
    GrownTwice(ts[Actors], a1, a2);
    assert ts[MoviesActors].rows + r1 + r2 == ts[MoviesActors].rows + (r1 + r2);
  }

  /** Two writes whose rows concatenate to `movies`, `locations`, `actors`, `relations`. */
  lemma WrittenCompose(ts: Tables, ts1: Tables, ts2: Tables, m1: seq<Row>, l1: seq<Row>, a1: seq<Row>, r1: seq<Row>,
                       m2: seq<Row>, l2: seq<Row>, a2: seq<Row>, r2: seq<Row>,
                       movies: seq<Row>, locations: seq<Row>, actors: seq<Row>, relations: seq<Row>)
    requires Writable(ts)
    requires ts1 == Written(ts, m1, l1, a1, r1) && ts2 == Written(ts1, m2, l2, a2, r2)
    requires movies == m1 + m2 && locations == l1 + l2 && actors == a1 + a2 && relations == r1 + r2
    ensures ts2 == Written(ts, movies, locations, actors, relations)
  {
    WrittenTwice(ts, m1, l1, a1, r1, m2, l2, a2, r2);
  }

  /** Each counter moves on by the number of rows written to its table. */
  lemma WrittenNextIds(ts: Tables, movies: seq<Row>, locations: seq<Row>, actors: seq<Row>, relations: seq<Row>)
    requires Writable(ts)
    ensures var r := Written(ts, movies, locations, actors, relations);
      r[Movies].nextId == ts[Movies].nextId + |movies| && r[Locations].nextId == ts[Locations].nextId + |locations| &&
      r[Actors].nextId == ts[Actors].nextId + |actors|
  {
  }

  lemma GrownNothing(t: Table)
    ensures Grown(t, []) == t
  {
    assert t.rows + NumberedFrom([], t.nextId) == t.rows;
  }

  lemma WrittenNothing(ts: Tables)
    requires Writable(ts)
    ensures Written(ts, [], [], [], []) == ts
  {
    GrownNothing(ts[Movies]);
    GrownNothing(ts[Locations]);
    GrownNothing(ts[Actors]);
    assert ts[MoviesActors].rows + [] == ts[MoviesActors].rows;
  }

  /** How a run that started at request `from` and left session `s` ended: without an
      error exactly when none of the requests it sent was refused, and otherwise with the
      refusal of its last request, every earlier one having gone through. */
  ghost predicate Outcome(refused: nat -> bool, from: nat, s: Session, err: Option<Error>) {
    s.requests >= from &&
    if err.None? then NoRefusals(refused, from, s.requests - from)
    else
      s.requests > from && NoRefusals(refused, from, s.requests - 1 - from) &&
      refused(s.requests - 1) && err == Some(Refused(s.requests - 1))
  }

  lemma OutcomeChain(refused: nat -> bool, from: nat, s1: Session, s2: Session, err: Option<Error>)
    requires Outcome(refused, from, s1, None) && Outcome(refused, s1.requests, s2, err)
    ensures Outcome(refused, from, s2, err)
  {
  }

  /** One INSERT of a row with a NULL id into a table that numbers its rows: refused, or
      the row is appended with the table's next id, which is the id reported. */
  lemma InsertRowNumbered(s: Session, sql: string, name: TableName, row: Row, refused: nat -> bool)
    requires name in s.tables && s.tables[name].autoId && |row| > 0 && row[0] == Null
    ensures var r := InsertRow(s, sql, name, row, refused);
      Outcome(refused, s.requests, r.0, r.2) && r.0.requests == s.requests + 1 &&
      (r.2.None? ==> r.0.tables == s.tables[name := Grown(s.tables[name], [row])] && r.1 == s.tables[name].nextId)
  {
    AddRowsNumbered(s.tables[name], [row]);
  }

  /** One INSERT into a table without an auto-increment column: refused, or the row is
      appended as it is. */
  lemma InsertRowVerbatim(s: Session, sql: string, name: TableName, row: Row, refused: nat -> bool)
    requires name in s.tables && !s.tables[name].autoId
    ensures var r := InsertRow(s, sql, name, row, refused);
      Outcome(refused, s.requests, r.0, r.2) && r.0.requests == s.requests + 1 &&
      (r.2.None? ==> r.0.tables == s.tables[name := s.tables[name].(rows := s.tables[name].rows + [row])])
  {
    AddRowsVerbatim(s.tables[name], [row]);
  }

  // ---------------------------------------------------------------------------
  // The rows of a whole run
  // ---------------------------------------------------------------------------

  function MovieRows(ms: seq<DataLoad.Movie>): (r: seq<Row>)
    ensures |r| == |ms|
  {
    seq(|ms|, i requires 0 <= i < |ms| => MovieRow(ms[i]))
  }

  /** The location rows of one movie, under the id its INSERT reported. */
  function MovieLocationRows(movieId: int, ls: seq<DataLoad.Location>): (r: seq<Row>)
    ensures |r| == |ls|
  {
    seq(|ls|, j requires 0 <= j < |ls| => LocationRow(movieId, ls[j]))
  }

  /** The location rows of all movies, the `k`-th movie's under id `n + k`. */
  function LocationRows(ms: seq<DataLoad.Movie>, n: int): seq<Row>
    decreases |ms|
  {
    if ms == [] then [] else MovieLocationRows(n, ms[0].locations) + LocationRows(ms[1..], n + 1)
  }

  lemma LocationRowsCons(ms: seq<DataLoad.Movie>, n: int)
    requires ms != []
    ensures LocationRows(ms, n) == MovieLocationRows(n, ms[0].locations) + LocationRows(ms[1..], n + 1)
  {
  }

  /** Every actor name of every movie, in order, repetitions included. */
  function ActorNames(ms: seq<DataLoad.Movie>): seq<string>
    decreases |ms|
  {
    if ms == [] then [] else ms[0].actors + ActorNames(ms[1..])
  }

  /** There is no location row exactly when no movie has a location. */
  lemma {:induction false} LocationRowsEmpty(ms: seq<DataLoad.Movie>, n: int)
    ensures LocationRows(ms, n) == [] <==> forall i :: 0 <= i < |ms| ==> ms[i].locations == []
    decreases |ms|
  {
    if ms != [] {
      LocationRowsEmpty(ms[1..], n + 1);
      assert forall i :: 1 <= i < |ms| ==> ms[i] == ms[1..][i - 1];
    }
  }

  /** There is no actor name exactly when no movie has an actor. */
  lemma {:induction false} ActorNamesEmpty(ms: seq<DataLoad.Movie>)
    ensures ActorNames(ms) == [] <==> forall i :: 0 <= i < |ms| ==> ms[i].actors == []
    decreases |ms|
  {
    if ms != [] {
      ActorNamesEmpty(ms[1..]);
      assert forall i :: 1 <= i < |ms| ==> ms[i] == ms[1..][i - 1];
    }
  }

  /** The relation rows of one movie, each actor under the id `ids` gives it. */
  function MovieRelationRows(movieId: int, actors: seq<string>, ids: map<string, int>): (r: seq<Row>)
    ensures |r| == |actors|
  {
    seq(|actors|, j requires 0 <= j < |actors| => RelationRow(movieId, SqldbStore.IdOf(ids, actors[j])))
  }

  lemma MovieRelationRowsCons(movieId: int, actors: seq<string>, ids: map<string, int>)
    requires actors != []
    ensures MovieRelationRows(movieId, actors, ids) ==
      [RelationRow(movieId, SqldbStore.IdOf(ids, actors[0]))] + MovieRelationRows(movieId, actors[1..], ids)
  {
  }

  /** The relation rows of all movies, the `k`-th movie's under id `n + k`. */
  function RelationRows(ms: seq<DataLoad.Movie>, n: int, ids: map<string, int>): seq<Row>
    decreases |ms|
  {
    if ms == [] then [] else MovieRelationRows(n, ms[0].actors, ids) + RelationRows(ms[1..], n + 1, ids)
  }

  /** The names of `names` not in `seen`, each once, where it first occurs: the actors an
      INSERT is sent for when the cache already knows `seen`. */
  function NewNames(seen: set<string>, names: seq<string>): seq<string>
    decreases |names|
  {
    if names == [] then []
    else if names[0] in seen then NewNames(seen, names[1..])
    else [names[0]] + NewNames(seen + {names[0]}, names[1..])
  }

  lemma NewNamesOne(seen: set<string>, a: string)
    ensures NewNames(seen, [a]) == if a in seen then [] else [a]
  {
    assert [a][1..] == [];
    assert NewNames(seen + {a}, []) == [] && NewNames(seen, []) == [];
  }

  lemma NewNamesCons(seen: set<string>, names: seq<string>)
    requires names != []
    ensures NewNames(seen, names) == NewNames(seen, [names[0]]) + NewNames(seen + {names[0]}, names[1..])
  {
    NewNamesOne(seen, names[0]);
    if names[0] in seen {
      assert seen + {names[0]} == seen;
    }
  }

  /** The new names are the names not seen before, each listed once. */
  lemma {:induction false} NewNamesElems(seen: set<string>, names: seq<string>)
    ensures SqldbStore.Elems(NewNames(seen, names)) == SqldbStore.Elems(names) - seen
    ensures forall i, j :: 0 <= i < j < |NewNames(seen, names)| ==> NewNames(seen, names)[i] != NewNames(seen, names)[j]
    decreases |names|
  {
    if names != [] {
      var a := names[0];
      assert SqldbStore.Elems(names) == {a} + SqldbStore.Elems(names[1..]) by {
        assert names == [a] + names[1..];
      }
      if a in seen {
        NewNamesElems(seen, names[1..]);
      } else {
        NewNamesElems(seen + {a}, names[1..]);
        var rest := NewNames(seen + {a}, names[1..]);
        assert a !in rest by {
          assert a !in SqldbStore.Elems(rest);
        }
        assert SqldbStore.Elems([a] + rest) == {a} + SqldbStore.Elems(rest);
      }
    }
  }

  /** The new names of `a + b`: those of `a`, then those of `b` not seen in `a`. */
  lemma {:induction false} NewNamesAppend(seen: set<string>, a: seq<string>, b: seq<string>)
    ensures NewNames(seen, a + b) == NewNames(seen, a) + NewNames(seen + SqldbStore.Elems(a), b)
    decreases |a|
  {
    if a == [] {
      assert a + b == b;
      assert seen + SqldbStore.Elems(a) == seen;
    } else {
      var x := a[0];
      assert (a + b)[0] == x && (a + b)[1..] == a[1..] + b;
      assert SqldbStore.Elems(a) == {x} + SqldbStore.Elems(a[1..]) by {
        assert a == [x] + a[1..];
      }
      if x in seen {
        NewNamesAppend(seen, a[1..], b);
        assert seen + SqldbStore.Elems(a[1..]) == seen + SqldbStore.Elems(a);
      } else {
        NewNamesAppend(seen + {x}, a[1..], b);
        assert seen + {x} + SqldbStore.Elems(a[1..]) == seen + SqldbStore.Elems(a);
      }
    }
  }

  /** The cache `cache'` is `cache` with the names of `added` (none of them cached before)
      given consecutive ids from `first`. */
  ghost predicate Extends(cache: map<string, int>, cache': map<string, int>, added: seq<string>, first: int) {
    cache'.Keys == cache.Keys + SqldbStore.Elems(added) &&
    (forall a :: a in cache ==> cache'[a] == cache[a]) &&
    (forall k :: 0 <= k < |added| ==> cache'[added[k]] == first + k)
  }

  lemma ExtendsChain(c0: map<string, int>, c1: map<string, int>, c2: map<string, int>, d1: seq<string>, d2: seq<string>, first: int)
    requires Extends(c0, c1, d1, first) && Extends(c1, c2, d2, first + |d1|)
    ensures Extends(c0, c2, d1 + d2, first)
  {
    assert SqldbStore.Elems(d1 + d2) == SqldbStore.Elems(d1) + SqldbStore.Elems(d2);
    forall k | 0 <= k < |d1 + d2| ensures c2[(d1 + d2)[k]] == first + k {
      if k < |d1| {
        assert d1[k] in SqldbStore.Elems(d1);
      } else {
        assert (d1 + d2)[k] == d2[k - |d1|];
      }
    }
  }

  // ---------------------------------------------------------------------------
  // The effect of each loop
  // ---------------------------------------------------------------------------

  /** The locations' loop appends one row per location, in order, under `movieId`. */
  lemma {:induction false} LocationsRunWrites(s: Session, movieId: int, ls: seq<DataLoad.Location>, refused: nat -> bool)
    requires Writable(s.tables)
    ensures var r := LocationsRun(s, movieId, ls, refused);
      Outcome(refused, s.requests, r.0, r.1)
    ensures var r := LocationsRun(s, movieId, ls, refused);
      r.1.None? ==> r.0.tables == Written(s.tables, [], MovieLocationRows(movieId, ls), [], []) &&
                    r.0.requests == s.requests + |ls|
    decreases |ls|
  {
    if ls == [] {
      WrittenNothing(s.tables);
    } else {
      var row := LocationRow(movieId, ls[0]);
      var (s1, _, err) := InsertRow(s, InsertLocationSql, Locations, row, refused);
      InsertRowNumbered(s, InsertLocationSql, Locations, row, refused);
      if err.None? {
        assert s1.tables == Written(s.tables, [], [row], [], []) by {
          GrownNothing(s.tables[Movies]);
          GrownNothing(s.tables[Actors]);
          assert s.tables[MoviesActors].rows + [] == s.tables[MoviesActors].rows;
        }
        LocationsRunWrites(s1, movieId, ls[1..], refused);
        var r := LocationsRun(s1, movieId, ls[1..], refused);
        OutcomeChain(refused, s.requests, s1, r.0, r.1);
        if r.1.None? {
          WrittenTwice(s.tables, [], [row], [], [], [], MovieLocationRows(movieId, ls[1..]), [], []);
          assert [row] + MovieLocationRows(movieId, ls[1..]) == MovieLocationRows(movieId, ls);
        }
      }
    }
  }

  /** Looking an actor up: nothing is sent when the name is cached; otherwise its row is
      appended and the cache gains it with the id the table gave. */
  lemma CacheActorWrites(s: Session, a: string, cache: map<string, int>, refused: nat -> bool)
    requires Writable(s.tables)
    ensures var r := CacheActor(s, a, cache, refused);
      Outcome(refused, s.requests, r.0, r.2)
    ensures var r := CacheActor(s, a, cache, refused); var added := NewNames(cache.Keys, [a]);
      r.2.None? ==> r.0.tables == Written(s.tables, [], [], SqldbStore.ActorRows(added), []) &&
                    r.0.requests == s.requests + |added| &&
                    Extends(cache, r.1, added, s.tables[Actors].nextId)
  {
    var added := NewNames(cache.Keys, [a]);
    NewNamesOne(cache.Keys, a);
    if a in cache {
      assert a in cache.Keys;
      assert added == [];
      WrittenNothing(s.tables);
    } else {
      assert a !in cache.Keys;
      assert added == [a];
      InsertRowNumbered(s, InsertActorSql, Actors, SqldbStore.ActorRow(a), refused);
      GrownNothing(s.tables[Movies]);
      GrownNothing(s.tables[Locations]);
      assert s.tables[MoviesActors].rows + [] == s.tables[MoviesActors].rows;
      assert SqldbStore.ActorRows(added) == [SqldbStore.ActorRow(a)];
      assert SqldbStore.Elems(added) == {a};
    }
  }

  /** One actor: its row when it is not cached yet, then its relation row under the id
      the cache then gives it. */
  lemma ActorRunWrites(s: Session, movieId: int, a: string, cache: map<string, int>, refused: nat -> bool)
    requires Writable(s.tables)
    ensures var r := ActorRun(s, movieId, a, cache, refused);
      Outcome(refused, s.requests, r.0, r.2)
    ensures var r := ActorRun(s, movieId, a, cache, refused); var added := NewNames(cache.Keys, [a]);
      r.2.None? ==> a in r.1 &&
                    r.0.tables == Written(s.tables, [], [], SqldbStore.ActorRows(added), [RelationRow(movieId, r.1[a])]) &&
                    r.0.requests == s.requests + |added| + 1 &&
                    Extends(cache, r.1, added, s.tables[Actors].nextId)
  {
    var (s1, c1, err1) := CacheActor(s, a, cache, refused);
    CacheActorWrites(s, a, cache, refused);
    if err1.None? {
      var added := NewNames(cache.Keys, [a]);
      var rel := RelationRow(movieId, c1[a]);
      InsertRowVerbatim(s1, InsertRelationSql, MoviesActors, rel, refused);
      var (s2, _, err2) := InsertRow(s1, InsertRelationSql, MoviesActors, rel, refused);
      OutcomeChain(refused, s.requests, s1, s2, err2);
      if err2.None? {
        assert s2.tables == Written(s1.tables, [], [], [], [rel]) by {
          GrownNothing(s1.tables[Movies]);
          GrownNothing(s1.tables[Locations]);
          GrownNothing(s1.tables[Actors]);
        }
        WrittenTwice(s.tables, [], [], SqldbStore.ActorRows(added), [], [], [], [], [rel]);
        assert SqldbStore.ActorRows(added) + [] == SqldbStore.ActorRows(added);
        assert [] + [rel] == [rel];
      }
    }
  }

  /** Two actors' worth of rows are the rows of both. */
  lemma WrittenActors(ts: Tables, d0: seq<string>, rel: Row, d1: seq<string>, rest: seq<Row>)
    requires Writable(ts)
    ensures Written(Written(ts, [], [], SqldbStore.ActorRows(d0), [rel]), [], [], SqldbStore.ActorRows(d1), rest) ==
      Written(ts, [], [], SqldbStore.ActorRows(d0 + d1), [rel] + rest)
  {
    WrittenTwice(ts, [], [], SqldbStore.ActorRows(d0), [rel], [], [], SqldbStore.ActorRows(d1), rest);
    assert SqldbStore.ActorRows(d0) + SqldbStore.ActorRows(d1) == SqldbStore.ActorRows(d0 + d1);
    var none: seq<Row> := [];
    assert none + none == none;
  }

  /** The rows of the first actor and those of the others are the rows of all. */
  lemma ActorsCompose(ts: Tables, ts1: Tables, ts2: Tables, movieId: int, a: string, rest: seq<string>,
                      c0: map<string, int>, c1: map<string, int>, c2: map<string, int>)
    requires Writable(ts) && a in c1
    requires ts1 == Written(ts, [], [], SqldbStore.ActorRows(NewNames(c0.Keys, [a])), [RelationRow(movieId, c1[a])])
    requires Extends(c0, c1, NewNames(c0.Keys, [a]), ts[Actors].nextId)
    requires ts2 == Written(ts1, [], [], SqldbStore.ActorRows(NewNames(c1.Keys, rest)), MovieRelationRows(movieId, rest, c2))
    requires Extends(c1, c2, NewNames(c1.Keys, rest), ts1[Actors].nextId)
    ensures ts2 == Written(ts, [], [], SqldbStore.ActorRows(NewNames(c0.Keys, [a] + rest)), MovieRelationRows(movieId, [a] + rest, c2))
    ensures Extends(c0, c2, NewNames(c0.Keys, [a] + rest), ts[Actors].nextId)
  {
    var d0 := NewNames(c0.Keys, [a]);
    var d1 := NewNames(c1.Keys, rest);
    ActorNamesSplit(c0, c1, a, rest, ts[Actors].nextId);
    ActorRelationSplit(movieId, a, rest, c1, c2, d1, ts1[Actors].nextId);
    WrittenActors(ts, d0, RelationRow(movieId, c1[a]), d1, MovieRelationRows(movieId, rest, c2));
    ExtendsChain(c0, c1, c2, d0, d1, ts[Actors].nextId);
  }

  /** The names new to the cache in `[a] + rest`: `a` if new, then those of `rest` new to the
      cache that records `a`. */
  lemma ActorNamesSplit(c0: map<string, int>, c1: map<string, int>, a: string, rest: seq<string>, first: int)
    requires Extends(c0, c1, NewNames(c0.Keys, [a]), first)
    ensures NewNames(c0.Keys, [a] + rest) == NewNames(c0.Keys, [a]) + NewNames(c1.Keys, rest)
  {
    assert ([a] + rest)[0] == a && ([a] + rest)[1..] == rest;
    NewNamesCons(c0.Keys, [a] + rest);
    NewNamesOne(c0.Keys, a);
    assert c1.Keys == c0.Keys + {a};
  }

  /** The relation row of `a`, under the id the cache already gave it, then those of `rest`. */
  lemma ActorRelationSplit(movieId: int, a: string, rest: seq<string>, c1: map<string, int>, c2: map<string, int>,
                           d1: seq<string>, first: int)
    requires a in c1 && Extends(c1, c2, d1, first)
    ensures [RelationRow(movieId, c1[a])] + MovieRelationRows(movieId, rest, c2) == MovieRelationRows(movieId, [a] + rest, c2)
  {
    assert ([a] + rest)[0] == a && ([a] + rest)[1..] == rest;
    MovieRelationRowsCons(movieId, [a] + rest, c2);
    assert SqldbStore.IdOf(c2, a) == c1[a];
  }

  /** The actors' loop of one movie: the names not yet cached are appended once each, in
      first-seen order, with consecutive ids that the cache records; one relation row per
      actor, under the id the cache then gives the name. */
  lemma {:induction false} ActorsRunWrites(s: Session, movieId: int, actors: seq<string>, cache: map<string, int>, refused: nat -> bool)
    requires Writable(s.tables)
    ensures var r := ActorsRun(s, movieId, actors, cache, refused);
      Outcome(refused, s.requests, r.0, r.2)
    ensures var r := ActorsRun(s, movieId, actors, cache, refused); var added := NewNames(cache.Keys, actors);
      r.2.None? ==> r.0.tables == Written(s.tables, [], [], SqldbStore.ActorRows(added), MovieRelationRows(movieId, actors, r.1)) &&
                    r.0.requests == s.requests + |added| + |actors| &&
                    Extends(cache, r.1, added, s.tables[Actors].nextId)
    decreases |actors|
  {
    if actors == [] {
      WrittenNothing(s.tables);
    } else {
      var a := actors[0];
      var (s1, c1, err1) := ActorRun(s, movieId, a, cache, refused);
      ActorRunWrites(s, movieId, a, cache, refused);
      if err1.None? {
        ActorsRunWrites(s1, movieId, actors[1..], c1, refused);
        var r := ActorsRun(s1, movieId, actors[1..], c1, refused);
        OutcomeChain(refused, s.requests, s1, r.0, r.2);
        if r.2.None? {
          assert actors == [a] + actors[1..];
          ActorsCompose(s.tables, s1.tables, r.0.tables, movieId, a, actors[1..], cache, c1, r.1);
        }
      }
    }
  }

  /** The movie's row, then its locations, then its actors: the rows of all three. */
  lemma MovieCompose(ts: Tables, ts1: Tables, ts2: Tables, ts3: Tables, row: Row, ls: seq<Row>, acts: seq<Row>, rs: seq<Row>)
    requires Writable(ts)
    requires ts1 == Written(ts, [row], [], [], [])
    requires ts2 == Written(ts1, [], ls, [], [])
    requires ts3 == Written(ts2, [], [], acts, rs)
    ensures ts3 == Written(ts, [row], ls, acts, rs)
    ensures ts2[Actors].nextId == ts[Actors].nextId
  {
    var none: seq<Row> := [];
    WrittenCompose(ts, ts1, ts2, [row], none, none, none, none, ls, none, none, [row], ls, none, none);
    WrittenCompose(ts, ts2, ts3, [row], ls, none, none, none, none, acts, rs, [row], ls, acts, rs);
    WrittenNextIds(ts, [row], ls, none, none);
  }

  /** One movie: its row numbered by the movies table, its locations under that number,
      its new actors and its relation rows. */
  lemma MovieRunWrites(s: Session, m: DataLoad.Movie, cache: map<string, int>, refused: nat -> bool)
    requires Writable(s.tables)
    ensures var r := MovieRun(s, m, cache, refused);
      Outcome(refused, s.requests, r.0, r.2)
    ensures var r := MovieRun(s, m, cache, refused); var n := s.tables[Movies].nextId;
      var added := NewNames(cache.Keys, m.actors);
      r.2.None? ==> r.0.tables == Written(s.tables, [MovieRow(m)], MovieLocationRows(n, m.locations),
                                          SqldbStore.ActorRows(added), MovieRelationRows(n, m.actors, r.1)) &&
                    r.0.requests == s.requests + 1 + |m.locations| + |added| + |m.actors| &&
                    Extends(cache, r.1, added, s.tables[Actors].nextId)
  {
    var n := s.tables[Movies].nextId;
    var (s1, movieId, err1) := InsertRow(s, InsertMovieSql, Movies, MovieRow(m), refused);
    InsertRowNumbered(s, InsertMovieSql, Movies, MovieRow(m), refused);
    if err1.None? {
      assert s1.tables == Written(s.tables, [MovieRow(m)], [], [], []) by {
        GrownNothing(s.tables[Locations]);
        GrownNothing(s.tables[Actors]);
        assert s.tables[MoviesActors].rows + [] == s.tables[MoviesActors].rows;
      }
      var (s2, err2) := LocationsRun(s1, movieId, m.locations, refused);
      LocationsRunWrites(s1, movieId, m.locations, refused);
      OutcomeChain(refused, s.requests, s1, s2, err2);
      if err2.None? {
        var r := ActorsRun(s2, movieId, m.actors, cache, refused);
        ActorsRunWrites(s2, movieId, m.actors, cache, refused);
        OutcomeChain(refused, s.requests, s2, r.0, r.2);
        if r.2.None? {
          MovieCompose(s.tables, s1.tables, s2.tables, r.0.tables, MovieRow(m), MovieLocationRows(n, m.locations),
            SqldbStore.ActorRows(NewNames(cache.Keys, m.actors)), MovieRelationRows(n, m.actors, r.1));
        }
      }
    }
  }

  /** Relation rows only look up names the cache had; a cache that keeps those ids gives
      the same rows. */
  lemma MovieRelationRowsStable(movieId: int, actors: seq<string>, c1: map<string, int>, c2: map<string, int>)
    requires SqldbStore.Elems(actors) <= c1.Keys
    requires forall a :: a in c1 ==> a in c2 && c2[a] == c1[a]
    ensures MovieRelationRows(movieId, actors, c1) == MovieRelationRows(movieId, actors, c2)
  {
    forall j | 0 <= j < |actors|
      ensures MovieRelationRows(movieId, actors, c1)[j] == MovieRelationRows(movieId, actors, c2)[j]
    {
      assert actors[j] in SqldbStore.Elems(actors);
    }
  }

  /** The caches of the first movie's actors and of the others' chain, and the first
      movie's relation rows read the same ids from the final cache. */
  lemma MoviesCacheCompose(movieId: int, ms: seq<DataLoad.Movie>,
                           c0: map<string, int>, c1: map<string, int>, c2: map<string, int>, first: int)
    requires ms != []
    requires Extends(c0, c1, NewNames(c0.Keys, ms[0].actors), first)
    requires Extends(c1, c2, NewNames(c1.Keys, ActorNames(ms[1..])), first + |NewNames(c0.Keys, ms[0].actors)|)
    ensures NewNames(c0.Keys, ActorNames(ms)) == NewNames(c0.Keys, ms[0].actors) + NewNames(c1.Keys, ActorNames(ms[1..]))
    ensures Extends(c0, c2, NewNames(c0.Keys, ActorNames(ms)), first)
    ensures MovieRelationRows(movieId, ms[0].actors, c1) == MovieRelationRows(movieId, ms[0].actors, c2)
  {
    assert c1.Keys == c0.Keys + SqldbStore.Elems(ms[0].actors) by {
      NewNamesElems(c0.Keys, ms[0].actors);
    }
    NewNamesAppend(c0.Keys, ms[0].actors, ActorNames(ms[1..]));
    ExtendsChain(c0, c1, c2, NewNames(c0.Keys, ms[0].actors), NewNames(c1.Keys, ActorNames(ms[1..])), first);
    MovieRelationRowsStable(movieId, ms[0].actors, c1, c2);
  }

  /** The first movie's rows and those of the others are the rows of all. */
  lemma MoviesCompose(ts: Tables, ts1: Tables, ts2: Tables, ms: seq<DataLoad.Movie>,
                      d0: seq<string>, d1: seq<string>, d: seq<string>, c1: map<string, int>, c2: map<string, int>)
    requires Writable(ts) && ms != [] && d == d0 + d1
    requires MovieRelationRows(ts[Movies].nextId, ms[0].actors, c1) == MovieRelationRows(ts[Movies].nextId, ms[0].actors, c2)
    requires ts1 == Written(ts, [MovieRow(ms[0])], MovieLocationRows(ts[Movies].nextId, ms[0].locations),
                            SqldbStore.ActorRows(d0), MovieRelationRows(ts[Movies].nextId, ms[0].actors, c1))
    requires ts2 == Written(ts1, MovieRows(ms[1..]), LocationRows(ms[1..], ts1[Movies].nextId),
                            SqldbStore.ActorRows(d1), RelationRows(ms[1..], ts1[Movies].nextId, c2))
    ensures ts2 == Written(ts, MovieRows(ms), LocationRows(ms, ts[Movies].nextId),
                           SqldbStore.ActorRows(d), RelationRows(ms, ts[Movies].nextId, c2))
  {
    var n := ts[Movies].nextId;
    WrittenNextIds(ts, [MovieRow(ms[0])], MovieLocationRows(n, ms[0].locations), SqldbStore.ActorRows(d0),
      MovieRelationRows(n, ms[0].actors, c1));
    assert MovieRows(ms) == [MovieRow(ms[0])] + MovieRows(ms[1..]);
    assert SqldbStore.ActorRows(d) == SqldbStore.ActorRows(d0) + SqldbStore.ActorRows(d1);
    WrittenCompose(ts, ts1, ts2, [MovieRow(ms[0])], MovieLocationRows(n, ms[0].locations), SqldbStore.ActorRows(d0),
      MovieRelationRows(n, ms[0].actors, c1), MovieRows(ms[1..]), LocationRows(ms[1..], n + 1), SqldbStore.ActorRows(d1),
      RelationRows(ms[1..], n + 1, c2), MovieRows(ms), LocationRows(ms, n), SqldbStore.ActorRows(d), RelationRows(ms, n, c2));
  }

  /** The movies' loop: the movies numbered in order, the `k`-th one's locations under
      its number, each name not cached before appended once with the id the cache records,
      and one relation row per actor of each movie. */
  lemma {:induction false} MoviesRunWrites(s: Session, ms: seq<DataLoad.Movie>, cache: map<string, int>, refused: nat -> bool)
    requires Writable(s.tables)
    ensures var r := MoviesRun(s, ms, cache, refused);
      Outcome(refused, s.requests, r.0, r.2)
    ensures var r := MoviesRun(s, ms, cache, refused); var n := s.tables[Movies].nextId;
      var added := NewNames(cache.Keys, ActorNames(ms));
      r.2.None? ==> r.0.tables == Written(s.tables, MovieRows(ms), LocationRows(ms, n),
                                          SqldbStore.ActorRows(added), RelationRows(ms, n, r.1)) &&
                    r.0.requests == s.requests + |ms| + |LocationRows(ms, n)| + |added| + |ActorNames(ms)| &&
                    Extends(cache, r.1, added, s.tables[Actors].nextId)
    decreases |ms|
  {
    if ms == [] {
      WrittenNothing(s.tables);
    } else {
      var (s1, c1, err1) := MovieRun(s, ms[0], cache, refused);
      MovieRunWrites(s, ms[0], cache, refused);
      if err1.None? {
        var r := MoviesRun(s1, ms[1..], c1, refused);
        MoviesRunWrites(s1, ms[1..], c1, refused);
        OutcomeChain(refused, s.requests, s1, r.0, r.2);
        if r.2.None? {
          MoviesStepWrites(s, s1, r.0, ms, cache, c1, r.1);
        }
      }
    }
  }

  /** The first movie's writes, then the other movies' writes, are the writes of all. */
  lemma MoviesStepWrites(s: Session, s1: Session, s2: Session, ms: seq<DataLoad.Movie>,
                         cache: map<string, int>, c1: map<string, int>, c2: map<string, int>)
    requires Writable(s.tables) && ms != []
    requires var n := s.tables[Movies].nextId; var d0 := NewNames(cache.Keys, ms[0].actors);
      s1.tables == Written(s.tables, [MovieRow(ms[0])], MovieLocationRows(n, ms[0].locations),
                           SqldbStore.ActorRows(d0), MovieRelationRows(n, ms[0].actors, c1)) &&
      s1.requests == s.requests + 1 + |ms[0].locations| + |d0| + |ms[0].actors| &&
      Extends(cache, c1, d0, s.tables[Actors].nextId)
    requires var n := s1.tables[Movies].nextId; var d1 := NewNames(c1.Keys, ActorNames(ms[1..]));
      s2.tables == Written(s1.tables, MovieRows(ms[1..]), LocationRows(ms[1..], n),
                           SqldbStore.ActorRows(d1), RelationRows(ms[1..], n, c2)) &&
      s2.requests == s1.requests + |ms[1..]| + |LocationRows(ms[1..], n)| + |d1| + |ActorNames(ms[1..])| &&
      Extends(c1, c2, d1, s1.tables[Actors].nextId)
    ensures var n := s.tables[Movies].nextId; var added := NewNames(cache.Keys, ActorNames(ms));
      s2.tables == Written(s.tables, MovieRows(ms), LocationRows(ms, n), SqldbStore.ActorRows(added), RelationRows(ms, n, c2)) &&
      s2.requests == s.requests + |ms| + |LocationRows(ms, n)| + |added| + |ActorNames(ms)| &&
      Extends(cache, c2, added, s.tables[Actors].nextId)
  {
    var n := s.tables[Movies].nextId;
    var d0 := NewNames(cache.Keys, ms[0].actors);
    var d1 := NewNames(c1.Keys, ActorNames(ms[1..]));
    var added := NewNames(cache.Keys, ActorNames(ms));
    MoviesStepTables(s.tables, s1.tables, s2.tables, ms, cache, c1, c2);
    assert |added| == |d0| + |d1|;
    MoviesStepRequests(ms, n, s1.tables[Movies].nextId, s.requests, s1.requests, s2.requests, |d0|, |d1|, |added|);
  }

  /** The tables and cache after the first movie's writes, then the other movies'. */
  lemma MoviesStepTables(ts: Tables, ts1: Tables, ts2: Tables, ms: seq<DataLoad.Movie>,
                         cache: map<string, int>, c1: map<string, int>, c2: map<string, int>)
    requires Writable(ts) && ms != []
    requires var n := ts[Movies].nextId; var d0 := NewNames(cache.Keys, ms[0].actors);
      ts1 == Written(ts, [MovieRow(ms[0])], MovieLocationRows(n, ms[0].locations),
                     SqldbStore.ActorRows(d0), MovieRelationRows(n, ms[0].actors, c1)) &&
      Extends(cache, c1, d0, ts[Actors].nextId)
    requires var n := ts1[Movies].nextId; var d1 := NewNames(c1.Keys, ActorNames(ms[1..]));
      ts2 == Written(ts1, MovieRows(ms[1..]), LocationRows(ms[1..], n),
                     SqldbStore.ActorRows(d1), RelationRows(ms[1..], n, c2)) &&
      Extends(c1, c2, d1, ts1[Actors].nextId)
    ensures ts1[Movies].nextId == ts[Movies].nextId + 1
    ensures NewNames(cache.Keys, ActorNames(ms)) == NewNames(cache.Keys, ms[0].actors) + NewNames(c1.Keys, ActorNames(ms[1..]))
    ensures var n := ts[Movies].nextId; var added := NewNames(cache.Keys, ActorNames(ms));
      ts2 == Written(ts, MovieRows(ms), LocationRows(ms, n), SqldbStore.ActorRows(added), RelationRows(ms, n, c2)) &&
      Extends(cache, c2, added, ts[Actors].nextId)
  {
    var n := ts[Movies].nextId;
    var d0 := NewNames(cache.Keys, ms[0].actors);
    WrittenNextIds(ts, [MovieRow(ms[0])], MovieLocationRows(n, ms[0].locations),
      SqldbStore.ActorRows(d0), MovieRelationRows(n, ms[0].actors, c1));
    MoviesCacheCompose(n, ms, cache, c1, c2, ts[Actors].nextId);
    MoviesCompose(ts, ts1, ts2, ms, d0, NewNames(c1.Keys, ActorNames(ms[1..])), NewNames(cache.Keys, ActorNames(ms)), c1, c2);
  }

  /** The request count of the first movie's writes and of the other movies' add up. */
  lemma MoviesStepRequests(ms: seq<DataLoad.Movie>, n: int, n1: int, r0: int, r1: int, r2: int,
                           d0: nat, d1: nat, added: nat)
    requires ms != [] && n1 == n + 1 && added == d0 + d1
    requires r1 == r0 + 1 + |ms[0].locations| + d0 + |ms[0].actors|
    requires r2 == r1 + |ms[1..]| + |LocationRows(ms[1..], n1)| + d1 + |ActorNames(ms[1..])|
    ensures r2 == r0 + |ms| + |LocationRows(ms, n)| + added + |ActorNames(ms)|
  {
    LocationRowsCons(ms, n);
    assert ActorNames(ms) == ms[0].actors + ActorNames(ms[1..]);
  }

  // ---------------------------------------------------------------------------
  // What InsertMovies writes, and what the rows mean
  // ---------------------------------------------------------------------------

  /** From an empty cache, the names inserted are the distinct names in first-seen
      order: the same list the bulk writer deduplicates to. */
  lemma {:induction false} NewNamesDistinct(xs: seq<string>)
    ensures NewNames({}, xs) == SqldbStore.Distinct(xs)
    decreases |xs|
  {
    if xs != [] {
      var init, a := xs[..|xs| - 1], xs[|xs| - 1];
      assert xs == init + [a];
      NewNamesDistinct(init);
      NewNamesAppend({}, init, [a]);
      assert {} + SqldbStore.Elems(init) == SqldbStore.Elems(init);
      NewNamesOne(SqldbStore.Elems(init), a);
      SqldbStore.DistinctSnoc(init, a);
      assert a in init <==> a in SqldbStore.Elems(init);
    }
  }

  /** The ids the actor cache ends with: each name gets the id of the row inserted for
      it, `first` being the actors table's counter before the run. */
  function ActorIds(names: seq<string>, first: int): (r: map<string, int>)
    ensures r.Keys == SqldbStore.Elems(names)
    ensures forall a :: a in r ==> first <= r[a] < first + |names| && names[r[a] - first] == a
  {
    map a | a in SqldbStore.Elems(names) :: first + SqldbStore.FirstIndex(names, a)
  }

  /** A cache grown from empty by `added` is `ActorIds(added, first)`. */
  lemma ExtendsEmpty(cache: map<string, int>, added: seq<string>, first: int)
    requires Extends(map[], cache, added, first)
    ensures cache == ActorIds(added, first)
  {
    var ids := ActorIds(added, first);
    assert cache.Keys == ids.Keys;
    forall a | a in cache ensures cache[a] == ids[a] {
      var k := SqldbStore.FirstIndex(added, a);
      assert added[k] == a;
    }
  }

  /** `InsertMovies(tx, ms)` as a whole: it stops at the first refused INSERT; when none
      is refused it has appended the movies numbered in order, each movie's locations
      under its number, each distinct actor name once in first-seen order, and one
      relation row per actor occurrence pointing at the id inserted for that name. */
  lemma InsertMoviesWrites(s: Session, ms: seq<DataLoad.Movie>, refused: nat -> bool)
    requires Writable(s.tables)
    ensures var r := InsertMoviesRun(s, ms, refused);
      Outcome(refused, s.requests, r.0, r.1)
    ensures var r := InsertMoviesRun(s, ms, refused); var n := s.tables[Movies].nextId;
      var names := SqldbStore.Distinct(ActorNames(ms));
      r.1.None? ==> r.0.tables == Written(s.tables, MovieRows(ms), LocationRows(ms, n), SqldbStore.ActorRows(names),
                                          RelationRows(ms, n, ActorIds(names, s.tables[Actors].nextId))) &&
                    r.0.requests == s.requests + |ms| + |LocationRows(ms, n)| + |names| + |ActorNames(ms)|
  {
    var empty: map<string, int> := map[];
    assert empty.Keys == {};
    MoviesRunWrites(s, ms, empty, refused);
    NewNamesDistinct(ActorNames(ms));
    var r := MoviesRun(s, ms, empty, refused);
    if r.2.None? {
      ExtendsEmpty(r.1, SqldbStore.Distinct(ActorNames(ms)), s.tables[Actors].nextId);
    }
  }

  /** `row` is location `j` of movie `k`, under the id `n + k` of that movie. */
  ghost predicate LocationOf(ms: seq<DataLoad.Movie>, n: int, row: Row) {
    exists k, j :: 0 <= k < |ms| && 0 <= j < |ms[k].locations| && row == LocationRow(n + k, ms[k].locations[j])
  }

  /** Every location row is a location of a movie, under that movie's id. */
  lemma {:induction false} LocationRowsIndex(ms: seq<DataLoad.Movie>, n: int)
    ensures forall p :: 0 <= p < |LocationRows(ms, n)| ==> LocationOf(ms, n, LocationRows(ms, n)[p])
    decreases |ms|
  {
    if ms != [] {
      LocationRowsIndex(ms[1..], n + 1);
      LocationRowsCons(ms, n);
      var head, tail := MovieLocationRows(n, ms[0].locations), LocationRows(ms[1..], n + 1);
      forall p | 0 <= p < |LocationRows(ms, n)| ensures LocationOf(ms, n, LocationRows(ms, n)[p]) {
        if p < |head| {
          assert LocationRows(ms, n)[p] == head[p] == LocationRow(n + 0, ms[0].locations[p]);
        } else {
          var q := p - |head|;
          assert LocationRows(ms, n)[p] == tail[q];
          assert LocationOf(ms[1..], n + 1, tail[q]);
          var k, j :| 0 <= k < |ms[1..]| && 0 <= j < |ms[1..][k].locations| &&
            tail[q] == LocationRow(n + 1 + k, ms[1..][k].locations[j]);
          assert ms[1..][k] == ms[k + 1];
          assert LocationRows(ms, n)[p] == LocationRow(n + (k + 1), ms[k + 1].locations[j]);
        }
      }
    }
  }

  /** Movie `k`'s row is numbered `n + k`: the id its locations carry. */
  lemma MovieRowsNumbered(ms: seq<DataLoad.Movie>, n: int)
    ensures forall k :: 0 <= k < |ms| ==> NumberedFrom(MovieRows(ms), n)[k] == [Int(n + k)] + MovieRow(ms[k])[1..]
  {
    forall k | 0 <= k < |ms| ensures NumberedFrom(MovieRows(ms), n)[k] == [Int(n + k)] + MovieRow(ms[k])[1..] {
      assert MovieRows(ms)[k] == MovieRow(ms[k]);
    }
  }

  /** `row` pairs the id of a movie holding `name` with `id`. */
  ghost predicate RelationOf(ms: seq<DataLoad.Movie>, n: int, name: string, id: int, row: Row) {
    exists k :: 0 <= k < |ms| && name in ms[k].actors && row == RelationRow(n + k, id)
  }

  /** Relation row `p` pairs the id of a movie holding name `p` of `ActorNames(ms)` with
      the id `ids` gives that name. */
  lemma {:induction false} RelationRowsIndex(ms: seq<DataLoad.Movie>, n: int, ids: map<string, int>)
    ensures |RelationRows(ms, n, ids)| == |ActorNames(ms)|
    ensures forall p :: 0 <= p < |RelationRows(ms, n, ids)| ==>
      RelationOf(ms, n, ActorNames(ms)[p], SqldbStore.IdOf(ids, ActorNames(ms)[p]), RelationRows(ms, n, ids)[p])
    decreases |ms|
  {
    if ms != [] {
      RelationRowsIndex(ms[1..], n + 1, ids);
      var head, tail := MovieRelationRows(n, ms[0].actors, ids), RelationRows(ms[1..], n + 1, ids);
      var names := ActorNames(ms);
      assert names == ms[0].actors + ActorNames(ms[1..]);
      forall p | 0 <= p < |RelationRows(ms, n, ids)|
        ensures RelationOf(ms, n, names[p], SqldbStore.IdOf(ids, names[p]), RelationRows(ms, n, ids)[p])
      {
        if p < |head| {
          assert names[p] == ms[0].actors[p];
          assert RelationRows(ms, n, ids)[p] == RelationRow(n + 0, SqldbStore.IdOf(ids, names[p]));
        } else {
          var q := p - |head|;
          assert RelationRows(ms, n, ids)[p] == tail[q] && names[p] == ActorNames(ms[1..])[q];
          assert RelationOf(ms[1..], n + 1, names[p], SqldbStore.IdOf(ids, names[p]), tail[q]);
          var k :| 0 <= k < |ms[1..]| && names[p] in ms[1..][k].actors &&
            tail[q] == RelationRow(n + 1 + k, SqldbStore.IdOf(ids, names[p]));
          assert ms[1..][k] == ms[k + 1];
          assert RelationRows(ms, n, ids)[p] == RelationRow(n + (k + 1), SqldbStore.IdOf(ids, names[p]));
        }
      }
    }
  }

  /** The id `ActorIds` gives a name is that of the actor row inserted for it. */
  /** An inserted name has its row among the actor rows numbered from `first`, at the id
      `ActorIds` gives it. */
  lemma ActorIdRow(names: seq<string>, first: int, a: string)
    requires a in names
    ensures var id := SqldbStore.IdOf(ActorIds(names, first), a);
      0 <= id - first < |names| && NumberedFrom(SqldbStore.ActorRows(names), first)[id - first] == [Int(id), Text(a)]
  {
    assert a in SqldbStore.Elems(names);
    var j := ActorIds(names, first)[a] - first;
    assert SqldbStore.ActorRows(names)[j] == SqldbStore.ActorRow(a);
  }

  // ---------------------------------------------------------------------------
  // StoreMovies
  // ---------------------------------------------------------------------------

  /** The callback of `StoreMovies`: `InitTables` with the `omdb` side table, then
      `InsertMovies`. */
  function InitAndInsertRun(s: Session, ms: seq<DataLoad.Movie>, refused: nat -> bool): (Session, Option<Error>)
  {
    var i := RunScript(s, Schema.InitScript(Omdb), refused);
    if i.1.Some? then i else InsertMoviesRun(i.0, ms, refused)
  }

  method InitAndInsert(tx: Tx, ms: seq<DataLoad.Movie>) returns (err: Option<Error>)
    modifies tx
    ensures (tx.State(), err) == InitAndInsertRun(old(tx.State()), ms, tx.refused)
  {
    err := Schema.InitTables(tx, Omdb);
    if err.Some? {
      return;
    }
    err := InsertMovies(tx, ms);
  }

  /** `StoreMovies(db, ms)`: the tables (re)initialised and the movies written, in one
      transaction. */
  method StoreMovies(db: Db, ms: seq<DataLoad.Movie>) returns (err: Option<Error>)
    modifies db
    ensures (db.tables, db.requests, err) == Transaction(old(db.tables), old(db.requests),
      InitAndInsertRun(TxStart(old(db.tables), old(db.requests)), ms, db.refused), db.refused)
  {
    var b := db.Begin();
    if b.Failure? {
      return Some(b.error);
    }
    var tx := b.value;
    assert tx.State() == TxStart(old(db.tables), old(db.requests));
    err := InitAndInsert(tx, ms);
    err := db.Settle(tx, err);
  }

  /** `InitTables` leaves the tables the writer expects, the entity tables empty. */
  lemma InitWritable(ts: Tables)
    requires SqldbStore.Keyed(ts)
    ensures var i := Schema.InitResult(ts, Omdb);
      Writable(i) && i[Movies].rows == [] && i[Locations].rows == [] && i[Actors].rows == [] && i[MoviesActors].rows == []
  {
    Schema.InitResultTable(ts, Omdb, Movies);
    Schema.InitResultTable(ts, Omdb, Locations);
    Schema.InitResultTable(ts, Omdb, Actors);
    Schema.InitResultTable(ts, Omdb, MoviesActors);
  }

  /** No cast names an actor twice. Movies get ids of their own here, so this is what the
      key `(movie_id, actor_id)` of `movies_actors` asks of the relation rows. */
  predicate CastsDistinct(ms: seq<DataLoad.Movie>) {
    forall i :: 0 <= i < |ms| ==> SqldbStore.NoRepeats(ms[i].actors)
  }

  /** Each cast name is among the actor names. */
  lemma {:induction false} ActorNamesMembers(ms: seq<DataLoad.Movie>)
    ensures forall k, a :: 0 <= k < |ms| && a in ms[k].actors ==> a in ActorNames(ms)
    decreases |ms|
  {
    if ms != [] {
      ActorNamesMembers(ms[1..]);
      assert forall k :: 1 <= k < |ms| ==> ms[k] == ms[1..][k - 1];
    }
  }

  /** With casts that name no actor twice and an id of its own for every actor, the
      relation rows respect the key: the movies get distinct ids, and within a movie the
      actors do. */
  lemma {:induction false} RelationRowsKeyed(ms: seq<DataLoad.Movie>, n: int, ids: map<string, int>)
    requires CastsDistinct(ms)
    requires forall k, a :: 0 <= k < |ms| && a in ms[k].actors ==> a in ids
    requires forall a, b :: a in ids && b in ids && a != b ==> ids[a] != ids[b]
    ensures SqldbStore.DistinctRows(RelationRows(ms, n, ids))
    decreases |ms|
  {
    if ms != [] {
      var tail := RelationRows(ms[1..], n + 1, ids);
      var head := MovieRelationRows(n, ms[0].actors, ids);
      assert forall k :: 1 <= k < |ms| ==> ms[k] == ms[1..][k - 1];
      RelationRowsKeyed(ms[1..], n + 1, ids);
      var rows := head + tail;
      forall p, q | 0 <= p < q < |rows| ensures rows[p] != rows[q] {
        if q < |head| {
          assert ms[0].actors[p] != ms[0].actors[q];
          assert rows[p][1] != rows[q][1];
        } else if p < |head| {
          LaterMovieRow(ms[1..], n + 1, ids, q - |head|);
          assert rows[p][0] == Int(n) && rows[q] == tail[q - |head|];
        } else {
          assert rows[p] == tail[p - |head|] && rows[q] == tail[q - |head|];
        }
      }
    }
  }

  /** Every relation row of the movies numbered from `n` names a movie numbered `n` or later. */
  lemma LaterMovieRow(ms: seq<DataLoad.Movie>, n: int, ids: map<string, int>, r: nat)
    requires r < |RelationRows(ms, n, ids)|
    ensures |RelationRows(ms, n, ids)[r]| == 2 && forall m :: m < n ==> RelationRows(ms, n, ids)[r][0] != Int(m)
  {
    RelationRowsIndex(ms, n, ids);
    var name := ActorNames(ms)[r];
    assert RelationOf(ms, n, name, SqldbStore.IdOf(ids, name), RelationRows(ms, n, ids)[r]);
  }

  /** A movie naming one actor in two slots gives two equal relation rows: the server
      refuses them under the key, and `StoreMovies` rolls back. */
  lemma {:induction false} RepeatedActorBreaksKey(ms: seq<DataLoad.Movie>, n: int, ids: map<string, int>,
                                                  i: nat, j1: nat, j2: nat)
    requires i < |ms| && j1 < j2 < |ms[i].actors| && ms[i].actors[j1] == ms[i].actors[j2]
    ensures !SqldbStore.DistinctRows(RelationRows(ms, n, ids))
    decreases |ms|
  {
    var head, tail := MovieRelationRows(n, ms[0].actors, ids), RelationRows(ms[1..], n + 1, ids);
    var rows := head + tail;
    if i == 0 {
      assert rows[j1] == rows[j2];
    } else {
      assert ms[1..][i - 1] == ms[i];
      RepeatedActorBreaksKey(ms[1..], n + 1, ids, i - 1, j1, j2);
      var p, q :| 0 <= p < q < |tail| && tail[p] == tail[q];
      assert rows[|head| + p] == rows[|head| + q];
    }
  }

  /** The relation rows `StoreMovies` writes respect the key of `movies_actors` exactly
      when no cast names an actor twice. */
  lemma StoredRelationsKeyed(ms: seq<DataLoad.Movie>, n: int, first: int)
    ensures var names := SqldbStore.Distinct(ActorNames(ms));
      SqldbStore.DistinctRows(RelationRows(ms, n, ActorIds(names, first))) <==> CastsDistinct(ms)
  {
    var names := SqldbStore.Distinct(ActorNames(ms));
    var ids := ActorIds(names, first);
    if CastsDistinct(ms) {
      ActorNamesMembers(ms);
      SqldbStore.DistinctMembers(ActorNames(ms));
      RelationRowsKeyed(ms, n, ids);
    } else {
      var i, j1, j2 :| 0 <= i < |ms| && 0 <= j1 < j2 < |ms[i].actors| && ms[i].actors[j1] == ms[i].actors[j2];
      RepeatedActorBreaksKey(ms, n, ids, i, j1, j2);
    }
  }

  /** On a database of this schema whose server refuses nothing, `StoreMovies` commits,
      and the four entity tables then hold exactly what `InsertMovies` writes: the movies
      numbered from the movies table's counter, their locations under those ids, the
      distinct actor names, and one relation row per actor occurrence. Every other table is
      as it was. */
  lemma StoreMoviesCommits(ts: Tables, requests: nat, ms: seq<DataLoad.Movie>, refused: nat -> bool)
    requires Schema.Shaped(ts) && SqldbStore.Keyed(ts) && forall k :: !refused(k)
    requires CastsDistinct(ms)
    ensures var i := Schema.InitResult(ts, Omdb);
      var r := Transaction(ts, requests, InitAndInsertRun(TxStart(ts, requests), ms, refused), refused);
      Writable(i) && r.2.None? &&
      r.0 == Written(i, MovieRows(ms), LocationRows(ms, i[Movies].nextId), SqldbStore.ActorRows(SqldbStore.Distinct(ActorNames(ms))),
                     RelationRows(ms, i[Movies].nextId, ActorIds(SqldbStore.Distinct(ActorNames(ms)), i[Actors].nextId)))
    ensures var i := Schema.InitResult(ts, Omdb);
      var r := Transaction(ts, requests, InitAndInsertRun(TxStart(ts, requests), ms, refused), refused);
      Writable(i) && Writable(r.0) &&
      r.0[Movies].rows == NumberedFrom(MovieRows(ms), i[Movies].nextId) &&
      r.0[Actors].rows == NumberedFrom(SqldbStore.ActorRows(SqldbStore.Distinct(ActorNames(ms))), i[Actors].nextId) &&
      forall c :: c in ts && !Schema.IsEntity(c) ==> c in r.0 && r.0[c] == ts[c]
  {
    var s0 := TxStart(ts, requests);
    Schema.InitTablesEffect(s0, Omdb, refused);
    var i := Schema.InitResult(ts, Omdb);
    InitWritable(ts);
    var si := Session(i, s0.log + Texts(Schema.InitScript(Omdb)), s0.requests + 10);
    InsertMoviesWrites(si, ms, refused);
    var w := InsertMoviesRun(si, ms, refused);
    assert w.1.None?;
    assert InitAndInsertRun(s0, ms, refused) == w;
    var names := SqldbStore.Distinct(ActorNames(ms));
    InitKeepsOthers(ts);
    WrittenFresh(ts, i, MovieRows(ms), LocationRows(ms, i[Movies].nextId), SqldbStore.ActorRows(names),
      RelationRows(ms, i[Movies].nextId, ActorIds(names, i[Actors].nextId)));
  }

  /** Creating the schema leaves every table but the four entity tables as it was. */
  lemma InitKeepsOthers(ts: Tables)
    ensures var i := Schema.InitResult(ts, Omdb);
      forall c :: c in ts && !Schema.IsEntity(c) ==> c in i && i[c] == ts[c]
  {
    var i := Schema.InitResult(ts, Omdb);
    forall c | c in ts && !Schema.IsEntity(c) ensures c in i && i[c] == ts[c] {
      Schema.InitResultTable(ts, Omdb, c);
    }
  }

  /** Writing into emptied movies and actors tables leaves exactly the numbered rows there,
      and every table but the entity tables as it was in `ts`. */
  lemma WrittenFresh(ts: Tables, i: Tables, movies: seq<Row>, locations: seq<Row>, actors: seq<Row>, relations: seq<Row>)
    requires Writable(i) && i[Movies].rows == [] && i[Actors].rows == []
    requires forall c :: c in ts && !Schema.IsEntity(c) ==> c in i && i[c] == ts[c]
    ensures var r := Written(i, movies, locations, actors, relations);
      Writable(r) && r[Movies].rows == NumberedFrom(movies, i[Movies].nextId) &&
      r[Actors].rows == NumberedFrom(actors, i[Actors].nextId) &&
      forall c :: c in ts && !Schema.IsEntity(c) ==> c in r && r[c] == ts[c]
  {
    var r := Written(i, movies, locations, actors, relations);
    assert r[Movies].rows == [] + NumberedFrom(movies, i[Movies].nextId);
    assert r[Actors].rows == [] + NumberedFrom(actors, i[Actors].nextId);
  }
}
