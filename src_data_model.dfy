/**
  The writer of the second generation (src/data/model.go). Its `InsertMovies` is the
  row-by-row writer of data/model.go line for line, so `DataModel.InsertMovies` models
  both. `InsertMoviesOptimized`, the one `StoreMovies` calls, still sends one INSERT per
  movie and per new actor (it needs the ids they get), but collects the location and
  movie/actor tuples into two value lists, `" (NULL, %d, '%s', '%s')"` and `" (%d, %d)"`
  joined by `", "`, and sends each list as one INSERT after the loop.

  As written, both INSERTs are sent whatever the lists hold. A feed without locations, or
  without actors, leaves a list empty; the statement `INSERT INTO locations VALUES ` then
  has no tuple, the server rejects it, and the whole store rolls back. `StoreMovies`
  below runs the writer as written. The bulk writer of src/data/sqldb/store.go sends each
  INSERT only when its count is positive; the guarded writer below does the same, and
  `StoreMoviesGuarded` is `StoreMovies` with it.

  Location names and fun facts are quoted by hand, with only `'` escaped; the model reads
  them back as written, which MySQL does only for texts without a backslash
  (`PlainLocations`).
*/
module SrcDataModel {
  import opened Wrappers
  import opened Database
  import GoStrings
  import SqlText
  import Schema
  import SqldbStore
  import DataLoad
  import DataModel

  const LocationsHead := "INSERT INTO locations VALUES "
  const RelationsHead := "INSERT INTO movies_actors VALUES "

  /** The rows the two value lists stand for so far. */
  datatype Pending = Pending(locations: seq<Row>, relations: seq<Row>)

  /** Every location name and fun fact is `SqlText.Plain`: the texts the location tuples
      quote by hand. */
  predicate PlainLocations(ms: seq<DataLoad.Movie>) {
    ms == [] || (PlainPlaces(ms[0].locations) && PlainLocations(ms[1..]))
  }

  /** The name and the fun fact of every location of one movie are `SqlText.Plain`. */
  predicate PlainPlaces(ls: seq<DataLoad.Location>) {
    ls == [] || (SqlText.Plain(ls[0].name) && SqlText.Plain(ls[0].funFact) && PlainPlaces(ls[1..]))
  }

  /** A value list as the loops build it: tuples led by a space, joined by `", "`. */
  function ValuesText(rows: seq<Row>): string {
    GoStrings.Join(SqlText.Tuples(" ", rows), ", ")
  }

  /** The loops' `if len(vals) > 0 { vals += ", " }; vals += val`. */
  function Appended(vals: string, val: string): string {
    (if |vals| > 0 then vals + ", " else vals) + val
  }

  lemma ValuesSnoc(rows: seq<Row>, row: Row)
    ensures ValuesText(rows + [row]) == Appended(ValuesText(rows), SqlText.Tuple(" ", row))
  {
    SqlText.AppendTuple(" ", ", ", rows, row, ValuesText(rows));
  }

  // ---------------------------------------------------------------------------
  // InsertMoviesOptimized
  // ---------------------------------------------------------------------------

  /** The actors' loop of one movie: each actor's id from the cache or a new INSERT, and
      a relation tuple of the movie and that id added to the list; it stops at the first
      error. */
  function ActorsRun(s: Session, movieId: int, actors: seq<string>, cache: map<string, int>, rels: seq<Row>, refused: nat -> bool)
    : (Session, map<string, int>, seq<Row>, Option<Error>)
    decreases |actors|
  {
    if actors == [] then (s, cache, rels, None)
    else
      var (s1, c1, err) := DataModel.CacheActor(s, actors[0], cache, refused);
      if err.Some? then (s1, c1, rels, err)
      else ActorsRun(s1, movieId, actors[1..], c1, rels + [DataModel.RelationRow(movieId, c1[actors[0]])], refused)
  }

  /** One pass of the movies' loop: the movie's INSERT, its location tuples under the id
      that INSERT reported, then its actors. */
  function MovieRun(s: Session, m: DataLoad.Movie, cache: map<string, int>, p: Pending, refused: nat -> bool)
    : (Session, map<string, int>, Pending, Option<Error>)
  {
    var (s1, movieId, err1) := DataModel.InsertRow(s, DataModel.InsertMovieSql, Movies, DataModel.MovieRow(m), refused);
    if err1.Some? then (s1, cache, p, err1)
    else
      var locations := p.locations + DataModel.MovieLocationRows(movieId, m.locations);
      var (s2, c2, rels, err2) := ActorsRun(s1, movieId, m.actors, cache, p.relations, refused);
      (s2, c2, Pending(locations, rels), err2)
  }

  /** The movies' loop, the actor cache and both lists carried from movie to movie. */
  function MoviesRun(s: Session, ms: seq<DataLoad.Movie>, cache: map<string, int>, p: Pending, refused: nat -> bool)
    : (Session, map<string, int>, Pending, Option<Error>)
    decreases |ms|
  {
    if ms == [] then (s, cache, p, None)
    else
      var (s1, c1, p1, err) := MovieRun(s, ms[0], cache, p, refused);
      if err.Some? then (s1, c1, p1, err) else MoviesRun(s1, ms[1..], c1, p1, refused)
  }

  /** One bulk INSERT as written: sent whatever `rows` holds. */
  function BulkRun(s: Session, head: string, name: TableName, rows: seq<Row>, refused: nat -> bool): (Session, Option<Error>)
  {
    Execute(s, head + ValuesText(rows), Insert(name, rows), refused)
  }

  /** One bulk INSERT guarded by its count: nothing is sent for no rows. */
  function GuardedBulkRun(s: Session, head: string, name: TableName, rows: seq<Row>, refused: nat -> bool): (Session, Option<Error>)
  {
    if rows == [] then (s, None) else BulkRun(s, head, name, rows, refused)
  }

  /** What `InsertMoviesOptimized(tx, ms)` does to a session as written: the loop, then
      both bulk INSERTs unconditionally. */
  function InsertMoviesOptimizedRun(s: Session, ms: seq<DataLoad.Movie>, refused: nat -> bool): (Session, Option<Error>)
  {
    var r := MoviesRun(s, ms, map[], Pending([], []), refused);
    if r.3.Some? then (r.0, r.3)
    else
      var e := BulkRun(r.0, LocationsHead, Locations, r.2.locations, refused);
      if e.1.Some? then e else BulkRun(e.0, RelationsHead, MoviesActors, r.2.relations, refused)
  }

  /** The same writer with each bulk INSERT sent only when its list has a tuple. */
  function InsertMoviesGuardedRun(s: Session, ms: seq<DataLoad.Movie>, refused: nat -> bool): (Session, Option<Error>)
  {
    var r := MoviesRun(s, ms, map[], Pending([], []), refused);
    if r.3.Some? then (r.0, r.3)
    else
      var e := GuardedBulkRun(r.0, LocationsHead, Locations, r.2.locations, refused);
      if e.1.Some? then e else GuardedBulkRun(e.0, RelationsHead, MoviesActors, r.2.relations, refused)
  }

  /** The actors' loop of `InsertMoviesOptimized`: `cache'` is the map `as` afterwards,
      `vals'` the relation value list and `count'` the code's `movieActorCount`. */
  method CollectActors(tx: Tx, movieId: int, actors: seq<string>, cache: map<string, int>,
                       rels: seq<Row>, vals: string, count: nat)
    returns (cache': map<string, int>, rels': seq<Row>, vals': string, count': nat, err: Option<Error>)
    requires vals == ValuesText(rels) && count == |rels|
    modifies tx
    ensures (tx.State(), cache', rels', err) == ActorsRun(old(tx.State()), movieId, actors, cache, rels, tx.refused)
    ensures vals' == ValuesText(rels') && count' == |rels'|
  {
    cache', rels', vals', count' := cache, rels, vals, count;
    for j := 0 to |actors|
      invariant ActorsRun(old(tx.State()), movieId, actors, cache, rels, tx.refused) ==
        ActorsRun(tx.State(), movieId, actors[j..], cache', rels', tx.refused)
      invariant vals' == ValuesText(rels') && count' == |rels'|
    {
      assert actors[j..][1..] == actors[j + 1..];
      var a := actors[j];
      var aId: int;
      if a in cache' {
        aId := cache'[a];
      } else {
        var e;
        aId, e := tx.Insert(DataModel.InsertActorSql, Actors, SqldbStore.ActorRow(a));
        if e.Some? {
          return cache', rels', vals', count', e;
        }
        cache' := cache'[a := aId];
      }
      var row := DataModel.RelationRow(movieId, aId);
      ValuesSnoc(rels', row);
      vals' := Appended(vals', SqlText.Tuple(" ", row));
      count' := count' + 1;
      rels' := rels' + [row];
    }
    return cache', rels', vals', count', None;
  }

  /** The locations' loop of `InsertMoviesOptimized`: one movie's tuples appended to the
      location value list; `count` is the code's `locationCount`. */
  method CollectLocations(movieId: int, ls: seq<DataLoad.Location>, ghost done: seq<Row>, vals0: string, count0: nat)
    returns (vals: string, count: nat)
    requires vals0 == ValuesText(done) && count0 == |done|
    ensures vals == ValuesText(done + DataModel.MovieLocationRows(movieId, ls))
    ensures count == |done| + |ls|
  {
    vals, count := vals0, count0;
    ghost var rows := done;
    for j := 0 to |ls|
      invariant rows == done + DataModel.MovieLocationRows(movieId, ls)[..j]
      invariant vals == ValuesText(rows) && count == |rows|
    {
      var row := DataModel.LocationRow(movieId, ls[j]);
      ValuesSnoc(rows, row);
      SqldbStore.PrefixSnoc(done, DataModel.MovieLocationRows(movieId, ls), j);
      vals := Appended(vals, SqlText.Tuple(" ", row));
      count := count + 1;
      rows := rows + [row];
    }
    assert DataModel.MovieLocationRows(movieId, ls)[..|ls|] == DataModel.MovieLocationRows(movieId, ls);
  }

  /** One pass of the movies' loop of `InsertMoviesOptimized`. */
  method CollectMovie(tx: Tx, m: DataLoad.Movie, cache: map<string, int>, p: Pending,
                      locVals: string, locCount: nat, relVals: string, relCount: nat)
    returns (cache': map<string, int>, p': Pending, locVals': string, locCount': nat,
             relVals': string, relCount': nat, err: Option<Error>)
    requires locVals == ValuesText(p.locations) && locCount == |p.locations|
    requires relVals == ValuesText(p.relations) && relCount == |p.relations|
    modifies tx
    ensures (tx.State(), cache', p', err) == MovieRun(old(tx.State()), m, cache, p, tx.refused)
    ensures locVals' == ValuesText(p'.locations) && locCount' == |p'.locations|
    ensures relVals' == ValuesText(p'.relations) && relCount' == |p'.relations|
  {
    var movieId, e := tx.Insert(DataModel.InsertMovieSql, Movies, DataModel.MovieRow(m));
    if e.Some? {
      return cache, p, locVals, locCount, relVals, relCount, e;
    }
    locVals', locCount' := CollectLocations(movieId, m.locations, p.locations, locVals, locCount);
    var rels;
    cache', rels, relVals', relCount', err := CollectActors(tx, movieId, m.actors, cache, p.relations, relVals, relCount);
    p' := Pending(p.locations + DataModel.MovieLocationRows(movieId, m.locations), rels);
  }

  /** The movies' loop of `InsertMoviesOptimized`, shared by both writers: the
      session, cache and lists afterwards are those `MoviesRun` gives. */
  method CollectMovies(tx: Tx, ms: seq<DataLoad.Movie>)
    returns (p: Pending, locVals: string, locCount: nat, relVals: string, relCount: nat, err: Option<Error>)
    modifies tx
    ensures var r := MoviesRun(old(tx.State()), ms, map[], Pending([], []), tx.refused);
      tx.State() == r.0 && p == r.2 && err == r.3
    ensures locVals == ValuesText(p.locations) && locCount == |p.locations|
    ensures relVals == ValuesText(p.relations) && relCount == |p.relations|
  {
    var cache := map[];
    p, locVals, locCount, relVals, relCount := Pending([], []), "", 0, "", 0;
    for i := 0 to |ms|
      invariant MoviesRun(old(tx.State()), ms, map[], Pending([], []), tx.refused) ==
        MoviesRun(tx.State(), ms[i..], cache, p, tx.refused)
      invariant locVals == ValuesText(p.locations) && locCount == |p.locations|
      invariant relVals == ValuesText(p.relations) && relCount == |p.relations|
    {
      assert ms[i..][1..] == ms[i + 1..];
      var e;
      cache, p, locVals, locCount, relVals, relCount, e := CollectMovie(tx, ms[i], cache, p, locVals, locCount, relVals, relCount);
      if e.Some? {
        return p, locVals, locCount, relVals, relCount, e;
      }
    }
    return p, locVals, locCount, relVals, relCount, None;
  }

  /** `InsertMoviesOptimized(tx, ms)` as written. */
  method InsertMoviesOptimized(tx: Tx, ms: seq<DataLoad.Movie>) returns (err: Option<Error>)
    modifies tx
    ensures (tx.State(), err) == InsertMoviesOptimizedRun(old(tx.State()), ms, tx.refused)
  {
    var p;
    var locVals, locCount, relVals, relCount;
    p, locVals, locCount, relVals, relCount, err := CollectMovies(tx, ms);
    if err.Some? {
      return;
    }
    err := tx.Exec(LocationsHead + locVals, Insert(Locations, p.locations));
    if err.Some? {
      return;
    }
    err := tx.Exec(RelationsHead + relVals, Insert(MoviesActors, p.relations));
  }

  /** `InsertMoviesOptimized(tx, ms)` with each bulk INSERT guarded by its count. */
  method InsertMoviesGuarded(tx: Tx, ms: seq<DataLoad.Movie>) returns (err: Option<Error>)
    modifies tx
    ensures (tx.State(), err) == InsertMoviesGuardedRun(old(tx.State()), ms, tx.refused)
  {
    var p;
    var locVals, locCount, relVals, relCount;
    p, locVals, locCount, relVals, relCount, err := CollectMovies(tx, ms);
    if err.Some? {
      return;
    }
    if locCount > 0 {
      err := tx.Exec(LocationsHead + locVals, Insert(Locations, p.locations));
      if err.Some? {
        return;
      }
    }
    if relCount > 0 {
      err := tx.Exec(RelationsHead + relVals, Insert(MoviesActors, p.relations));
    }
  }

  // ---------------------------------------------------------------------------
  // What the loop writes and collects
  // ---------------------------------------------------------------------------

  /** The first actor's rows and those of the others are the rows of all. */
  lemma ActorsCollectCompose(ts: Tables, ts1: Tables, ts2: Tables, movieId: int, a: string, rest: seq<string>,
                             c0: map<string, int>, c1: map<string, int>, c2: map<string, int>)
    requires DataModel.Writable(ts) && a in c1
    requires ts1 == DataModel.Written(ts, [], [], SqldbStore.ActorRows(DataModel.NewNames(c0.Keys, [a])), [])
    requires DataModel.Extends(c0, c1, DataModel.NewNames(c0.Keys, [a]), ts[Actors].nextId)
    requires ts2 == DataModel.Written(ts1, [], [], SqldbStore.ActorRows(DataModel.NewNames(c1.Keys, rest)), [])
    requires DataModel.Extends(c1, c2, DataModel.NewNames(c1.Keys, rest), ts1[Actors].nextId)
    ensures ts2 == DataModel.Written(ts, [], [], SqldbStore.ActorRows(DataModel.NewNames(c0.Keys, [a] + rest)), [])
    ensures DataModel.Extends(c0, c2, DataModel.NewNames(c0.Keys, [a] + rest), ts[Actors].nextId)
  {
    var d0 := DataModel.NewNames(c0.Keys, [a]);
    var d1 := DataModel.NewNames(c1.Keys, rest);
    DataModel.ActorNamesSplit(c0, c1, a, rest, ts[Actors].nextId);
    WrittenActorRows(ts, d0, d1);
    DataModel.ExtendsChain(c0, c1, c2, d0, d1, ts[Actors].nextId);
  }

  /** The first actor's relation tuple and those of the others are the tuples of all. */
  lemma RelationsCompose(movieId: int, a: string, rest: seq<string>, id: int, c: map<string, int>, rels: seq<Row>, rels2: seq<Row>)
    requires a in c && c[a] == id
    requires rels2 == rels + [DataModel.RelationRow(movieId, id)] + DataModel.MovieRelationRows(movieId, rest, c)
    ensures rels2 == rels + DataModel.MovieRelationRows(movieId, [a] + rest, c)
  {
    assert ([a] + rest)[0] == a && ([a] + rest)[1..] == rest;
    DataModel.MovieRelationRowsCons(movieId, [a] + rest, c);
  }

  /** Inserting two lists of actors is inserting both; the counter moves past the first. */
  lemma WrittenActorRows(ts: Tables, d0: seq<string>, d1: seq<string>)
    requires DataModel.Writable(ts)
    ensures DataModel.Written(DataModel.Written(ts, [], [], SqldbStore.ActorRows(d0), []), [], [], SqldbStore.ActorRows(d1), []) ==
      DataModel.Written(ts, [], [], SqldbStore.ActorRows(d0 + d1), [])
    ensures DataModel.Written(ts, [], [], SqldbStore.ActorRows(d0), [])[Actors].nextId == ts[Actors].nextId + |d0|
  {
    var none: seq<Row> := [];
    DataModel.WrittenTwice(ts, none, none, SqldbStore.ActorRows(d0), none, none, none, SqldbStore.ActorRows(d1), none);
    assert SqldbStore.ActorRows(d0) + SqldbStore.ActorRows(d1) == SqldbStore.ActorRows(d0 + d1);
    assert none + none == none;
    DataModel.WrittenNextIds(ts, none, none, SqldbStore.ActorRows(d0), none);
  }

  /** The actors' loop of one movie: the names not yet cached are inserted once each, in
      first-seen order, with consecutive ids that the cache records; one relation tuple per
      actor is collected, under the id the cache then gives the name; nothing is written to
      the relation table. */
  lemma {:induction false} ActorsRunCollects(s: Session, movieId: int, actors: seq<string>, cache: map<string, int>,
                                             rels: seq<Row>, refused: nat -> bool)
    requires DataModel.Writable(s.tables)
    ensures var r := ActorsRun(s, movieId, actors, cache, rels, refused);
      DataModel.Outcome(refused, s.requests, r.0, r.3)
    ensures var r := ActorsRun(s, movieId, actors, cache, rels, refused); var added := DataModel.NewNames(cache.Keys, actors);
      r.3.None? ==> r.0.tables == DataModel.Written(s.tables, [], [], SqldbStore.ActorRows(added), []) &&
                    r.2 == rels + DataModel.MovieRelationRows(movieId, actors, r.1) &&
                    r.0.requests == s.requests + |added| &&
                    DataModel.Extends(cache, r.1, added, s.tables[Actors].nextId)
    decreases |actors|
  {
    if actors == [] {
      DataModel.WrittenNothing(s.tables);
      assert SqldbStore.ActorRows([]) == [];
      assert rels + DataModel.MovieRelationRows(movieId, actors, cache) == rels;
    } else {
      var a := actors[0];
      var (s1, c1, err1) := DataModel.CacheActor(s, a, cache, refused);
      DataModel.CacheActorWrites(s, a, cache, refused);
      if err1.None? {
        var rels1 := rels + [DataModel.RelationRow(movieId, c1[a])];
        ActorsRunCollects(s1, movieId, actors[1..], c1, rels1, refused);
        var r := ActorsRun(s1, movieId, actors[1..], c1, rels1, refused);
        assert r == ActorsRun(s, movieId, actors, cache, rels, refused);
        DataModel.OutcomeChain(refused, s.requests, s1, r.0, r.3);
        if r.3.None? {
          assert actors == [a] + actors[1..];
          ActorsCollectCompose(s.tables, s1.tables, r.0.tables, movieId, a, actors[1..], cache, c1, r.1);
          RelationsCompose(movieId, a, actors[1..], c1[a], r.1, rels, r.2);
        }
      }
    }
  }

  /** One movie: its row numbered by the movies table, its new actors inserted, its
      location and relation tuples collected under that number. */
  lemma MovieRunCollects(s: Session, m: DataLoad.Movie, cache: map<string, int>, p: Pending, refused: nat -> bool)
    requires DataModel.Writable(s.tables)
    ensures var r := MovieRun(s, m, cache, p, refused);
      DataModel.Outcome(refused, s.requests, r.0, r.3)
    ensures var r := MovieRun(s, m, cache, p, refused); var n := s.tables[Movies].nextId;
      var added := DataModel.NewNames(cache.Keys, m.actors);
      r.3.None? ==> r.0.tables == DataModel.Written(s.tables, [DataModel.MovieRow(m)], [], SqldbStore.ActorRows(added), []) &&
                    r.2 == Pending(p.locations + DataModel.MovieLocationRows(n, m.locations),
                                   p.relations + DataModel.MovieRelationRows(n, m.actors, r.1)) &&
                    r.0.requests == s.requests + 1 + |added| &&
                    DataModel.Extends(cache, r.1, added, s.tables[Actors].nextId)
  {
    var row := DataModel.MovieRow(m);
    var (s1, movieId, err1) := DataModel.InsertRow(s, DataModel.InsertMovieSql, Movies, row, refused);
    DataModel.InsertRowNumbered(s, DataModel.InsertMovieSql, Movies, row, refused);
    if err1.None? {
      var none: seq<Row> := [];
      assert s1.tables == DataModel.Written(s.tables, [row], none, none, none) by {
        DataModel.GrownNothing(s.tables[Locations]);
        DataModel.GrownNothing(s.tables[Actors]);
        assert s.tables[MoviesActors].rows + none == s.tables[MoviesActors].rows;
      }
      var r := ActorsRun(s1, movieId, m.actors, cache, p.relations, refused);
      ActorsRunCollects(s1, movieId, m.actors, cache, p.relations, refused);
      DataModel.OutcomeChain(refused, s.requests, s1, r.0, r.3);
      if r.3.None? {
        var acts := SqldbStore.ActorRows(DataModel.NewNames(cache.Keys, m.actors));
        DataModel.WrittenCompose(s.tables, s1.tables, r.0.tables, [row], none, none, none, none, none, acts, none,
          [row], none, acts, none);
        DataModel.WrittenNextIds(s.tables, [row], none, none, none);
      }
    }
  }

  /** The first movie's rows and lists and those of the others are those of all. */
  lemma MoviesCollectCompose(ts: Tables, ts1: Tables, ts2: Tables, ms: seq<DataLoad.Movie>,
                             d0: seq<string>, d1: seq<string>, d: seq<string>, c1: map<string, int>, c2: map<string, int>,
                             p: Pending, p1: Pending, p2: Pending)
    requires DataModel.Writable(ts) && ms != [] && d == d0 + d1
    requires DataModel.MovieRelationRows(ts[Movies].nextId, ms[0].actors, c1) == DataModel.MovieRelationRows(ts[Movies].nextId, ms[0].actors, c2)
    requires ts1 == DataModel.Written(ts, [DataModel.MovieRow(ms[0])], [], SqldbStore.ActorRows(d0), [])
    requires p1 == Pending(p.locations + DataModel.MovieLocationRows(ts[Movies].nextId, ms[0].locations),
                           p.relations + DataModel.MovieRelationRows(ts[Movies].nextId, ms[0].actors, c1))
    requires ts2 == DataModel.Written(ts1, DataModel.MovieRows(ms[1..]), [], SqldbStore.ActorRows(d1), [])
    requires p2 == Pending(p1.locations + DataModel.LocationRows(ms[1..], ts1[Movies].nextId),
                           p1.relations + DataModel.RelationRows(ms[1..], ts1[Movies].nextId, c2))
    ensures ts2 == DataModel.Written(ts, DataModel.MovieRows(ms), [], SqldbStore.ActorRows(d), [])
    ensures p2 == Pending(p.locations + DataModel.LocationRows(ms, ts[Movies].nextId),
                          p.relations + DataModel.RelationRows(ms, ts[Movies].nextId, c2))
  {
    var n := ts[Movies].nextId;
    var none: seq<Row> := [];
    DataModel.WrittenNextIds(ts, [DataModel.MovieRow(ms[0])], none, SqldbStore.ActorRows(d0), none);
    WrittenMoviesTwice(ts, ms, d0, d1, d);
    PendingCompose(ms, n, c1, c2, p, p1, p2);
  }

  /** Writing the first movie and its new actors, then the other movies and theirs, is
      writing all of them at once. */
  lemma WrittenMoviesTwice(ts: Tables, ms: seq<DataLoad.Movie>, d0: seq<string>, d1: seq<string>, d: seq<string>)
    requires DataModel.Writable(ts) && ms != [] && d == d0 + d1
    ensures DataModel.Written(DataModel.Written(ts, [DataModel.MovieRow(ms[0])], [], SqldbStore.ActorRows(d0), []),
                              DataModel.MovieRows(ms[1..]), [], SqldbStore.ActorRows(d1), []) ==
      DataModel.Written(ts, DataModel.MovieRows(ms), [], SqldbStore.ActorRows(d), [])
  {
    var none: seq<Row> := [];
    assert DataModel.MovieRows(ms) == [DataModel.MovieRow(ms[0])] + DataModel.MovieRows(ms[1..]);
    assert SqldbStore.ActorRows(d) == SqldbStore.ActorRows(d0) + SqldbStore.ActorRows(d1);
    assert none + none == none;
    DataModel.WrittenTwice(ts, [DataModel.MovieRow(ms[0])], none, SqldbStore.ActorRows(d0), none,
      DataModel.MovieRows(ms[1..]), none, SqldbStore.ActorRows(d1), none);
  }

  /** The first movie's tuples, then the others' numbered on from `n + 1`, are the tuples
      of all movies numbered from `n`. */
  lemma PendingCompose(ms: seq<DataLoad.Movie>, n: int, c1: map<string, int>, c2: map<string, int>,
                       p: Pending, p1: Pending, p2: Pending)
    requires ms != []
    requires DataModel.MovieRelationRows(n, ms[0].actors, c1) == DataModel.MovieRelationRows(n, ms[0].actors, c2)
    requires p1 == Pending(p.locations + DataModel.MovieLocationRows(n, ms[0].locations),
                           p.relations + DataModel.MovieRelationRows(n, ms[0].actors, c1))
    requires p2 == Pending(p1.locations + DataModel.LocationRows(ms[1..], n + 1),
                           p1.relations + DataModel.RelationRows(ms[1..], n + 1, c2))
    ensures p2 == Pending(p.locations + DataModel.LocationRows(ms, n), p.relations + DataModel.RelationRows(ms, n, c2))
  {
    DataModel.LocationRowsCons(ms, n);
    assert p2.locations == p.locations + DataModel.LocationRows(ms, n);
    assert DataModel.RelationRows(ms, n, c2) ==
      DataModel.MovieRelationRows(n, ms[0].actors, c2) + DataModel.RelationRows(ms[1..], n + 1, c2);
    assert p2.relations == p.relations + DataModel.RelationRows(ms, n, c2);
  }

  /** The movies' loop: the movies numbered in order and each name not cached before
      inserted once; the lists then hold the `k`-th movie's locations under its number and
      one relation tuple per actor of each movie, under the id the cache records. */
  lemma {:induction false} MoviesRunCollects(s: Session, ms: seq<DataLoad.Movie>, cache: map<string, int>, p: Pending, refused: nat -> bool)
    requires DataModel.Writable(s.tables)
    ensures var r := MoviesRun(s, ms, cache, p, refused);
      DataModel.Outcome(refused, s.requests, r.0, r.3)
    ensures var r := MoviesRun(s, ms, cache, p, refused); var n := s.tables[Movies].nextId;
      var added := DataModel.NewNames(cache.Keys, DataModel.ActorNames(ms));
      r.3.None? ==> r.0.tables == DataModel.Written(s.tables, DataModel.MovieRows(ms), [], SqldbStore.ActorRows(added), []) &&
                    r.2 == Pending(p.locations + DataModel.LocationRows(ms, n), p.relations + DataModel.RelationRows(ms, n, r.1)) &&
                    r.0.requests == s.requests + |ms| + |added| &&
                    DataModel.Extends(cache, r.1, added, s.tables[Actors].nextId)
    decreases |ms|
  {
    if ms == [] {
      DataModel.WrittenNothing(s.tables);
      assert SqldbStore.ActorRows([]) == [];
      assert p == Pending(p.locations + [], p.relations + []);
    } else {
      var (s1, c1, p1, err1) := MovieRun(s, ms[0], cache, p, refused);
      MovieRunCollects(s, ms[0], cache, p, refused);
      if err1.None? {
        var r := MoviesRun(s1, ms[1..], c1, p1, refused);
        MoviesRunCollects(s1, ms[1..], c1, p1, refused);
        DataModel.OutcomeChain(refused, s.requests, s1, r.0, r.3);
        if r.3.None? {
          var d0 := DataModel.NewNames(cache.Keys, ms[0].actors);
          var none: seq<Row> := [];
          DataModel.WrittenNextIds(s.tables, [DataModel.MovieRow(ms[0])], none, SqldbStore.ActorRows(d0), none);
          DataModel.MoviesCacheCompose(s.tables[Movies].nextId, ms, cache, c1, r.1, s.tables[Actors].nextId);
          MoviesCollectCompose(s.tables, s1.tables, r.0.tables, ms, d0, DataModel.NewNames(c1.Keys, DataModel.ActorNames(ms[1..])),
            DataModel.NewNames(cache.Keys, DataModel.ActorNames(ms)), c1, r.1, p, p1, r.2);
          assert DataModel.ActorNames(ms) == ms[0].actors + DataModel.ActorNames(ms[1..]);
        }
      }
    }
  }

  // ---------------------------------------------------------------------------
  // The two bulk INSERTs
  // ---------------------------------------------------------------------------

  /** Every location row carries a NULL id for the table to fill in. */
  lemma {:induction false} LocationRowsAuto(ms: seq<DataLoad.Movie>, n: int)
    ensures AllAuto(DataModel.LocationRows(ms, n))
    decreases |ms|
  {
    if ms != [] {
      LocationRowsAuto(ms[1..], n + 1);
      var head, tail := DataModel.MovieLocationRows(n, ms[0].locations), DataModel.LocationRows(ms[1..], n + 1);
      DataModel.LocationRowsCons(ms, n);
      forall i | 0 <= i < |head + tail| ensures |(head + tail)[i]| > 0 && (head + tail)[i][0] == Null {
        if i >= |head| {
          assert (head + tail)[i] == tail[i - |head|];
        }
      }
    }
  }

  /** The guarded locations' INSERT: nothing for no rows; otherwise one request, refused
      or appending the rows numbered from the table's counter. */
  lemma GuardedLocations(s: Session, rows: seq<Row>, refused: nat -> bool)
    requires DataModel.Writable(s.tables) && AllAuto(rows)
    ensures var r := GuardedBulkRun(s, LocationsHead, Locations, rows, refused);
      DataModel.Outcome(refused, s.requests, r.0, r.1) &&
      r.0.requests == s.requests + (if rows == [] then 0 else 1) &&
      (r.1.None? ==> r.0.tables == DataModel.Written(s.tables, [], rows, [], []))
  {
    var none: seq<Row> := [];
    if rows == [] {
      DataModel.WrittenNothing(s.tables);
    } else {
      AddRowsNumbered(s.tables[Locations], rows);
      DataModel.GrownNothing(s.tables[Movies]);
      DataModel.GrownNothing(s.tables[Actors]);
      assert s.tables[MoviesActors].rows + none == s.tables[MoviesActors].rows;
    }
  }

  /** The guarded relations' INSERT: nothing for no rows; otherwise one request, refused
      or appending the rows as they are. */
  lemma GuardedRelations(s: Session, rows: seq<Row>, refused: nat -> bool)
    requires DataModel.Writable(s.tables)
    ensures var r := GuardedBulkRun(s, RelationsHead, MoviesActors, rows, refused);
      DataModel.Outcome(refused, s.requests, r.0, r.1) &&
      r.0.requests == s.requests + (if rows == [] then 0 else 1) &&
      (r.1.None? ==> r.0.tables == DataModel.Written(s.tables, [], [], [], rows))
  {
    if rows == [] {
      DataModel.WrittenNothing(s.tables);
    } else {
      AddRowsVerbatim(s.tables[MoviesActors], rows);
      DataModel.GrownNothing(s.tables[Movies]);
      DataModel.GrownNothing(s.tables[Locations]);
      DataModel.GrownNothing(s.tables[Actors]);
    }
  }

  /** From an empty cache and empty lists, a successful loop has inserted the movies and
      the distinct actor names, and collected every location and relation row. */
  lemma CollectedRows(s: Session, ms: seq<DataLoad.Movie>, refused: nat -> bool)
    requires DataModel.Writable(s.tables)
    ensures var r := MoviesRun(s, ms, map[], Pending([], []), refused);
      DataModel.Outcome(refused, s.requests, r.0, r.3)
    ensures var r := MoviesRun(s, ms, map[], Pending([], []), refused); var n := s.tables[Movies].nextId;
      var names := SqldbStore.Distinct(DataModel.ActorNames(ms));
      r.3.None? ==> r.0.tables == DataModel.Written(s.tables, DataModel.MovieRows(ms), [], SqldbStore.ActorRows(names), []) &&
                    r.2 == Pending(DataModel.LocationRows(ms, n),
                                   DataModel.RelationRows(ms, n, DataModel.ActorIds(names, s.tables[Actors].nextId))) &&
                    r.0.requests == s.requests + |ms| + |names|
  {
    var empty: map<string, int> := map[];
    var none: seq<Row> := [];
    assert empty.Keys == {};
    MoviesRunCollects(s, ms, empty, Pending(none, none), refused);
    DataModel.NewNamesDistinct(DataModel.ActorNames(ms));
    var r := MoviesRun(s, ms, empty, Pending(none, none), refused);
    if r.3.None? {
      var n := s.tables[Movies].nextId;
      DataModel.ExtendsEmpty(r.1, SqldbStore.Distinct(DataModel.ActorNames(ms)), s.tables[Actors].nextId);
      assert none + DataModel.LocationRows(ms, n) == DataModel.LocationRows(ms, n);
      assert none + DataModel.RelationRows(ms, n, r.1) == DataModel.RelationRows(ms, n, r.1);
    }
  }

  /** The guarded writer stops at the first refused request; when none is refused it has
      written exactly what the row-by-row writer of data/model.go writes: the movies
      numbered in order, each movie's locations under its number, each distinct actor
      name once in first-seen order, and one relation row per actor occurrence pointing at
      the id inserted for that name. It sends one request per movie and per new actor and
      one per non-empty list. */
  lemma GuardedWrites(s: Session, ms: seq<DataLoad.Movie>, refused: nat -> bool)
    requires DataModel.Writable(s.tables) && PlainLocations(ms)
    ensures var r := InsertMoviesGuardedRun(s, ms, refused);
      DataModel.Outcome(refused, s.requests, r.0, r.1)
    ensures var r := InsertMoviesGuardedRun(s, ms, refused); var n := s.tables[Movies].nextId;
      var names := SqldbStore.Distinct(DataModel.ActorNames(ms));
      var locations := DataModel.LocationRows(ms, n);
      var relations := DataModel.RelationRows(ms, n, DataModel.ActorIds(names, s.tables[Actors].nextId));
      r.1.None? ==> r.0.tables == DataModel.Written(s.tables, DataModel.MovieRows(ms), locations, SqldbStore.ActorRows(names), relations) &&
                    r.0.requests == s.requests + |ms| + |names| + (if locations == [] then 0 else 1) + (if relations == [] then 0 else 1)
  {
    var r := MoviesRun(s, ms, map[], Pending([], []), refused);
    CollectedRows(s, ms, refused);
    if r.3.None? {
      var names := SqldbStore.Distinct(DataModel.ActorNames(ms));
      var movies, actors := DataModel.MovieRows(ms), SqldbStore.ActorRows(names);
      assert DataModel.Writable(r.0.tables);
      LocationRowsAuto(ms, s.tables[Movies].nextId);
      GuardedBulks(r.0, r.2.locations, r.2.relations, refused);
      var e := GuardedBulkRun(r.0, LocationsHead, Locations, r.2.locations, refused);
      var f := if e.1.Some? then e else GuardedBulkRun(e.0, RelationsHead, MoviesActors, r.2.relations, refused);
      assert f == InsertMoviesGuardedRun(s, ms, refused);
      ThenBulks(s, r.0, f.0, f.1, movies, actors, r.2.locations, r.2.relations, refused);
    }
  }

  /** The loop's rows, then the two lists: the rows of all four tables, and the outcome
      of the whole. */
  lemma ThenBulks(s: Session, s1: Session, s2: Session, err: Option<Error>,
                  movies: seq<Row>, actors: seq<Row>, locations: seq<Row>, relations: seq<Row>, refused: nat -> bool)
    requires DataModel.Writable(s.tables)
    requires DataModel.Outcome(refused, s.requests, s1, None) && s1.tables == DataModel.Written(s.tables, movies, [], actors, [])
    requires DataModel.Outcome(refused, s1.requests, s2, err)
    requires err.None? ==> s2.tables == DataModel.Written(s1.tables, [], locations, [], relations)
    ensures DataModel.Outcome(refused, s.requests, s2, err)
    ensures err.None? ==> s2.tables == DataModel.Written(s.tables, movies, locations, actors, relations)
  {
    var none: seq<Row> := [];
    DataModel.OutcomeChain(refused, s.requests, s1, s2, err);
    if err.None? {
      DataModel.WrittenCompose(s.tables, s1.tables, s2.tables, movies, none, actors, none,
        none, locations, none, relations, movies, locations, actors, relations);
    }
  }

  /** The two guarded INSERTs after the loop: stopped at the first refused request, and
      when none is refused the lists written, one request for each that has a tuple. */
  lemma GuardedBulks(s: Session, locations: seq<Row>, relations: seq<Row>, refused: nat -> bool)
    requires DataModel.Writable(s.tables) && AllAuto(locations)
    ensures var e := GuardedBulkRun(s, LocationsHead, Locations, locations, refused);
      var f := if e.1.Some? then e else GuardedBulkRun(e.0, RelationsHead, MoviesActors, relations, refused);
      DataModel.Outcome(refused, s.requests, f.0, f.1) &&
      (f.1.None? ==> f.0.tables == DataModel.Written(s.tables, [], locations, [], relations) &&
                     f.0.requests == s.requests + (if locations == [] then 0 else 1) + (if relations == [] then 0 else 1))
  {
    var none: seq<Row> := [];
    var e := GuardedBulkRun(s, LocationsHead, Locations, locations, refused);
    GuardedLocations(s, locations, refused);
    if e.1.None? {
      assert DataModel.Writable(e.0.tables);
      var f := GuardedBulkRun(e.0, RelationsHead, MoviesActors, relations, refused);
      GuardedRelations(e.0, relations, refused);
      DataModel.OutcomeChain(refused, s.requests, e.0, f.0, f.1);
      if f.1.None? {
        DataModel.WrittenCompose(s.tables, e.0.tables, f.0.tables, none, locations, none, none,
          none, none, none, relations, none, locations, none, relations);
      }
    }
  }

  /** A run that refuses none of its requests succeeds. */
  lemma OutcomeWithoutRefusals(refused: nat -> bool, from: nat, s: Session, err: Option<Error>)
    requires DataModel.Outcome(refused, from, s, err) && forall k :: !refused(k)
    ensures err.None?
  {
  }

  /** With no request refused, the guarded writer and the row-by-row writer both succeed
      and leave the same tables: only the number of requests differs. */
  lemma GuardedAgrees(s: Session, ms: seq<DataLoad.Movie>, refused: nat -> bool)
    requires DataModel.Writable(s.tables) && forall k :: !refused(k)
    requires PlainLocations(ms) && DataModel.CastsDistinct(ms)
    ensures InsertMoviesGuardedRun(s, ms, refused).1.None? && DataModel.InsertMoviesRun(s, ms, refused).1.None?
    ensures InsertMoviesGuardedRun(s, ms, refused).0.tables == DataModel.InsertMoviesRun(s, ms, refused).0.tables
  {
    var g, d := InsertMoviesGuardedRun(s, ms, refused), DataModel.InsertMoviesRun(s, ms, refused);
    GuardedWrites(s, ms, refused);
    DataModel.InsertMoviesWrites(s, ms, refused);
    OutcomeWithoutRefusals(refused, s.requests, g.0, g.1);
    OutcomeWithoutRefusals(refused, s.requests, d.0, d.1);
  }

  /** As written, with no request refused, the writer fails exactly when a list is empty:
      with `EmptyValues(Locations)` when no movie has a location, and otherwise with
      `EmptyValues(MoviesActors)` when no movie has an actor. */
  lemma AsWrittenOutcome(s: Session, ms: seq<DataLoad.Movie>, refused: nat -> bool)
    requires DataModel.Writable(s.tables) && forall k :: !refused(k)
    requires PlainLocations(ms) && DataModel.CastsDistinct(ms)
    ensures InsertMoviesOptimizedRun(s, ms, refused).1 ==
      if DataModel.LocationRows(ms, s.tables[Movies].nextId) == [] then Some(EmptyValues(Locations))
      else if DataModel.ActorNames(ms) == [] then Some(EmptyValues(MoviesActors))
      else None
  {
    var n := s.tables[Movies].nextId;
    var r := MoviesRun(s, ms, map[], Pending([], []), refused);
    CollectedRows(s, ms, refused);
    OutcomeWithoutRefusals(refused, s.requests, r.0, r.3);
    var ids := DataModel.ActorIds(SqldbStore.Distinct(DataModel.ActorNames(ms)), s.tables[Actors].nextId);
    DataModel.RelationRowsIndex(ms, n, ids);
    assert DataModel.Writable(r.0.tables);
    assert r.2.locations == DataModel.LocationRows(ms, n);
    assert |r.2.relations| == |DataModel.ActorNames(ms)|;
  }

  /** When both lists have a tuple the guard changes nothing, whatever the server
      refuses: the written code is wrong only for empty lists. */
  lemma AsWrittenAgrees(s: Session, ms: seq<DataLoad.Movie>, refused: nat -> bool)
    requires DataModel.Writable(s.tables)
    requires DataModel.LocationRows(ms, s.tables[Movies].nextId) != [] && DataModel.ActorNames(ms) != []
    ensures InsertMoviesOptimizedRun(s, ms, refused) == InsertMoviesGuardedRun(s, ms, refused)
  {
    var n := s.tables[Movies].nextId;
    var r := MoviesRun(s, ms, map[], Pending([], []), refused);
    CollectedRows(s, ms, refused);
    if r.3.None? {
      var ids := DataModel.ActorIds(SqldbStore.Distinct(DataModel.ActorNames(ms)), s.tables[Actors].nextId);
      DataModel.RelationRowsIndex(ms, n, ids);
      assert r.2.locations != [] && r.2.relations != [];
    }
  }

  // ---------------------------------------------------------------------------
  // StoreMovies
  // ---------------------------------------------------------------------------

  /** The callback of `StoreMovies`: `InitTables` with the `omdb` side table, then
      `InsertMoviesOptimized` as written. */
  function InitAndInsertRun(s: Session, ms: seq<DataLoad.Movie>, refused: nat -> bool): (Session, Option<Error>)
  {
    var i := RunScript(s, Schema.InitScript(Omdb), refused);
    if i.1.Some? then i else InsertMoviesOptimizedRun(i.0, ms, refused)
  }

  /** The same callback with the guarded writer. */
  function InitAndInsertGuardedRun(s: Session, ms: seq<DataLoad.Movie>, refused: nat -> bool): (Session, Option<Error>)
  {
    var i := RunScript(s, Schema.InitScript(Omdb), refused);
    if i.1.Some? then i else InsertMoviesGuardedRun(i.0, ms, refused)
  }

  method InitAndInsert(tx: Tx, ms: seq<DataLoad.Movie>) returns (err: Option<Error>)
    modifies tx
    ensures (tx.State(), err) == InitAndInsertRun(old(tx.State()), ms, tx.refused)
  {
    err := Schema.InitTables(tx, Omdb);
    if err.Some? {
      return;
    }
    err := InsertMoviesOptimized(tx, ms);
  }

  method InitAndInsertGuarded(tx: Tx, ms: seq<DataLoad.Movie>) returns (err: Option<Error>)
    modifies tx
    ensures (tx.State(), err) == InitAndInsertGuardedRun(old(tx.State()), ms, tx.refused)
  {
    err := Schema.InitTables(tx, Omdb);
    if err.Some? {
      return;
    }
    err := InsertMoviesGuarded(tx, ms);
  }

  /** `StoreMovies(db, ms)`: the tables (re)initialised and the movies written by
      `InsertMoviesOptimized`, in one transaction. */
  method StoreMovies(db: Db, ms: seq<DataLoad.Movie>) returns (err: Option<Error>)
    modifies db
    ensures (db.tables, db.requests, err) == Transaction(old(db.tables), old(db.requests),
      InitAndInsertRun(TxStart(old(db.tables), old(db.requests)), ms, db.refused), db.refused)
  {
    var b := db.Begin();
    if b.Failure? {
      return Some(b.error);
    }
    var tx := b.value;
    assert tx.State() == TxStart(old(db.tables), old(db.requests));
    err := InitAndInsert(tx, ms);
    err := db.Settle(tx, err);
  }

  /** `StoreMovies` with the guarded writer. */
  method StoreMoviesGuarded(db: Db, ms: seq<DataLoad.Movie>) returns (err: Option<Error>)
    modifies db
    ensures (db.tables, db.requests, err) == Transaction(old(db.tables), old(db.requests),
      InitAndInsertGuardedRun(TxStart(old(db.tables), old(db.requests)), ms, db.refused), db.refused)
  {
    var b := db.Begin();
    if b.Failure? {
      return Some(b.error);
    }
    var tx := b.value;
    assert tx.State() == TxStart(old(db.tables), old(db.requests));
    err := InitAndInsertGuarded(tx, ms);
    err := db.Settle(tx, err);
  }

  /** The session `InitTables` leaves when the server refuses nothing. */
  lemma InitSession(ts: Tables, requests: nat, refused: nat -> bool)
    requires Schema.Shaped(ts) && SqldbStore.Keyed(ts) && forall k :: !refused(k)
    ensures var s0 := TxStart(ts, requests);
      RunScript(s0, Schema.InitScript(Omdb), refused) ==
        (Session(Schema.InitResult(ts, Omdb), s0.log + Texts(Schema.InitScript(Omdb)), s0.requests + 10), None)
    ensures DataModel.Writable(Schema.InitResult(ts, Omdb))
  {
    Schema.InitTablesEffect(TxStart(ts, requests), Omdb, refused);
    DataModel.InitWritable(ts);
  }

  /** On a database of this schema whose server refuses nothing, `StoreMovies` of
      src/data commits the same tables as `StoreMovies` of data/model.go when some movie
      has a location and some movie has an actor, so everything proved about the latter's
      result then holds for it. */
  lemma StoreMoviesAgrees(ts: Tables, requests: nat, ms: seq<DataLoad.Movie>, refused: nat -> bool)
    requires Schema.Shaped(ts) && SqldbStore.Keyed(ts) && forall k :: !refused(k)
    requires PlainLocations(ms) && DataModel.CastsDistinct(ms)
    requires exists i :: 0 <= i < |ms| && ms[i].locations != []
    requires exists i :: 0 <= i < |ms| && ms[i].actors != []
    ensures var r := Transaction(ts, requests, InitAndInsertRun(TxStart(ts, requests), ms, refused), refused);
      var d := Transaction(ts, requests, DataModel.InitAndInsertRun(TxStart(ts, requests), ms, refused), refused);
      r.2.None? && d.2.None? && r.0 == d.0
  {
    var s0 := TxStart(ts, requests);
    InitSession(ts, requests, refused);
    var si := RunScript(s0, Schema.InitScript(Omdb), refused).0;
    DataModel.LocationRowsEmpty(ms, si.tables[Movies].nextId);
    DataModel.ActorNamesEmpty(ms);
    AsWrittenAgrees(si, ms, refused);
    GuardedAgrees(si, ms, refused);
    var run, drun := InitAndInsertRun(s0, ms, refused), DataModel.InitAndInsertRun(s0, ms, refused);
    assert run == InsertMoviesOptimizedRun(si, ms, refused);
    assert drun == DataModel.InsertMoviesRun(si, ms, refused);
    TransactionAtomic(ts, requests, run, refused);
    TransactionAtomic(ts, requests, drun, refused);
  }

  /** With the guard the agreement holds for every feed, the empty one included. */
  lemma StoreMoviesGuardedAgrees(ts: Tables, requests: nat, ms: seq<DataLoad.Movie>, refused: nat -> bool)
    requires Schema.Shaped(ts) && SqldbStore.Keyed(ts) && forall k :: !refused(k)
    requires PlainLocations(ms) && DataModel.CastsDistinct(ms)
    ensures var r := Transaction(ts, requests, InitAndInsertGuardedRun(TxStart(ts, requests), ms, refused), refused);
      var d := Transaction(ts, requests, DataModel.InitAndInsertRun(TxStart(ts, requests), ms, refused), refused);
      r.2.None? && d.2.None? && r.0 == d.0
  {
    var s0 := TxStart(ts, requests);
    InitSession(ts, requests, refused);
    var si := RunScript(s0, Schema.InitScript(Omdb), refused).0;
    GuardedAgrees(si, ms, refused);
    var run, drun := InitAndInsertGuardedRun(s0, ms, refused), DataModel.InitAndInsertRun(s0, ms, refused);
    assert run == InsertMoviesGuardedRun(si, ms, refused);
    assert drun == DataModel.InsertMoviesRun(si, ms, refused);
    TransactionAtomic(ts, requests, run, refused);
    TransactionAtomic(ts, requests, drun, refused);
  }

  /** The input that shows the missing guard: storing a feed with no movies. As written
      the locations' INSERT has no tuple, the transaction rolls back and the tables stay
      as they were. */
  lemma EmptyFeedNotStored(ts: Tables, requests: nat, refused: nat -> bool)
    requires Schema.Shaped(ts) && SqldbStore.Keyed(ts) && forall k :: !refused(k)
    ensures var r := Transaction(ts, requests, InitAndInsertRun(TxStart(ts, requests), [], refused), refused);
      r.0 == ts && r.2 == Some(EmptyValues(Locations))
  {
    var s0 := TxStart(ts, requests);
    InitSession(ts, requests, refused);
    var si := RunScript(s0, Schema.InitScript(Omdb), refused).0;
    AsWrittenOutcome(si, [], refused);
    assert DataModel.LocationRows([], si.tables[Movies].nextId) == [];
    var run := InitAndInsertRun(s0, [], refused);
    assert run == InsertMoviesOptimizedRun(si, [], refused);
    TransactionAtomic(ts, requests, run, refused);
  }

  /** With the guard, the same empty feed commits the tables `InitTables` leaves: the
      entity tables cleared, the side tables kept. */
  lemma EmptyFeedClears(ts: Tables, requests: nat, refused: nat -> bool)
    requires Schema.Shaped(ts) && SqldbStore.Keyed(ts) && forall k :: !refused(k)
    ensures var r := Transaction(ts, requests, InitAndInsertGuardedRun(TxStart(ts, requests), [], refused), refused);
      r.0 == Schema.InitResult(ts, Omdb) && r.2.None?
  {
    var s0 := TxStart(ts, requests);
    InitSession(ts, requests, refused);
    var si := RunScript(s0, Schema.InitScript(Omdb), refused).0;
    assert MoviesRun(si, [], map[], Pending([], []), refused) == (si, map[], Pending([], []), None);
    var run := InitAndInsertGuardedRun(s0, [], refused);
    assert run == InsertMoviesGuardedRun(si, [], refused) == (si, None);
    TransactionAtomic(ts, requests, run, refused);
  }
}
