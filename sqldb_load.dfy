/**
  Reading back (src/data/sqldb/load.go): `LoadMovies` reads every movie row into a map
  from id to movie, appends every location row to the movie its `movie_id` names, and
  returns the id/movie pairs sorted by title; `LoadLocations` appends the locations of one
  movie to a list; `LoadMovieInfoJsons` reads the title-to-JSON cache; `LoadMovie` reads one
  movie with its locations.

  `rows.Scan` is modelled on the column values the model stores: an integer destination
  takes an `Int`, a string destination a `Text`, and anything else (a NULL, a wrong column
  count) is a scan error.
*/
module SqldbLoad {
  import opened Wrappers
  import opened Database
  import Types
  import Sorting
  import SqldbStore

  const MoviesSql := "SELECT * FROM movies"
  const AllLocationsSql := "SELECT * FROM locations"
  const MovieLocationsSql := "SELECT * FROM locations AS l WHERE l.movie_id = ?"
  const MovieInfoSql := "SELECT * FROM movie_info"
  const MovieSql := "SELECT * FROM movies WHERE id = ?"

  /** The `movie_id` column of a location row and the `id` column of a movie row. */
  const MovieIdColumn := 1
  const IdColumn := 0

  // ---------------------------------------------------------------------------
  // Scanning rows
  // ---------------------------------------------------------------------------

  /** `rows.Scan(&mId, &m.Title, &m.Writer, &m.Director, &m.Distributor,
      &m.ProductionCompany, &m.ReleaseYear)` into a fresh movie: its id and the movie,
      without locations or actors. */
  function ScanMovie(row: Row): Option<(int, Types.Movie)> {
    if |row| == 7 && row[0].Int? && row[1].Text? && row[2].Text? && row[3].Text? &&
       row[4].Text? && row[5].Text? && row[6].Int?
    then Some((row[0].n, Types.Movie(row[1].s, [], [], row[3].s, row[4].s, row[2].s, row[5].s, row[6].n)))
    else None
  }

  /** Whether cell `i` of a movies row scans into its destination in `Scan`'s order: the
      id and the release year are integers, the five texts are strings (a NULL scans into
      neither). */
  predicate CellScans(row: Row, i: nat)
    requires i < |row|
  {
    if i == 0 || i == 6 then row[i].Int? else row[i].Text?
  }

  /** The cells of a seven-column row that `Scan` assigns from cell `i` on: up to the first
      cell that does not scan. */
  function ScannedFrom(row: Row, i: nat): (k: nat)
    requires |row| == 7 && i <= 7
    ensures i <= k <= 7
    ensures forall j :: i <= j < k ==> CellScans(row, j)
    ensures k < 7 ==> !CellScans(row, k)
    decreases 7 - i
  {
    if i == 7 || !CellScans(row, i) then i else ScannedFrom(row, i + 1)
  }

  /** How many leading destinations `Scan` assigns: none when the row does not have the
      seven columns it expects, otherwise the cells before the first that does not scan. */
  function ScannedCells(row: Row): (k: nat)
    ensures k <= 7 && (k > 0 ==> |row| == 7)
    ensures forall j :: 0 <= j < k ==> CellScans(row, j)
  {
    if |row| == 7 then ScannedFrom(row, 0) else 0
  }

  /** The movie `LoadMovie` scans into, as `Scan` leaves it: `Scan` assigns its destinations
      one by one and returns at the first cell that fails, so the fields before that cell
      hold their columns and the others keep their zero values. */
  function ScanMovieInto(row: Row): Types.Movie {
    var k := ScannedCells(row);
    Types.EmptyMovie.(
      title := if k > 1 then row[1].s else "",
      writer := if k > 2 then row[2].s else "",
      director := if k > 3 then row[3].s else "",
      distributor := if k > 4 then row[4].s else "",
      productionCompany := if k > 5 then row[5].s else "",
      releaseYear := if k > 6 then row[6].n else 0)
  }

  /** `Scan` succeeds exactly when it assigns all seven cells, and then the movie it has
      filled is the scanned movie. */
  lemma ScanMovieIntoAgrees(row: Row)
    ensures ScanMovie(row).Some? <==> ScannedCells(row) == 7
    ensures ScanMovie(row).Some? ==> ScanMovieInto(row) == ScanMovie(row).value.1
  {
    if |row| == 7 && ScannedCells(row) == 7 {
      assert CellScans(row, 0) && CellScans(row, 1) && CellScans(row, 2) && CellScans(row, 3);
      assert CellScans(row, 4) && CellScans(row, 5) && CellScans(row, 6);
    }
  }

  /** A NULL cell stops the scan: no destination from its column on is assigned. */
  lemma NullStopsScan(row: Row, j: nat)
    requires j < |row| && row[j] == Null
    ensures ScannedCells(row) <= j
  {
  }

  /** A movie row with a NULL writer scans only its title: the movie returned with the
      error is the zero movie with that title. */
  lemma NullWriterKeepsTitle()
    ensures ScanMovieInto([Int(1), Text("T"), Null, Text("D"), Text("Di"), Text("P"), Int(2000)]) ==
      Types.EmptyMovie.(title := "T")
  {
    var row := [Int(1), Text("T"), Null, Text("D"), Text("Di"), Text("P"), Int(2000)];
    assert ScannedFrom(row, 2) == 2;
    assert ScannedFrom(row, 1) == 2;
  }

  /** `rows.Scan(&lId, &mId, &l.Name, &l.FunFact)`: the movie id and the location, whose
      coordinates stay zero. */
  function ScanLocation(row: Row): Option<(int, Types.Location)> {
    if |row| == 4 && row[0].Int? && row[1].Int? && row[2].Text? && row[3].Text?
    then Some((row[1].n, Types.Location(row[2].s, row[3].s, Types.NoCoordinates)))
    else None
  }

  /** `rows.Scan(&t, &i)` on a `movie_info` row: the title and the JSON text. */
  function ScanInfo(row: Row): Option<(string, string)> {
    if |row| == 2 && row[0].Text? && row[1].Text? then Some((row[0].s, row[1].s)) else None
  }

  /** A movie as it reads back from its row: the stored columns, no locations, no actors. */
  function Bare(m: Types.Movie): Types.Movie {
    m.(locations := [], actors := [])
  }

  /** A movie row written by `InsertMovies` and numbered by the table scans back to its
      id and the movie without locations and actors. */
  lemma ScanStoredMovie(m: Types.Movie, id: int)
    ensures ScanMovie(Numbered(SqldbStore.MovieRow(m), id)) == Some((id, Bare(m)))
  {
  }

  /** A location row written by `InsertMovies` scans back to its movie id and the
      location, whose coordinates are not stored. */
  lemma ScanStoredLocation(movieId: int, l: Types.Location, id: int)
    ensures ScanLocation(Numbered(SqldbStore.LocationRow(movieId, l), id)) ==
      Some((movieId, l.(coordinates := Types.NoCoordinates)))
  {
  }

  // ---------------------------------------------------------------------------
  // LoadMovies
  // ---------------------------------------------------------------------------

  /** The map the movies' scan loop fills, `idMovieMap[mId] = &m` row after row; None when
      a row does not scan. */
  function MoviesById(rows: seq<Row>): Option<map<int, Types.Movie>> {
    if rows == [] then Some(map[])
    else match MoviesById(rows[..|rows| - 1])
      case None => None
      case Some(m) =>
        match ScanMovie(rows[|rows| - 1])
        case None => None
        case Some(p) => Some(m[p.0 := p.1])
  }

  /** A row that does not scan ends the loop, whatever follows it. */
  lemma {:induction false} MoviesByIdStuck(rows: seq<Row>, i: nat)
    requires i < |rows| && MoviesById(rows[..i + 1]).None?
    ensures MoviesById(rows).None?
    decreases |rows|
  {
    if i + 1 < |rows| {
      var init := rows[..|rows| - 1];
      assert init[..i + 1] == rows[..i + 1];
      MoviesByIdStuck(init, i);
    } else {
      assert rows[..i + 1] == rows;
    }
  }

  /** The scan loop of `LoadMovies`. */
  method ScanMovies(rows: seq<Row>) returns (r: Option<map<int, Types.Movie>>)
    ensures r == MoviesById(rows)
  {
    var idMovieMap := map[];
    for i := 0 to |rows|
      invariant MoviesById(rows[..i]) == Some(idMovieMap)
    {
      assert rows[..i + 1][..i] == rows[..i];
      var p := ScanMovie(rows[i]);
      if p.None? {
        MoviesByIdStuck(rows, i);
        return None;
      }
      idMovieMap := idMovieMap[p.value.0 := p.value.1];
    }
    assert rows[..|rows|] == rows;
    return Some(idMovieMap);
  }

  /** Rows whose `k`-th scans to id `n + k` and movie `bs[k]` read back as the map from
      each of those ids to its movie. */
  lemma {:induction false} MoviesByIdNumbered(rows: seq<Row>, n: int, bs: seq<Types.Movie>)
    requires |bs| == |rows|
    requires forall k :: 0 <= k < |rows| ==> ScanMovie(rows[k]) == Some((n + k, bs[k]))
    ensures MoviesById(rows).Some?
    ensures forall id :: id in MoviesById(rows).value <==> n <= id < n + |rows|
    ensures forall k :: 0 <= k < |rows| ==> MoviesById(rows).value[n + k] == bs[k]
  {
    if rows != [] {
      var last := |rows| - 1;
      var init := rows[..last];
      assert forall k :: 0 <= k < |init| ==> init[k] == rows[k];
      MoviesByIdNumbered(init, n, bs[..last]);
      assert ScanMovie(rows[last]) == Some((n + last, bs[last]));
    }
  }

  /** The movies `InsertMovies` numbered from `n` read back as the map from `n + k` to
      the `k`-th movie without locations and actors. */
  lemma StoredMoviesById(ms: seq<Types.Movie>, n: int)
    ensures var byId := MoviesById(NumberedFrom(SqldbStore.MovieRows(ms), n));
      byId.Some? &&
      (forall id :: id in byId.value <==> n <= id < n + |ms|) &&
      forall k :: 0 <= k < |ms| ==> byId.value[n + k] == Bare(ms[k])
  {
    var rows := NumberedFrom(SqldbStore.MovieRows(ms), n);
    var bs := seq(|ms|, k requires 0 <= k < |ms| => Bare(ms[k]));
    forall k | 0 <= k < |rows| ensures ScanMovie(rows[k]) == Some((n + k, bs[k])) {
      ScanStoredMovie(ms[k], n + k);
    }
    MoviesByIdNumbered(rows, n, bs);
    forall k | 0 <= k < |ms| ensures MoviesById(rows).value[n + k] == Bare(ms[k]) {
      assert bs[k] == Bare(ms[k]);
    }
  }

  /** One pass of the locations' scan loop: `m := idMovieMap[mId]; m.Locations =
      append(m.Locations, l)`. A `movie_id` without a movie leaves `m` nil and the Go
      code panics on it; the model reports an error instead. */
  function Attach(byId: map<int, Types.Movie>, row: Row): Result<map<int, Types.Movie>, Error> {
    match ScanLocation(row)
    case None => Failure(ScanFailed)
    case Some(p) =>
      if p.0 in byId then Success(byId[p.0 := byId[p.0].(locations := byId[p.0].locations + [p.1])])
      else Failure(NilMovie(p.0))
  }

  /** The locations' scan loop over `rows`, stopping at the first error. */
  function AttachAll(byId: map<int, Types.Movie>, rows: seq<Row>): Result<map<int, Types.Movie>, Error> {
    if rows == [] then Success(byId)
    else match AttachAll(byId, rows[..|rows| - 1])
      case Failure(e) => Failure(e)
      case Success(m) => Attach(m, rows[|rows| - 1])
  }

  lemma {:induction false} AttachAllStuck(byId: map<int, Types.Movie>, rows: seq<Row>, i: nat)
    requires i < |rows| && AttachAll(byId, rows[..i + 1]).Failure?
    ensures AttachAll(byId, rows) == AttachAll(byId, rows[..i + 1])
    decreases |rows|
  {
    if i + 1 < |rows| {
      var init := rows[..|rows| - 1];
      assert init[..i + 1] == rows[..i + 1];
      AttachAllStuck(byId, init, i);
    } else {
      assert rows[..i + 1] == rows;
    }
  }

  /** `LoadAllLocations`: the query, then the scan loop. */
  function AllLocationsRun(s: Session, byId: map<int, Types.Movie>, refused: nat -> bool): (Session, Result<map<int, Types.Movie>, Error>)
  {
    var (s1, q) := Select(s, AllLocationsSql, Locations, refused);
    if q.Failure? then (s1, Failure(q.error)) else (s1, AttachAll(byId, q.value))
  }

  /** `LoadAllLocations(tx, idMovieMap)`; the movies the map points to are the map's
      values, and the updated map is returned. */
  method LoadAllLocations(tx: Tx, idMovieMap: map<int, Types.Movie>) returns (r: Result<map<int, Types.Movie>, Error>)
    modifies tx
    ensures (tx.State(), r) == AllLocationsRun(old(tx.State()), idMovieMap, tx.refused)
  {
    var q := tx.Query(AllLocationsSql, Locations);
    if q.Failure? {
      return Failure(q.error);
    }
    var rows := q.value;
    var byId := idMovieMap;
    for i := 0 to |rows|
      invariant AttachAll(idMovieMap, rows[..i]) == Success(byId)
    {
      assert rows[..i + 1][..i] == rows[..i];
      var p := ScanLocation(rows[i]);
      if p.None? {
        AttachAllStuck(idMovieMap, rows, i);
        return Failure(ScanFailed);
      }
      var mId := p.value.0;
      if mId !in byId {
        AttachAllStuck(idMovieMap, rows, i);
        return Failure(NilMovie(mId));
      }
      byId := byId[mId := byId[mId].(locations := byId[mId].locations + [p.value.1])];
    }
    assert rows[..|rows|] == rows;
    return Success(byId);
  }

  /** The locations of the rows whose `movie_id` is `id`, in row order. */
  function LocationsOf(rows: seq<Row>, id: int): seq<Types.Location> {
    if rows == [] then []
    else
      LocationsOf(rows[..|rows| - 1], id) +
      match ScanLocation(rows[|rows| - 1])
      case Some(p) => if p.0 == id then [p.1] else []
      case None => []
  }

  /** Reading locations is row by row: the rows of `a + b` give those of `a`, then those
      of `b`. */
  lemma {:induction false} LocationsOfAppend(a: seq<Row>, b: seq<Row>, id: int)
    ensures LocationsOf(a + b, id) == LocationsOf(a, id) + LocationsOf(b, id)
    decreases |b|
  {
    if b == [] {
      assert a + b == a;
    } else {
      var init := b[..|b| - 1];
      assert (a + b)[..|a + b| - 1] == a + init;
      assert (a + b)[|a + b| - 1] == b[|b| - 1];
      LocationsOfAppend(a, init, id);
    }
  }

  /** The loop succeeds exactly when every row scans and names a movie of the map. */
  lemma {:induction false} AttachAllSucceeds(byId: map<int, Types.Movie>, rows: seq<Row>)
    ensures AttachAll(byId, rows).Success? <==>
      forall k :: 0 <= k < |rows| ==> ScanLocation(rows[k]).Some? && ScanLocation(rows[k]).value.0 in byId
  {
    if rows != [] {
      var init := rows[..|rows| - 1];
      AttachAllSucceeds(byId, init);
      AttachAllKeeps(byId, init);
      assert forall k :: 0 <= k < |init| ==> init[k] == rows[k];
    }
  }

  /** When the loop succeeds, every movie keeps its id and its columns and gains the
      locations of the rows that name it, in row order. */
  lemma {:induction false} AttachAllKeeps(byId: map<int, Types.Movie>, rows: seq<Row>)
    ensures AttachAll(byId, rows).Success? ==>
      AttachAll(byId, rows).value.Keys == byId.Keys &&
      forall id :: id in byId ==>
        AttachAll(byId, rows).value[id] == byId[id].(locations := byId[id].locations + LocationsOf(rows, id))
  {
    if rows != [] {
      var init := rows[..|rows| - 1];
      AttachAllKeeps(byId, init);
    }
  }

  /** The work of `LoadMovies` inside its transaction: the movies' query and scan, then
      `LoadAllLocations`. */
  function LoadMoviesRun(s: Session, refused: nat -> bool): (Session, Result<map<int, Types.Movie>, Error>)
  {
    var (s1, q) := Select(s, MoviesSql, Movies, refused);
    if q.Failure? then (s1, Failure(q.error))
    else match MoviesById(q.value)
      case None => (s1, Failure(ScanFailed))
      case Some(byId) => AllLocationsRun(s1, byId, refused)
  }

  /** With both queries answered, `LoadMovies` reads every movie row and attaches every
      location row: its result is the scan loop over the locations table, started from the
      map of the movies table. */
  lemma LoadMoviesReads(s: Session, refused: nat -> bool, byId: map<int, Types.Movie>)
    requires !refused(s.requests) && !refused(s.requests + 1)
    requires Movies in s.tables && Locations in s.tables
    requires MoviesById(s.tables[Movies].rows) == Some(byId)
    ensures LoadMoviesRun(s, refused).1 == AttachAll(byId, s.tables[Locations].rows)
  {
    var s1 := Sent(s, MoviesSql);
    assert Select(s, MoviesSql, Movies, refused) == (s1, Success(s.tables[Movies].rows));
    assert LoadMoviesRun(s, refused) == AllLocationsRun(s1, byId, refused);
  }

  /** The error of a result, as the callback returns it. */
  function ErrorOf<T>(r: Result<T, Error>): Option<Error> {
    if r.Failure? then Some(r.error) else None
  }

  /** The loop `for mId, m := range idMovieMap { ms = append(ms, IdMoviePair{mId, *m}) }`,
      in the order in which Go's map iteration yields the ids, modelled as an arbitrary
      choice of the next id: one pair per entry. */
  method IdMoviePairs(byId: map<int, Types.Movie>) returns (ps: seq<Types.IdMoviePair>)
    ensures |ps| == |byId|
    ensures forall p :: p in ps <==> p.id in byId && p.movie == byId[p.id]
    ensures forall i, j :: 0 <= i < j < |ps| ==> ps[i].id != ps[j].id
  {
    ps := [];
    var rest := byId.Keys;
    while rest != {}
      invariant rest <= byId.Keys
      invariant forall i :: 0 <= i < |ps| ==> ps[i].id in byId && ps[i].id !in rest && ps[i].movie == byId[ps[i].id]
      invariant forall id :: id in byId && id !in rest ==> Types.IdMoviePair(id, byId[id]) in ps
      invariant forall i, j :: 0 <= i < j < |ps| ==> ps[i].id != ps[j].id
      invariant |ps| + |rest| == |byId.Keys|
      decreases |rest|
    {
      HasElement(rest);
      var key :| key in rest;
      ps := ps + [Types.IdMoviePair(key, byId[key])];
      rest := rest - {key};
    }
    assert |byId.Keys| == |byId|;
    forall p | p in ps ensures p.id in byId && p.movie == byId[p.id] {
      var i :| 0 <= i < |ps| && ps[i] == p;
    }
  }

  /** A non-empty set has an element (the witness the key choice below needs). */
  lemma HasElement(keys: set<int>)
    requires keys != {}
    ensures exists key :: key in keys
  {
    if forall key :: key !in keys {
      assert false;
    }
  }

  /** The closure `LoadMovies` hands to `transaction`; `ps` is the slice it fills. */
  method LoadMoviesWork(tx: Tx) returns (ps: seq<Types.IdMoviePair>, err: Option<Error>)
    modifies tx
    ensures var run := LoadMoviesRun(old(tx.State()), tx.refused);
      tx.State() == run.0 && err == ErrorOf(run.1)
    ensures var run := LoadMoviesRun(old(tx.State()), tx.refused);
      err.None? ==> run.1.Success? && |ps| == |run.1.value|
    ensures var run := LoadMoviesRun(old(tx.State()), tx.refused);
      err.None? ==> forall p :: p in ps <==> p.id in run.1.value && p.movie == run.1.value[p.id]
  {
    ps := [];
    var q := tx.Query(MoviesSql, Movies);
    if q.Failure? {
      return ps, Some(q.error);
    }
    var byId := ScanMovies(q.value);
    if byId.None? {
      return ps, Some(ScanFailed);
    }
    var withLocations := LoadAllLocations(tx, byId.value);
    if withLocations.Failure? {
      return ps, Some(withLocations.error);
    }
    ps := IdMoviePairs(withLocations.value);
    err := None;
  }

  /** `LoadMovies(db)`: the transaction, then `sort.Sort(types.ByTitle(ms))`. On any error
      the result is nil. */
  method LoadMovies(db: Db) returns (ms: seq<Types.IdMoviePair>, err: Option<Error>)
    modifies db
    ensures var run := LoadMoviesRun(TxStart(old(db.tables), old(db.requests)), db.refused);
      (db.tables, db.requests, err) ==
        Transaction(old(db.tables), old(db.requests), (run.0, ErrorOf(run.1)), db.refused)
    ensures err.Some? ==> ms == []
    ensures var run := LoadMoviesRun(TxStart(old(db.tables), old(db.requests)), db.refused);
      err.None? ==> run.1.Success? && |ms| == |run.1.value|
    ensures var run := LoadMoviesRun(TxStart(old(db.tables), old(db.requests)), db.refused);
      err.None? ==> forall p :: p in ms <==> p.id in run.1.value && p.movie == run.1.value[p.id]
    ensures err.None? ==> Sorting.SortedBy(ms, Types.TitleOf)
  {
    var b := db.Begin();
    if b.Failure? {
      return [], Some(b.error);
    }
    var tx := b.value;
    assert tx.State() == TxStart(old(db.tables), old(db.requests));
    var ps, e := LoadMoviesWork(tx);
    err := db.Settle(tx, e);
    if err.Some? {
      return [], err;
    }
    ms := Sorting.SortBy(ps, Types.TitleOf);
    assert forall p :: p in ms <==> p in ps by {
      assert multiset(ms) == multiset(ps);
      forall p ensures p in ms <==> p in ps {
        assert p in ms <==> p in multiset(ms);
        assert p in ps <==> p in multiset(ps);
      }
    }
  }

  /** Every movie `LoadMovies` returns has an empty cast: actors are not loaded. */
  lemma LoadedWithoutActors(s: Session, refused: nat -> bool)
    ensures var r := LoadMoviesRun(s, refused).1;
      r.Success? ==> forall id :: id in r.value ==> r.value[id].actors == []
  {
    var (s1, q) := Select(s, MoviesSql, Movies, refused);
    if q.Success? && MoviesById(q.value).Some? {
      var byId := MoviesById(q.value).value;
      MoviesByIdBare(q.value);
      var (s2, q2) := Select(s1, AllLocationsSql, Locations, refused);
      if q2.Success? {
        AttachAllKeeps(byId, q2.value);
      }
    }
  }

  /** The movies' scan leaves every movie without locations and actors. */
  lemma {:induction false} MoviesByIdBare(rows: seq<Row>)
    ensures MoviesById(rows).Some? ==>
      forall id :: id in MoviesById(rows).value ==>
        MoviesById(rows).value[id].locations == [] && MoviesById(rows).value[id].actors == []
  {
    if rows != [] {
      MoviesByIdBare(rows[..|rows| - 1]);
    }
  }

  // ---------------------------------------------------------------------------
  // LoadLocations
  // ---------------------------------------------------------------------------

  /** The scan loop of `LoadLocations`: each row's location appended to `ls`, stopping at
      the first row that does not scan, with what was appended so far. */
  function AppendScanned(ls: seq<Types.Location>, rows: seq<Row>): (seq<Types.Location>, Option<Error>) {
    if rows == [] then (ls, None)
    else
      var (acc, err) := AppendScanned(ls, rows[..|rows| - 1]);
      if err.Some? then (acc, err)
      else match ScanLocation(rows[|rows| - 1])
        case None => (acc, Some(ScanFailed))
        case Some(p) => (acc + [p.1], None)
  }

  lemma {:induction false} AppendScannedStuck(ls: seq<Types.Location>, rows: seq<Row>, i: nat)
    requires i < |rows| && AppendScanned(ls, rows[..i + 1]).1.Some?
    ensures AppendScanned(ls, rows) == AppendScanned(ls, rows[..i + 1])
    decreases |rows|
  {
    if i + 1 < |rows| {
      var init := rows[..|rows| - 1];
      assert init[..i + 1] == rows[..i + 1];
      AppendScannedStuck(ls, init, i);
    } else {
      assert rows[..i + 1] == rows;
    }
  }

  /** One more row of the scan loop, after rows that all scanned. */
  lemma AppendScannedStep(ls: seq<Types.Location>, rows: seq<Row>, i: nat, acc: seq<Types.Location>)
    requires i < |rows| && AppendScanned(ls, rows[..i]) == (acc, None)
    ensures AppendScanned(ls, rows[..i + 1]) ==
      match ScanLocation(rows[i])
      case None => (acc, Some(ScanFailed))
      case Some(p) => (acc + [p.1], None)
  {
    assert rows[..i + 1][..i] == rows[..i];
  }

  /** `LoadLocations(tx, mId, ls)`: the query for the movie's rows, then the scan loop. */
  function MovieLocationsRun(s: Session, mId: int, ls: seq<Types.Location>, refused: nat -> bool): (Session, seq<Types.Location>, Option<Error>)
  {
    var (s1, q) := SelectWhere(s, MovieLocationsSql, Locations, MovieIdColumn, Int(mId), refused);
    if q.Failure? then (s1, ls, Some(q.error))
    else
      var (acc, err) := AppendScanned(ls, q.value);
      (s1, acc, err)
  }

  /** A successful query leaves the run to the scan of its rows. */
  lemma MovieLocationsRunScan(s: Session, mId: int, ls: seq<Types.Location>, refused: nat -> bool, s1: Session, rows: seq<Row>)
    requires SelectWhere(s, MovieLocationsSql, Locations, MovieIdColumn, Int(mId), refused) == (s1, Success(rows))
    ensures MovieLocationsRun(s, mId, ls, refused) == (s1, AppendScanned(ls, rows).0, AppendScanned(ls, rows).1)
  {
  }

  /** `LoadLocations(tx, mId, ls)`: `*ls` is the list the locations are appended to. */
  method LoadLocations(tx: Tx, mId: int, ls: seq<Types.Location>) returns (ls': seq<Types.Location>, err: Option<Error>)
    modifies tx
    ensures (tx.State(), ls', err) == MovieLocationsRun(old(tx.State()), mId, ls, tx.refused)
  {
    ghost var s0 := tx.State();
    var q := tx.QueryWhere(MovieLocationsSql, Locations, MovieIdColumn, Int(mId));
    if q.Failure? {
      return ls, Some(q.error);
    }
    var rows := q.value;
    ghost var s1 := tx.State();
    MovieLocationsRunScan(s0, mId, ls, tx.refused, s1, rows);
    ls' := ls;
    for i := 0 to |rows|
      invariant AppendScanned(ls, rows[..i]) == (ls', None)
      invariant tx.State() == s1
    {
      var p := ScanLocation(rows[i]);
      AppendScannedStep(ls, rows, i, ls');
      if p.None? {
        AppendScannedStuck(ls, rows, i);
        return ls', Some(ScanFailed);
      }
      ls' := ls' + [p.value.1];
    }
    assert rows[..|rows|] == rows;
    return ls', None;
  }

  /** The existing contents of `*ls` are kept, whatever happens. */
  lemma {:induction false} AppendScannedKeeps(ls: seq<Types.Location>, rows: seq<Row>)
    ensures |ls| <= |AppendScanned(ls, rows).0| && AppendScanned(ls, rows).0[..|ls|] == ls
  {
    if rows != [] {
      AppendScannedKeeps(ls, rows[..|rows| - 1]);
    }
  }

  /** When every row names movie `mId` and the loop succeeds, it appends exactly the
      locations of the rows that name `mId`. */
  lemma {:induction false} AppendScannedOf(ls: seq<Types.Location>, rows: seq<Row>, mId: int)
    requires forall x :: x in rows ==> MovieIdColumn < |x| && x[MovieIdColumn] == Int(mId)
    ensures AppendScanned(ls, rows).1.None? <==> forall k :: 0 <= k < |rows| ==> ScanLocation(rows[k]).Some?
    ensures AppendScanned(ls, rows).1.None? ==> AppendScanned(ls, rows).0 == ls + LocationsOf(rows, mId)
  {
    if rows != [] {
      var init := rows[..|rows| - 1];
      assert forall x :: x in init ==> x in rows;
      AppendScannedOf(ls, init, mId);
      assert forall k :: 0 <= k < |init| ==> init[k] == rows[k];
      assert rows[|rows| - 1] in rows;
    }
  }

  /** Selecting the rows that name `mId` keeps exactly the locations filed under it. */
  lemma {:induction false} LocationsOfWhere(rows: seq<Row>, mId: int)
    ensures LocationsOf(RowsWhere(rows, MovieIdColumn, Int(mId)), mId) == LocationsOf(rows, mId)
  {
    if rows != [] {
      var rest := rows[1..];
      LocationsOfWhere(rest, mId);
      assert rows == [rows[0]] + rest;
      LocationsOfAppend([rows[0]], rest, mId);
      assert LocationsOf([rows[0]], mId) == LocationsOf([], mId) +
        match ScanLocation(rows[0])
        case Some(p) => if p.0 == mId then [p.1] else []
        case None => [];
      if MovieIdColumn < |rows[0]| && rows[0][MovieIdColumn] == Int(mId) {
        LocationsOfAppend([rows[0]], RowsWhere(rest, MovieIdColumn, Int(mId)), mId);
      }
    }
  }

  /** `LoadLocations` and `LoadAllLocations` agree: when it succeeds, `LoadLocations`
      appends to `*ls` exactly the locations `LoadAllLocations` attaches to movie `mId`,
      in the same order; and whatever happens, `*ls` keeps its earlier contents. */
  lemma MovieLocationsAgree(s: Session, mId: int, ls: seq<Types.Location>, refused: nat -> bool)
    ensures var r := MovieLocationsRun(s, mId, ls, refused);
      |ls| <= |r.1| && r.1[..|ls|] == ls
    ensures var r := MovieLocationsRun(s, mId, ls, refused);
      r.2.None? ==> Locations in s.tables && r.1 == ls + LocationsOf(s.tables[Locations].rows, mId)
  {
    var (s1, q) := SelectWhere(s, MovieLocationsSql, Locations, MovieIdColumn, Int(mId), refused);
    if q.Success? {
      AppendScannedKeeps(ls, q.value);
      AppendScannedOf(ls, q.value, mId);
      LocationsOfWhere(s.tables[Locations].rows, mId);
    }
  }

  // ---------------------------------------------------------------------------
  // LoadMovieInfoJsons
  // ---------------------------------------------------------------------------

  /** The scan loop of `LoadMovieInfoJsons`: `movieInfo[t] = i` row after row, stopping
      at the first row that does not scan, with the map filled so far. */
  function InfoScan(m: map<string, string>, rows: seq<Row>): (map<string, string>, Option<Error>) {
    if rows == [] then (m, None)
    else
      var (acc, err) := InfoScan(m, rows[..|rows| - 1]);
      if err.Some? then (acc, err)
      else match ScanInfo(rows[|rows| - 1])
        case None => (acc, Some(ScanFailed))
        case Some(p) => (acc[p.0 := p.1], None)
  }

  lemma {:induction false} InfoScanStuck(m: map<string, string>, rows: seq<Row>, i: nat)
    requires i < |rows| && InfoScan(m, rows[..i + 1]).1.Some?
    ensures InfoScan(m, rows) == InfoScan(m, rows[..i + 1])
    decreases |rows|
  {
    if i + 1 < |rows| {
      var init := rows[..|rows| - 1];
      assert init[..i + 1] == rows[..i + 1];
      InfoScanStuck(m, init, i);
    } else {
      assert rows[..i + 1] == rows;
    }
  }

  /** The work of `LoadMovieInfoJsons` inside its transaction, with the map it fills. */
  function InfoRun(s: Session, refused: nat -> bool): (Session, map<string, string>, Option<Error>)
  {
    var (s1, q) := Select(s, MovieInfoSql, MovieInfo, refused);
    if q.Failure? then (s1, map[], Some(q.error))
    else
      var (m, err) := InfoScan(map[], q.value);
      (s1, m, err)
  }

  /** The closure `LoadMovieInfoJsons` hands to `transaction`. */
  method LoadMovieInfoWork(tx: Tx) returns (movieInfo: map<string, string>, err: Option<Error>)
    modifies tx
    ensures (tx.State(), movieInfo, err) == InfoRun(old(tx.State()), tx.refused)
  {
    movieInfo := map[];
    var q := tx.Query(MovieInfoSql, MovieInfo);
    if q.Failure? {
      return movieInfo, Some(q.error);
    }
    var rows := q.value;
    for i := 0 to |rows|
      invariant InfoScan(map[], rows[..i]) == (movieInfo, None)
    {
      assert rows[..i + 1][..i] == rows[..i];
      var p := ScanInfo(rows[i]);
      if p.None? {
        InfoScanStuck(map[], rows, i);
        return movieInfo, Some(ScanFailed);
      }
      movieInfo := movieInfo[p.value.0 := p.value.1];
    }
    assert rows[..|rows|] == rows;
    return movieInfo, None;
  }

  /** `LoadMovieInfoJsons(db)`: the map is returned with the error, filled as far as the
      scan got (empty when the transaction could not begin). */
  method LoadMovieInfoJsons(db: Db) returns (movieInfo: map<string, string>, err: Option<Error>)
    modifies db
    ensures var run := InfoRun(TxStart(old(db.tables), old(db.requests)), db.refused);
      (db.tables, db.requests, err) == Transaction(old(db.tables), old(db.requests), (run.0, run.2), db.refused)
    ensures var run := InfoRun(TxStart(old(db.tables), old(db.requests)), db.refused);
      movieInfo == if db.refused(old(db.requests)) then map[] else run.1
  {
    var b := db.Begin();
    if b.Failure? {
      return map[], Some(b.error);
    }
    var tx := b.value;
    assert tx.State() == TxStart(old(db.tables), old(db.requests));
    var e;
    movieInfo, e := LoadMovieInfoWork(tx);
    err := db.Settle(tx, e);
  }

  /** A scan that got through `a` goes on with `b` from the map `a` gave. */
  lemma {:induction false} InfoScanAppend(m: map<string, string>, a: seq<Row>, b: seq<Row>)
    requires InfoScan(m, a).1.None?
    ensures InfoScan(m, a + b) == InfoScan(InfoScan(m, a).0, b)
    decreases |b|
  {
    if b == [] {
      assert a + b == a;
    } else {
      var init := b[..|b| - 1];
      assert (a + b)[..|a + b| - 1] == a + init;
      assert (a + b)[|a + b| - 1] == b[|b| - 1];
      InfoScanAppend(m, a, init);
    }
  }

  /** The loop succeeds exactly when every row scans. */
  lemma {:induction false} InfoScanSucceeds(m: map<string, string>, rows: seq<Row>)
    ensures InfoScan(m, rows).1.None? <==> forall k :: 0 <= k < |rows| ==> ScanInfo(rows[k]).Some?
  {
    if rows != [] {
      var init := rows[..|rows| - 1];
      InfoScanSucceeds(m, init);
      assert forall k :: 0 <= k < |init| ==> init[k] == rows[k];
    }
  }

  /** A title's JSON is that of the last row with the title: a later row with the same
      title overwrites an earlier one. */
  lemma {:induction false} InfoScanLastWins(m: map<string, string>, rows: seq<Row>, k: nat)
    requires InfoScan(m, rows).1.None? && k < |rows| && ScanInfo(rows[k]).Some?
    requires forall j :: k < j < |rows| && ScanInfo(rows[j]).Some? ==> ScanInfo(rows[j]).value.0 != ScanInfo(rows[k]).value.0
    ensures ScanInfo(rows[k]).value.0 in InfoScan(m, rows).0
    ensures InfoScan(m, rows).0[ScanInfo(rows[k]).value.0] == ScanInfo(rows[k]).value.1
  {
    var init := rows[..|rows| - 1];
    if k < |rows| - 1 {
      assert forall j :: 0 <= j < |init| ==> init[j] == rows[j];
      InfoScanLastWins(m, init, k);
    }
  }

  /** Every title in the map was there to begin with or comes from a row. */
  lemma {:induction false} InfoScanKeys(m: map<string, string>, rows: seq<Row>)
    ensures InfoScan(m, rows).1.None? ==>
      forall t :: t in InfoScan(m, rows).0 ==>
        t in m || exists k :: 0 <= k < |rows| && ScanInfo(rows[k]).Some? && ScanInfo(rows[k]).value.0 == t
  {
    if rows != [] {
      var init := rows[..|rows| - 1];
      InfoScanKeys(m, init);
      assert forall k :: 0 <= k < |init| ==> init[k] == rows[k];
    }
  }

  /** Reading back rows written by `StoreMovieInfo` for `info`, in any order that lists
      each title, gives `info`'s JSON for those titles over whatever the earlier rows
      gave. */
  lemma {:induction false} InfoScanStored(m: map<string, string>, info: map<string, string>, titles: seq<string>)
    requires SqldbStore.Elems(titles) <= info.Keys
    ensures InfoScan(m, SqldbStore.InfoRows(info, titles)).1.None?
    ensures InfoScan(m, SqldbStore.InfoRows(info, titles)).0.Keys == m.Keys + SqldbStore.Elems(titles)
    ensures forall t :: t in InfoScan(m, SqldbStore.InfoRows(info, titles)).0 ==>
      InfoScan(m, SqldbStore.InfoRows(info, titles)).0[t] == if t in SqldbStore.Elems(titles) then info[t] else m[t]
  {
    if titles != [] {
      var init := titles[..|titles| - 1];
      var t := titles[|titles| - 1];
      assert titles == init + [t];
      SqldbStore.ElemsSnoc(init, t);
      InfoScanStored(m, info, init);
      SqldbStore.InfoRowsSnoc(info, init, t);
      var rows := SqldbStore.InfoRows(info, titles);
      assert rows[..|rows| - 1] == SqldbStore.InfoRows(info, init);
      assert ScanInfo(rows[|rows| - 1]) == Some((t, info[t]));
      var prev := InfoScan(m, SqldbStore.InfoRows(info, init)).0;
      assert InfoScan(m, rows) == (prev[t := info[t]], None);
    }
  }

  /** Reading the cache back after `StoreMovieInfo` wrote `info` after rows that scan: the
      earlier entries, overridden by `info`. */
  lemma StoredInfoReadsBack(before: seq<Row>, info: map<string, string>, order: seq<string>)
    requires InfoScan(map[], before).1.None?
    requires SqldbStore.Elems(order) == info.Keys && SqldbStore.PlainInfo(info)
    ensures InfoScan(map[], before + SqldbStore.InfoRows(info, order)) ==
      (InfoScan(map[], before).0 + info, None)
  {
    var m := InfoScan(map[], before).0;
    var rows := SqldbStore.InfoRows(info, order);
    InfoScanAppend(map[], before, rows);
    InfoScanStored(m, info, order);
    var r := InfoScan(m, rows).0;
    assert r == m + info by {
      assert r.Keys == (m + info).Keys;
      assert forall t :: t in r ==> r[t] == (m + info)[t];
    }
  }

  // ---------------------------------------------------------------------------
  // LoadMovie
  // ---------------------------------------------------------------------------

  /** The work of `LoadMovie(db, id)` inside its transaction, with the movie it fills:
      `QueryRow` takes the first row with the id, `Scan` reports `ErrNoRows` when there is
      none, then `LoadLocations` appends the movie's locations. */
  function MovieRun(s: Session, id: int, refused: nat -> bool): (Session, Types.Movie, Option<Error>)
  {
    var (s1, q) := SelectWhere(s, MovieSql, Movies, IdColumn, Int(id), refused);
    if q.Failure? then (s1, Types.EmptyMovie, Some(q.error))
    else if q.value == [] then (s1, Types.EmptyMovie, Some(NoRows))
    else match ScanMovie(q.value[0])
      case None => (s1, ScanMovieInto(q.value[0]), Some(ScanFailed))
      case Some(p) =>
        var (s2, ls, err) := MovieLocationsRun(s1, id, p.1.locations, refused);
        (s2, p.1.(locations := ls), err)
  }

  /** The closure `LoadMovie` hands to `transaction`. */
  method LoadMovieWork(tx: Tx, id: int) returns (m: Types.Movie, err: Option<Error>)
    modifies tx
    ensures (tx.State(), m, err) == MovieRun(old(tx.State()), id, tx.refused)
  {
    m := Types.EmptyMovie;
    var q := tx.QueryWhere(MovieSql, Movies, IdColumn, Int(id));
    if q.Failure? {
      return m, Some(q.error);
    }
    if q.value == [] {
      return m, Some(NoRows);
    }
    var p := ScanMovie(q.value[0]);
    if p.None? {
      return ScanMovieInto(q.value[0]), Some(ScanFailed);
    }
    m := p.value.1;
    var ls;
    ls, err := LoadLocations(tx, id, m.locations);
    m := m.(locations := ls);
  }

  /** `LoadMovie(db, id)`: the movie is returned with the error, as far as it was
      filled. */
  method LoadMovie(db: Db, id: int) returns (m: Types.Movie, err: Option<Error>)
    modifies db
    ensures var run := MovieRun(TxStart(old(db.tables), old(db.requests)), id, db.refused);
      (db.tables, db.requests, err) == Transaction(old(db.tables), old(db.requests), (run.0, run.2), db.refused)
    ensures var run := MovieRun(TxStart(old(db.tables), old(db.requests)), id, db.refused);
      m == if db.refused(old(db.requests)) then Types.EmptyMovie else run.1
  {
    var b := db.Begin();
    if b.Failure? {
      return Types.EmptyMovie, Some(b.error);
    }
    var tx := b.value;
    assert tx.State() == TxStart(old(db.tables), old(db.requests));
    var e;
    m, e := LoadMovieWork(tx, id);
    err := db.Settle(tx, e);
  }

  /** What `LoadMovie` reads: the movie is the first row with the id, without actors, and
      its locations are exactly those `LoadAllLocations` attaches to the id. With no such
      row the error is `ErrNoRows`. */
  lemma MovieRunReads(s: Session, id: int, refused: nat -> bool)
    ensures var r := MovieRun(s, id, refused);
      r.2.None? ==> Movies in s.tables && Locations in s.tables
    ensures var r := MovieRun(s, id, refused);
      r.2.None? ==> RowsWhere(s.tables[Movies].rows, IdColumn, Int(id)) != []
    ensures var r := MovieRun(s, id, refused);
      r.2.None? ==> ScanMovie(RowsWhere(s.tables[Movies].rows, IdColumn, Int(id))[0]) == Some((id, r.1.(locations := [])))
    ensures var r := MovieRun(s, id, refused);
      r.2.None? ==> r.1.actors == [] && r.1.locations == LocationsOf(s.tables[Locations].rows, id)
    ensures var r := MovieRun(s, id, refused);
      !refused(s.requests) && Movies in s.tables && RowsWhere(s.tables[Movies].rows, IdColumn, Int(id)) == [] ==>
        r.2 == Some(NoRows) && r.1 == Types.EmptyMovie
    ensures var r := MovieRun(s, id, refused);
      !refused(s.requests) && Movies in s.tables && RowsWhere(s.tables[Movies].rows, IdColumn, Int(id)) != [] &&
      ScannedCells(RowsWhere(s.tables[Movies].rows, IdColumn, Int(id))[0]) < 7 ==>
        r.2 == Some(ScanFailed) && r.1 == ScanMovieInto(RowsWhere(s.tables[Movies].rows, IdColumn, Int(id))[0])
  {
    if Movies in s.tables && RowsWhere(s.tables[Movies].rows, IdColumn, Int(id)) != [] {
      ScanMovieIntoAgrees(RowsWhere(s.tables[Movies].rows, IdColumn, Int(id))[0]);
    }
    var (s1, q) := SelectWhere(s, MovieSql, Movies, IdColumn, Int(id), refused);
    if q.Success? && q.value != [] {
      assert q.value[0] in q.value;
      var p := ScanMovie(q.value[0]);
      if p.Some? {
        MovieLocationsAgree(s1, id, p.value.1.locations, refused);
      }
    }
  }
}
