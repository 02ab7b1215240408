/**
  Reading back in the two older generations, over the movie type of data/load.go:
  `LoadMovies` and `loadLocations` of data/model.go, and `LoadMovies(optimize)`,
  `LoadLocations` and `LoadAllLocations` of src/data/model.go. Both `LoadMovies` read the
  movies table into a map from id to movie; without `optimize` (and always in data/model.go)
  they then query the locations of each id in turn, with `optimize` they read the whole
  locations table once. Go's map iteration order is modelled as an arbitrary enumeration of
  the ids, returned as a ghost `order`. The movies collected so far are sorted by title and
  returned even when the transaction failed.

  `rows.Scan` is modelled on the column values the model stores: an integer destination
  takes an `Int`, a string destination a `Text`, and anything else is a scan error.
*/
module MovieLoad {
  import opened Wrappers
  import opened Database
  import Sorting
  import SqldbLoad
  import DataLoad

  // ---------------------------------------------------------------------------
  // Scanning rows
  // ---------------------------------------------------------------------------

  /** `rows.Scan(&mId, &m.Title, &m.Writer, &m.Director, &m.Distributor,
      &m.ProductionCompany, &m.ReleaseYear)` into a fresh movie. */
  function ScanMovie(row: Row): Option<(int, DataLoad.Movie)> {
    if |row| == 7 && row[0].Int? && row[1].Text? && row[2].Text? && row[3].Text? &&
       row[4].Text? && row[5].Text? && row[6].Int?
    then Some((row[0].n, DataLoad.Movie(row[1].s, [], [], row[3].s, row[4].s, row[2].s, row[5].s, row[6].n)))
    else None
  }

  /** `rows.Scan(&lId, &mId, &l.Name, &l.FunFact)` on a location row: the movie id and the
      location (`loadLocations` scans both ids into a dummy). */
  function ScanLocation(row: Row): Option<(int, DataLoad.Location)> {
    if |row| == 4 && row[0].Int? && row[1].Int? && row[2].Text? && row[3].Text?
    then Some((row[1].n, DataLoad.Location(row[2].s, row[3].s)))
    else None
  }

  // ---------------------------------------------------------------------------
  // The movies' scan
  // ---------------------------------------------------------------------------

  /** The map the movies' scan loop fills, `idMovieMap[mId] = &m` row after row; None when
      a row does not scan. */
  function MoviesById(rows: seq<Row>): Option<map<int, DataLoad.Movie>> {
    if rows == [] then Some(map[])
    else match MoviesById(rows[..|rows| - 1])
      case None => None
      case Some(m) =>
        match ScanMovie(rows[|rows| - 1])
        case None => None
        case Some(p) => Some(m[p.0 := p.1])
  }

  lemma {:induction false} MoviesByIdStuck(rows: seq<Row>, i: nat)
    requires i < |rows| && MoviesById(rows[..i + 1]).None?
    ensures MoviesById(rows).None?
    decreases |rows|
  {
    if i + 1 < |rows| {
      var init := rows[..|rows| - 1];
      assert init[..i + 1] == rows[..i + 1];
      MoviesByIdStuck(init, i);
    } else {
      assert rows[..i + 1] == rows;
    }
  }

  /** The scan loop over the movies' rows. */
  method ScanMovies(rows: seq<Row>) returns (r: Option<map<int, DataLoad.Movie>>)
    ensures r == MoviesById(rows)
  {
    var idMovieMap := map[];
    for i := 0 to |rows|
      invariant MoviesById(rows[..i]) == Some(idMovieMap)
    {
      assert rows[..i + 1][..i] == rows[..i];
      var p := ScanMovie(rows[i]);
      if p.None? {
        MoviesByIdStuck(rows, i);
        return None;
      }
      idMovieMap := idMovieMap[p.value.0 := p.value.1];
    }
    assert rows[..|rows|] == rows;
    return Some(idMovieMap);
  }

  /** The scan gives every movie no locations and no actors; its keys are the ids of the
      rows. */
  lemma {:induction false} MoviesByIdBare(rows: seq<Row>)
    ensures MoviesById(rows).Some? ==>
      forall id :: id in MoviesById(rows).value ==>
        MoviesById(rows).value[id].locations == [] && MoviesById(rows).value[id].actors == []
    ensures MoviesById(rows).Some? ==> MoviesById(rows).value.Keys == RowIds(rows)
  {
    if rows != [] {
      MoviesByIdBare(rows[..|rows| - 1]);
    }
  }

  /** The ids in the first column of the rows. */
  function RowIds(rows: seq<Row>): set<int> {
    if rows == [] then {}
    else
      var last := rows[|rows| - 1];
      RowIds(rows[..|rows| - 1]) + if |last| > 0 && last[0].Int? then {last[0].n} else {}
  }

  // ---------------------------------------------------------------------------
  // loadLocations / LoadLocations
  // ---------------------------------------------------------------------------

  /** The scan loop of `loadLocations`: each row's location appended to `*ls`, stopping at
      the first row that does not scan, with what was appended so far. */
  function AppendScanned(ls: seq<DataLoad.Location>, rows: seq<Row>): (seq<DataLoad.Location>, Option<Error>) {
    if rows == [] then (ls, None)
    else
      var (acc, err) := AppendScanned(ls, rows[..|rows| - 1]);
      if err.Some? then (acc, err)
      else match ScanLocation(rows[|rows| - 1])
        case None => (acc, Some(ScanFailed))
        case Some(p) => (acc + [p.1], None)
  }

  lemma {:induction false} AppendScannedStuck(ls: seq<DataLoad.Location>, rows: seq<Row>, i: nat)
    requires i < |rows| && AppendScanned(ls, rows[..i + 1]).1.Some?
    ensures AppendScanned(ls, rows) == AppendScanned(ls, rows[..i + 1])
    decreases |rows|
  {
    if i + 1 < |rows| {
      var init := rows[..|rows| - 1];
      assert init[..i + 1] == rows[..i + 1];
      AppendScannedStuck(ls, init, i);
    } else {
      assert rows[..i + 1] == rows;
    }
  }

  /** `loadLocations(tx, mId, ls)`: the query for the movie's rows, then the scan loop. */
  function LoadLocationsRun(s: Session, mId: int, ls: seq<DataLoad.Location>, refused: nat -> bool): (Session, seq<DataLoad.Location>, Option<Error>)
  {
    var (s1, q) := SelectWhere(s, SqldbLoad.MovieLocationsSql, Locations, SqldbLoad.MovieIdColumn, Int(mId), refused);
    if q.Failure? then (s1, ls, Some(q.error))
    else
      var (acc, err) := AppendScanned(ls, q.value);
      (s1, acc, err)
  }

  /** One more row of the scan loop, after rows that all scanned. */
  lemma AppendScannedStep(ls: seq<DataLoad.Location>, rows: seq<Row>, i: nat, acc: seq<DataLoad.Location>)
    requires i < |rows| && AppendScanned(ls, rows[..i]) == (acc, None)
    ensures AppendScanned(ls, rows[..i + 1]) ==
      match ScanLocation(rows[i])
      case None => (acc, Some(ScanFailed))
      case Some(p) => (acc + [p.1], None)
  {
    assert rows[..i + 1][..i] == rows[..i];
  }

  /** A successful query leaves the run to the scan of its rows. */
  lemma LoadLocationsRunScan(s: Session, mId: int, ls: seq<DataLoad.Location>, refused: nat -> bool, s1: Session, rows: seq<Row>)
    requires SelectWhere(s, SqldbLoad.MovieLocationsSql, Locations, SqldbLoad.MovieIdColumn, Int(mId), refused) == (s1, Success(rows))
    ensures LoadLocationsRun(s, mId, ls, refused) == (s1, AppendScanned(ls, rows).0, AppendScanned(ls, rows).1)
  {
  }

  /** `loadLocations(tx, mId, ls)` (data/model.go) and `LoadLocations(tx, mId, ls)`
      (src/data/model.go): `*ls` is the list the locations are appended to. */
  method LoadLocations(tx: Tx, mId: int, ls: seq<DataLoad.Location>) returns (ls': seq<DataLoad.Location>, err: Option<Error>)
    modifies tx
    ensures (tx.State(), ls', err) == LoadLocationsRun(old(tx.State()), mId, ls, tx.refused)
  {
    ghost var s0 := tx.State();
    var q := tx.QueryWhere(SqldbLoad.MovieLocationsSql, Locations, SqldbLoad.MovieIdColumn, Int(mId));
    if q.Failure? {
      return ls, Some(q.error);
    }
    var rows := q.value;
    ghost var s1 := tx.State();
    LoadLocationsRunScan(s0, mId, ls, tx.refused, s1, rows);
    ls' := ls;
    for i := 0 to |rows|
      invariant AppendScanned(ls, rows[..i]) == (ls', None)
      invariant tx.State() == s1
    {
      var p := ScanLocation(rows[i]);
      AppendScannedStep(ls, rows, i, ls');
      if p.None? {
        AppendScannedStuck(ls, rows, i);
        return ls', Some(ScanFailed);
      }
      ls' := ls' + [p.value.1];
    }
    assert rows[..|rows|] == rows;
    return ls', None;
  }

  /** The locations of the rows whose `movie_id` is `id`, in row order. */
  function LocationsOf(rows: seq<Row>, id: int): seq<DataLoad.Location> {
    if rows == [] then []
    else
      LocationsOf(rows[..|rows| - 1], id) +
      match ScanLocation(rows[|rows| - 1])
      case Some(p) => if p.0 == id then [p.1] else []
      case None => []
  }

  lemma {:induction false} LocationsOfAppend(a: seq<Row>, b: seq<Row>, id: int)
    ensures LocationsOf(a + b, id) == LocationsOf(a, id) + LocationsOf(b, id)
    decreases |b|
  {
    if b == [] {
      assert a + b == a;
    } else {
      var init := b[..|b| - 1];
      assert (a + b)[..|a + b| - 1] == a + init;
      assert (a + b)[|a + b| - 1] == b[|b| - 1];
      LocationsOfAppend(a, init, id);
    }
  }

  /** The existing contents of `*ls` are kept, whatever happens. */
  lemma {:induction false} AppendScannedKeeps(ls: seq<DataLoad.Location>, rows: seq<Row>)
    ensures |ls| <= |AppendScanned(ls, rows).0| && AppendScanned(ls, rows).0[..|ls|] == ls
  {
    if rows != [] {
      AppendScannedKeeps(ls, rows[..|rows| - 1]);
    }
  }

  /** When every row names movie `mId`, the loop succeeds exactly when every row scans,
      and then appends the locations filed under `mId`. */
  lemma {:induction false} AppendScannedOf(ls: seq<DataLoad.Location>, rows: seq<Row>, mId: int)
    requires forall x :: x in rows ==> SqldbLoad.MovieIdColumn < |x| && x[SqldbLoad.MovieIdColumn] == Int(mId)
    ensures AppendScanned(ls, rows).1.None? <==> forall k :: 0 <= k < |rows| ==> ScanLocation(rows[k]).Some?
    ensures AppendScanned(ls, rows).1.None? ==> AppendScanned(ls, rows).0 == ls + LocationsOf(rows, mId)
  {
    if rows != [] {
      var init := rows[..|rows| - 1];
      assert forall x :: x in init ==> x in rows;
      AppendScannedOf(ls, init, mId);
      assert forall k :: 0 <= k < |init| ==> init[k] == rows[k];
      assert rows[|rows| - 1] in rows;
    }
  }

  /** Selecting the rows that name `mId` keeps exactly the locations filed under it. */
  lemma {:induction false} LocationsOfWhere(rows: seq<Row>, mId: int)
    ensures LocationsOf(RowsWhere(rows, SqldbLoad.MovieIdColumn, Int(mId)), mId) == LocationsOf(rows, mId)
  {
    if rows != [] {
      var rest := rows[1..];
      LocationsOfWhere(rest, mId);
      assert rows == [rows[0]] + rest;
      LocationsOfAppend([rows[0]], rest, mId);
      assert LocationsOf([rows[0]], mId) == LocationsOf([], mId) +
        match ScanLocation(rows[0])
        case Some(p) => if p.0 == mId then [p.1] else []
        case None => [];
      if SqldbLoad.MovieIdColumn < |rows[0]| && rows[0][SqldbLoad.MovieIdColumn] == Int(mId) {
        LocationsOfAppend([rows[0]], RowsWhere(rest, SqldbLoad.MovieIdColumn, Int(mId)), mId);
      }
    }
  }

  /** `loadLocations` keeps what `*ls` held; when it succeeds it has appended exactly the
      locations of the rows filed under movie `mId`, in row order. It changes no table. */
  lemma LoadLocationsReads(s: Session, mId: int, ls: seq<DataLoad.Location>, refused: nat -> bool)
    ensures var r := LoadLocationsRun(s, mId, ls, refused);
      |ls| <= |r.1| && r.1[..|ls|] == ls && r.0.tables == s.tables && r.0.requests == s.requests + 1
    ensures var r := LoadLocationsRun(s, mId, ls, refused);
      r.2.None? ==> Locations in s.tables && r.1 == ls + LocationsOf(s.tables[Locations].rows, mId)
  {
    var (s1, q) := SelectWhere(s, SqldbLoad.MovieLocationsSql, Locations, SqldbLoad.MovieIdColumn, Int(mId), refused);
    if q.Success? {
      AppendScannedKeeps(ls, q.value);
      AppendScannedOf(ls, q.value, mId);
      LocationsOfWhere(s.tables[Locations].rows, mId);
    }
  }

  // ---------------------------------------------------------------------------
  // LoadAllLocations
  // ---------------------------------------------------------------------------

  /** One pass of the scan loop of `LoadAllLocations`: `m := idMovieMap[mId];
      m.Locations = append(m.Locations, l)`. A `movie_id` without a movie leaves `m` nil
      and the Go code panics on it; the model reports an error instead. */
  function Attach(byId: map<int, DataLoad.Movie>, row: Row): Result<map<int, DataLoad.Movie>, Error> {
    match ScanLocation(row)
    case None => Failure(ScanFailed)
    case Some(p) =>
      if p.0 in byId then Success(byId[p.0 := byId[p.0].(locations := byId[p.0].locations + [p.1])])
      else Failure(NilMovie(p.0))
  }

  function AttachAll(byId: map<int, DataLoad.Movie>, rows: seq<Row>): Result<map<int, DataLoad.Movie>, Error> {
    if rows == [] then Success(byId)
    else match AttachAll(byId, rows[..|rows| - 1])
      case Failure(e) => Failure(e)
      case Success(m) => Attach(m, rows[|rows| - 1])
  }

  lemma {:induction false} AttachAllStuck(byId: map<int, DataLoad.Movie>, rows: seq<Row>, i: nat)
    requires i < |rows| && AttachAll(byId, rows[..i + 1]).Failure?
    ensures AttachAll(byId, rows) == AttachAll(byId, rows[..i + 1])
    decreases |rows|
  {
    if i + 1 < |rows| {
      var init := rows[..|rows| - 1];
      assert init[..i + 1] == rows[..i + 1];
      AttachAllStuck(byId, init, i);
    } else {
      assert rows[..i + 1] == rows;
    }
  }

  /** `LoadAllLocations`: the query of the whole table, then the scan loop. */
  function AllLocationsRun(s: Session, byId: map<int, DataLoad.Movie>, refused: nat -> bool): (Session, Result<map<int, DataLoad.Movie>, Error>)
  {
    var (s1, q) := Select(s, SqldbLoad.AllLocationsSql, Locations, refused);
    if q.Failure? then (s1, Failure(q.error)) else (s1, AttachAll(byId, q.value))
  }

  /** `LoadAllLocations(tx, idMovieMap)`; the movies the map points to are its values,
      and the updated map is returned. */
  method LoadAllLocations(tx: Tx, idMovieMap: map<int, DataLoad.Movie>) returns (r: Result<map<int, DataLoad.Movie>, Error>)
    modifies tx
    ensures (tx.State(), r) == AllLocationsRun(old(tx.State()), idMovieMap, tx.refused)
    ensures r.Success? ==> r.value.Keys == idMovieMap.Keys
  {
    var q := tx.Query(SqldbLoad.AllLocationsSql, Locations);
    if q.Failure? {
      return Failure(q.error);
    }
    var rows := q.value;
    var byId := idMovieMap;
    for i := 0 to |rows|
      invariant AttachAll(idMovieMap, rows[..i]) == Success(byId)
      invariant byId.Keys == idMovieMap.Keys
    {
      assert rows[..i + 1][..i] == rows[..i];
      var p := ScanLocation(rows[i]);
      if p.None? {
        AttachAllStuck(idMovieMap, rows, i);
        return Failure(ScanFailed);
      }
      var mId := p.value.0;
      if mId !in byId {
        AttachAllStuck(idMovieMap, rows, i);
        return Failure(NilMovie(mId));
      }
      byId := byId[mId := byId[mId].(locations := byId[mId].locations + [p.value.1])];
    }
    assert rows[..|rows|] == rows;
    return Success(byId);
  }

  /** The loop succeeds exactly when every row scans and names a movie of the map. */
  lemma {:induction false} AttachAllSucceeds(byId: map<int, DataLoad.Movie>, rows: seq<Row>)
    ensures AttachAll(byId, rows).Success? <==>
      forall k :: 0 <= k < |rows| ==> ScanLocation(rows[k]).Some? && ScanLocation(rows[k]).value.0 in byId
  {
    if rows != [] {
      var init := rows[..|rows| - 1];
      AttachAllSucceeds(byId, init);
      AttachAllKeeps(byId, init);
      assert forall k :: 0 <= k < |init| ==> init[k] == rows[k];
    }
  }

  /** When the loop succeeds every movie keeps its id and columns and gains the locations
      of the rows that name it, in row order. */
  lemma {:induction false} AttachAllKeeps(byId: map<int, DataLoad.Movie>, rows: seq<Row>)
    ensures AttachAll(byId, rows).Success? ==>
      AttachAll(byId, rows).value.Keys == byId.Keys &&
      forall id :: id in byId ==>
        AttachAll(byId, rows).value[id] == byId[id].(locations := byId[id].locations + LocationsOf(rows, id))
  {
    if rows != [] {
      var init := rows[..|rows| - 1];
      AttachAllKeeps(byId, init);
    }
  }

  // ---------------------------------------------------------------------------
  // LoadMovies
  // ---------------------------------------------------------------------------

  /** `order` lists each key of the map exactly once: an iteration order of Go's `range`. */
  ghost predicate Enumerates(order: seq<int>, keys: set<int>) {
    |order| == |keys| &&
    (forall k :: 0 <= k < |order| ==> order[k] in keys) &&
    (forall key :: key in keys ==> key in order) &&
    (forall i, j :: 0 <= i < j < |order| ==> order[i] != order[j])
  }

  /** The per-movie loop (without `optimize`), the ids visited in `order`: for each id,
      `loadLocations` into the movie's list, then `ms = append(ms, *m)`; the first error
      returns at once, with the movies appended before it. */
  function PerMovieRun(s: Session, byId: map<int, DataLoad.Movie>, order: seq<int>, refused: nat -> bool): (Session, seq<DataLoad.Movie>, Option<Error>)
    requires forall k :: 0 <= k < |order| ==> order[k] in byId
    decreases |order|
  {
    if order == [] then (s, [], None)
    else
      var (s1, ms, err) := PerMovieRun(s, byId, order[..|order| - 1], refused);
      if err.Some? then (s1, ms, err)
      else
        var id := order[|order| - 1];
        var (s2, ls, err2) := LoadLocationsRun(s1, id, byId[id].locations, refused);
        if err2.Some? then (s2, ms, err2) else (s2, ms + [byId[id].(locations := ls)], None)
  }

  /** The per-movie loop changes no table, and when it succeeds the `k`-th movie is the
      one with id `order[k]`, its locations extended by those filed under that id. */
  lemma {:induction false} PerMovieTables(s: Session, byId: map<int, DataLoad.Movie>, order: seq<int>, refused: nat -> bool)
    requires forall k :: 0 <= k < |order| ==> order[k] in byId
    ensures PerMovieRun(s, byId, order, refused).0.tables == s.tables
    decreases |order|
  {
    if order != [] {
      var init := order[..|order| - 1];
      PerMovieTables(s, byId, init, refused);
      var (s1, ms, err) := PerMovieRun(s, byId, init, refused);
      if err.None? {
        var id := order[|order| - 1];
        LoadLocationsReads(s1, id, byId[id].locations, refused);
      }
    }
  }

  /** Movie `m` with the locations filed under `id` in `rows` appended. */
  function Filled(m: DataLoad.Movie, rows: seq<Row>, id: int): DataLoad.Movie {
    m.(locations := m.locations + LocationsOf(rows, id))
  }

  /** When the per-movie loop succeeds, the `k`-th movie is the one with id `order[k]`,
      its locations extended by those filed under that id. */
  lemma {:induction false} PerMovieLoaded(s: Session, byId: map<int, DataLoad.Movie>, order: seq<int>, refused: nat -> bool)
    requires forall k :: 0 <= k < |order| ==> order[k] in byId
    ensures var r := PerMovieRun(s, byId, order, refused);
      r.2.None? ==> (|r.1| == |order| &&
        forall k :: 0 <= k < |order| ==> r.1[k] == Filled(byId[order[k]], LocationRowsIn(s.tables), order[k]))
    decreases |order|
  {
    if order != [] {
      var init := order[..|order| - 1];
      var id := order[|order| - 1];
      assert order == init + [id];
      PerMovieLoaded(s, byId, init, refused);
      PerMovieTables(s, byId, init, refused);
      var (s1, ms, err) := PerMovieRun(s, byId, init, refused);
      if err.None? {
        PerMovieSnoc(s, byId, init, id, s1, ms, refused);
        LoadLocationsReads(s1, id, byId[id].locations, refused);
        var r := LoadLocationsRun(s1, id, byId[id].locations, refused);
        if r.2.None? {
          PerMovieLoadedStep(LocationRowsIn(s.tables), byId, init, id, ms, r.1);
        }
      }
    }
  }

  lemma PerMovieLoadedStep(rows: seq<Row>, byId: map<int, DataLoad.Movie>, init: seq<int>, id: int,
                           ms: seq<DataLoad.Movie>, ls: seq<DataLoad.Location>)
    requires forall k :: 0 <= k < |init| ==> init[k] in byId
    requires id in byId
    requires |ms| == |init| && forall k :: 0 <= k < |init| ==> ms[k] == Filled(byId[init[k]], rows, init[k])
    requires ls == byId[id].locations + LocationsOf(rows, id)
    ensures var order, ms' := init + [id], ms + [byId[id].(locations := ls)];
      |ms'| == |order| && forall k :: 0 <= k < |order| ==> ms'[k] == Filled(byId[order[k]], rows, order[k])
  {
  }

  /** What the callback of `LoadMovies` does from session `s0`, the ids visited in
      `order`: the movies' query and scan, then with `optimize` `LoadAllLocations` and one
      movie per entry of the map, otherwise the per-movie loop. `s`, `ms` and `err` are
      the session it leaves, the movies it collected and the error it returns. */
  ghost predicate WorkOutcome(s0: Session, optimize: bool, order: seq<int>, s: Session, ms: seq<DataLoad.Movie>,
                              err: Option<Error>, refused: nat -> bool) {
    var (s1, q) := Select(s0, SqldbLoad.MoviesSql, Movies, refused);
    if q.Failure? then (s, ms, err) == (s1, [], Some(q.error))
    else match MoviesById(q.value)
      case None => (s, ms, err) == (s1, [], Some(ScanFailed))
      case Some(byId) =>
        Enumerates(order, byId.Keys) &&
        (if optimize then
          var (s2, r) := AllLocationsRun(s1, byId, refused);
          if r.Failure? then (s, ms, err) == (s2, [], Some(r.error))
          else (s == s2 && err.None? && |ms| == |order| && r.value.Keys == byId.Keys &&
            forall k :: 0 <= k < |order| ==> ms[k] == r.value[order[k]])
        else (s, ms, err) == PerMovieRun(s1, byId, order, refused))
  }

  /** The per-movie loop of `LoadMovies`, the map's ids taken in an arbitrary order. */
  method PerMovie(tx: Tx, byId: map<int, DataLoad.Movie>) returns (ms: seq<DataLoad.Movie>, err: Option<Error>, ghost order: seq<int>)
    modifies tx
    ensures Enumerates(order, byId.Keys)
    ensures (tx.State(), ms, err) == PerMovieRun(old(tx.State()), byId, order, tx.refused)
  {
    ms, err, order := [], None, [];
    var rest := byId.Keys;
    while rest != {}
      invariant rest <= byId.Keys
      invariant forall k :: 0 <= k < |order| ==> order[k] in byId && order[k] !in rest
      invariant forall key :: key in byId && key !in rest ==> key in order
      invariant forall i, j :: 0 <= i < j < |order| ==> order[i] != order[j]
      invariant |order| + |rest| == |byId.Keys|
      invariant PerMovieRun(old(tx.State()), byId, order, tx.refused) == (tx.State(), ms, None)
      decreases |rest|
    {
      SqldbLoad.HasElement(rest);
      var mId :| mId in rest;
      ghost var before := order;
      ghost var s1 := tx.State();
      order := order + [mId];
      var ls, e := LoadLocations(tx, mId, byId[mId].locations);
      PerMovieSnoc(old(tx.State()), byId, before, mId, s1, ms, tx.refused);
      rest := rest - {mId};
      if e.Some? {
        order := StopEarly(old(tx.State()), byId, order, rest, tx.refused);
        return ms, e, order;
      }
      ms := ms + [byId[mId].(locations := ls)];
    }
    assert |byId.Keys| == |byId|;
  }

  /** When the loop returns early, the map's remaining ids are never visited: they follow
      in the iteration order. */
  lemma StopEarly(s: Session, byId: map<int, DataLoad.Movie>, order: seq<int>, rest: set<int>, refused: nat -> bool)
    returns (full: seq<int>)
    requires rest <= byId.Keys && |order| + |rest| == |byId.Keys|
    requires forall k :: 0 <= k < |order| ==> order[k] in byId && order[k] !in rest
    requires forall key :: key in byId && key !in rest ==> key in order
    requires forall i, j :: 0 <= i < j < |order| ==> order[i] != order[j]
    requires PerMovieRun(s, byId, order, refused).2.Some?
    ensures Enumerates(full, byId.Keys)
    ensures PerMovieRun(s, byId, full, refused) == PerMovieRun(s, byId, order, refused)
  {
    var tail := SetToSeq(rest);
    EnumerationExtends(order, tail, rest, byId.Keys);
    PerMovieStuck(s, byId, order, tail, refused);
    full := order + tail;
  }

  /** One more pass of the per-movie loop after passes that all succeeded. */
  lemma PerMovieSnoc(s: Session, byId: map<int, DataLoad.Movie>, order: seq<int>, id: int, s1: Session,
                     ms: seq<DataLoad.Movie>, refused: nat -> bool)
    requires forall k :: 0 <= k < |order| ==> order[k] in byId
    requires id in byId
    requires PerMovieRun(s, byId, order, refused) == (s1, ms, None)
    ensures var r := LoadLocationsRun(s1, id, byId[id].locations, refused);
      PerMovieRun(s, byId, order + [id], refused) ==
        if r.2.Some? then (r.0, ms, r.2) else (r.0, ms + [byId[id].(locations := r.1)], None)
  {
    assert (order + [id])[..|order|] == order;
  }

  /** The elements of a finite set, in some order, each once. */
  ghost function SetToSeq(xs: set<int>): (r: seq<int>)
    ensures |r| == |xs| && (forall x :: x in xs <==> x in r)
    ensures forall i, j :: 0 <= i < j < |r| ==> r[i] != r[j]
    decreases |xs|
  {
    if xs == {} then []
    else
      SqldbLoad.HasElement(xs);
      var x :| x in xs;
      var r := [x] + SetToSeq(xs - {x});
      assert forall i :: 1 <= i < |r| ==> r[i] in xs - {x};
      r
  }

  /** An order that visited the ids not in `rest`, followed by the ids of `rest`,
      enumerates all of them. */
  lemma EnumerationExtends(order: seq<int>, tail: seq<int>, rest: set<int>, keys: set<int>)
    requires rest <= keys && |order| + |rest| == |keys|
    requires forall k :: 0 <= k < |order| ==> order[k] in keys && order[k] !in rest
    requires forall key :: key in keys && key !in rest ==> key in order
    requires forall i, j :: 0 <= i < j < |order| ==> order[i] != order[j]
    requires |tail| == |rest| && (forall x :: x in rest <==> x in tail)
    requires forall i, j :: 0 <= i < j < |tail| ==> tail[i] != tail[j]
    ensures Enumerates(order + tail, keys)
  {
    var o := order + tail;
    forall i, j | 0 <= i < j < |o| ensures o[i] != o[j] {
      if j >= |order| && i < |order| {
        assert o[j] == tail[j - |order|] && o[j] in rest;
      }
    }
    forall key | key in keys ensures key in o {
      if key in rest {
        var t :| 0 <= t < |tail| && tail[t] == key;
        assert o[|order| + t] == key;
      } else {
        var t :| 0 <= t < |order| && order[t] == key;
        assert o[t] == key;
      }
    }
    forall k | 0 <= k < |o| ensures o[k] in keys {
      if k >= |order| {
        assert o[k] == tail[k - |order|];
      }
    }
  }

  /** Once the loop has returned an error, the ids after it change nothing. */
  lemma {:induction false} PerMovieStuck(s: Session, byId: map<int, DataLoad.Movie>, order: seq<int>, tail: seq<int>, refused: nat -> bool)
    requires forall k :: 0 <= k < |order| ==> order[k] in byId
    requires forall k :: 0 <= k < |tail| ==> tail[k] in byId
    requires PerMovieRun(s, byId, order, refused).2.Some?
    ensures PerMovieRun(s, byId, order + tail, refused) == PerMovieRun(s, byId, order, refused)
    decreases |tail|
  {
    if tail != [] {
      var init := tail[..|tail| - 1];
      PerMovieStuck(s, byId, order, init, refused);
      assert (order + tail)[..|order + tail| - 1] == order + init;
    } else {
      assert order + tail == order;
    }
  }

  /** `for _, m := range idMovieMap { ms = append(ms, *m) }` after `LoadAllLocations`: the
      map's movies in iteration order. */
  method Values(byId: map<int, DataLoad.Movie>) returns (ms: seq<DataLoad.Movie>, ghost order: seq<int>)
    ensures Enumerates(order, byId.Keys)
    ensures |ms| == |order| && forall k :: 0 <= k < |order| ==> ms[k] == byId[order[k]]
  {
    ms, order := [], [];
    var rest := byId.Keys;
    while rest != {}
      invariant rest <= byId.Keys
      invariant forall k :: 0 <= k < |order| ==> order[k] in byId && order[k] !in rest
      invariant forall key :: key in byId && key !in rest ==> key in order
      invariant forall i, j :: 0 <= i < j < |order| ==> order[i] != order[j]
      invariant |order| + |rest| == |byId.Keys|
      invariant |ms| == |order| && forall k :: 0 <= k < |order| ==> ms[k] == byId[order[k]]
      decreases |rest|
    {
      SqldbLoad.HasElement(rest);
      var mId :| mId in rest;
      order := order + [mId];
      ms := ms + [byId[mId]];
      rest := rest - {mId};
    }
  }

  /** The callback `LoadMovies` hands to `transaction`; `ms` is the slice it fills, which
      holds what was appended before an error too. */
  method LoadMoviesWork(tx: Tx, optimize: bool) returns (ms: seq<DataLoad.Movie>, err: Option<Error>, ghost order: seq<int>)
    modifies tx
    ensures WorkOutcome(old(tx.State()), optimize, order, tx.State(), ms, err, tx.refused)
  {
    ms, order := [], [];
    var q := tx.Query(SqldbLoad.MoviesSql, Movies);
    if q.Failure? {
      return ms, Some(q.error), order;
    }
    var byId := ScanMovies(q.value);
    if byId.None? {
      return ms, Some(ScanFailed), order;
    }
    if optimize {
      var r := LoadAllLocations(tx, byId.value);
      if r.Failure? {
        order := SetToSeq(byId.value.Keys);
        return ms, Some(r.error), order;
      }
      ms, order := Values(r.value);
      err := None;
    } else {
      ms, err, order := PerMovie(tx, byId.value);
    }
  }

  /** `LoadMovies` after `db.Init`: the transaction around the callback, then
      `sort.Sort(ByTitle(ms))` of whatever the callback appended, also when it returned an
      error. `s`, `loaded`, `werr` and `order` describe the callback's run; when `db.Begin()`
      fails there is none and the list is empty. */
  method LoadMovies(db: Db, optimize: bool) returns (ms: seq<DataLoad.Movie>, err: Option<Error>,
                                                    ghost s: Session, ghost loaded: seq<DataLoad.Movie>,
                                                    ghost werr: Option<Error>, ghost order: seq<int>)
    modifies db
    ensures (db.tables, db.requests, err) == Transaction(old(db.tables), old(db.requests), (s, werr), db.refused)
    ensures db.refused(old(db.requests)) ==> ms == []
    ensures !db.refused(old(db.requests)) ==>
      WorkOutcome(TxStart(old(db.tables), old(db.requests)), optimize, order, s, loaded, werr, db.refused)
    ensures !db.refused(old(db.requests)) ==> ms == Sorting.SortBy(loaded, DataLoad.TitleOf)
  {
    s, loaded, werr, order := TxStart(old(db.tables), old(db.requests)), [], None, [];
    var b := db.Begin();
    if b.Failure? {
      return [], Some(b.error), s, loaded, werr, order;
    }
    var tx := b.value;
    var work, e;
    work, e, order := LoadMoviesWork(tx, optimize);
    s, loaded, werr := tx.State(), work, e;
    err := db.Settle(tx, e);
    ms := Sorting.SortBy(work, DataLoad.TitleOf);
  }

  // ---------------------------------------------------------------------------
  // What LoadMovies reads
  // ---------------------------------------------------------------------------

  /** Loading only reads: the callback leaves every table as it found it, so a committed
      `LoadMovies` changes nothing. */
  lemma LoadMoviesReadOnly(s0: Session, optimize: bool, order: seq<int>, s: Session, ms: seq<DataLoad.Movie>,
                           err: Option<Error>, refused: nat -> bool)
    requires WorkOutcome(s0, optimize, order, s, ms, err, refused)
    ensures s.tables == s0.tables
  {
    var (s1, q) := Select(s0, SqldbLoad.MoviesSql, Movies, refused);
    if q.Success? && MoviesById(q.value).Some? && !optimize {
      PerMovieTables(s1, MoviesById(q.value).value, order, refused);
    }
  }

  /** The rows of the locations table, none when it is missing. */
  function LocationRowsIn(ts: Tables): seq<Row> {
    if Locations in ts then ts[Locations].rows else []
  }

  /** `ms` holds, for each id of `order`, the movie of `byId` under it with the locations
      filed under that id in `rows`. */
  ghost predicate LoadedAs(ms: seq<DataLoad.Movie>, order: seq<int>, byId: map<int, DataLoad.Movie>, rows: seq<Row>) {
    |ms| == |order| &&
    forall k :: 0 <= k < |order| ==>
      order[k] in byId && ms[k] == byId[order[k]].(locations := LocationsOf(rows, order[k]))
  }

  /** A movie straight from the movies' scan: no locations, no actors. */
  ghost predicate Bare(byId: map<int, DataLoad.Movie>) {
    forall id :: id in byId ==> byId[id].locations == [] && byId[id].actors == []
  }

  lemma PerMovieBranch(s1: Session, byId: map<int, DataLoad.Movie>, order: seq<int>, ms: seq<DataLoad.Movie>, refused: nat -> bool)
    requires forall k :: 0 <= k < |order| ==> order[k] in byId
    requires Bare(byId)
    requires PerMovieRun(s1, byId, order, refused).2.None? && ms == PerMovieRun(s1, byId, order, refused).1
    ensures LoadedAs(ms, order, byId, LocationRowsIn(s1.tables))
  {
    PerMovieLoaded(s1, byId, order, refused);
    FilledBare(LocationRowsIn(s1.tables), byId, order, ms);
  }

  /** Filling bare movies gives them exactly the locations filed under their ids. */
  lemma FilledBare(rows: seq<Row>, byId: map<int, DataLoad.Movie>, order: seq<int>, ms: seq<DataLoad.Movie>)
    requires forall k :: 0 <= k < |order| ==> order[k] in byId
    requires Bare(byId)
    requires |ms| == |order| && forall k :: 0 <= k < |order| ==> ms[k] == Filled(byId[order[k]], rows, order[k])
    ensures LoadedAs(ms, order, byId, rows)
  {
    forall k | 0 <= k < |order|
      ensures ms[k] == byId[order[k]].(locations := LocationsOf(rows, order[k]))
    {
      assert byId[order[k]].locations + LocationsOf(rows, order[k]) == LocationsOf(rows, order[k]);
    }
  }

  lemma OptimizedBranch(s1: Session, byId: map<int, DataLoad.Movie>, refused: nat -> bool)
    requires Bare(byId)
    requires AllLocationsRun(s1, byId, refused).1.Success?
    ensures var r := AllLocationsRun(s1, byId, refused).1.value;
      r.Keys == byId.Keys &&
      forall id :: id in byId ==> r[id] == byId[id].(locations := LocationsOf(LocationRowsIn(s1.tables), id))
  {
    AttachAllKeeps(byId, s1.tables[Locations].rows);
  }

  /** When the callback succeeds, in either branch: the ids visited are those of the movies'
      rows, each once, and the `k`-th movie is the row with id `order[k]`, with the
      locations filed under that id in the locations' rows, in row order, and no actors. */
  lemma LoadMoviesLoaded(s0: Session, optimize: bool, order: seq<int>, s: Session, ms: seq<DataLoad.Movie>,
                         refused: nat -> bool)
    requires WorkOutcome(s0, optimize, order, s, ms, None, refused)
    ensures Movies in s0.tables && MoviesById(s0.tables[Movies].rows).Some?
    ensures Enumerates(order, RowIds(s0.tables[Movies].rows))
    ensures LoadedAs(ms, order, MoviesById(s0.tables[Movies].rows).value, LocationRowsIn(s0.tables))
    ensures forall k :: 0 <= k < |ms| ==> ms[k].actors == []
  {
    var (s1, q) := Select(s0, SqldbLoad.MoviesSql, Movies, refused);
    var byId := MoviesById(q.value).value;
    MoviesByIdBare(q.value);
    if optimize {
      OptimizedBranch(s1, byId, refused);
    } else {
      PerMovieBranch(s1, byId, order, ms, refused);
    }
  }

  /** Both branches of `LoadMovies` load the same movies: visiting the ids in the same
      order, the optimized one returns the same list as the per-movie one whenever both
      succeed. */
  lemma {:induction false} BranchesAgree(s0: Session, order: seq<int>, s1: Session, ms1: seq<DataLoad.Movie>,
                                         s2: Session, ms2: seq<DataLoad.Movie>, refused: nat -> bool)
    requires WorkOutcome(s0, true, order, s1, ms1, None, refused)
    requires WorkOutcome(s0, false, order, s2, ms2, None, refused)
    ensures ms1 == ms2
  {
    LoadMoviesLoaded(s0, true, order, s1, ms1, refused);
    LoadMoviesLoaded(s0, false, order, s2, ms2, refused);
  }

  /** Every row scans as a location. */
  ghost predicate AllScan(rows: seq<Row>) {
    forall k :: 0 <= k < |rows| ==> ScanLocation(rows[k]).Some?
  }

  /** With a server that refuses nothing and location rows that all scan, the per-movie
      loop succeeds. */
  lemma {:induction false} PerMovieSucceeds(s: Session, byId: map<int, DataLoad.Movie>, order: seq<int>, refused: nat -> bool)
    requires forall k :: 0 <= k < |order| ==> order[k] in byId
    requires forall k :: !refused(k)
    requires Locations in s.tables && AllScan(s.tables[Locations].rows)
    ensures PerMovieRun(s, byId, order, refused).2.None?
    decreases |order|
  {
    if order != [] {
      var init := order[..|order| - 1];
      var id := order[|order| - 1];
      PerMovieSucceeds(s, byId, init, refused);
      PerMovieTables(s, byId, init, refused);
      var s1 := PerMovieRun(s, byId, init, refused).0;
      LoadLocationsSucceeds(s1, id, byId[id].locations, refused);
    }
  }

  /** `loadLocations` succeeds when its query is not refused and every location row scans. */
  lemma LoadLocationsSucceeds(s: Session, mId: int, ls: seq<DataLoad.Location>, refused: nat -> bool)
    requires !refused(s.requests)
    requires Locations in s.tables && AllScan(s.tables[Locations].rows)
    ensures LoadLocationsRun(s, mId, ls, refused).2.None?
  {
    var rows := RowsWhere(s.tables[Locations].rows, SqldbLoad.MovieIdColumn, Int(mId));
    forall k | 0 <= k < |rows| ensures ScanLocation(rows[k]).Some? {
      assert rows[k] in s.tables[Locations].rows;
    }
    AppendScannedOf(ls, rows, mId);
  }

  /** With a server that refuses nothing, `LoadAllLocations` succeeds when every location
      row scans and names a movie of the map. */
  lemma OptimizedSucceeds(s: Session, byId: map<int, DataLoad.Movie>, refused: nat -> bool)
    requires !refused(s.requests)
    requires Locations in s.tables && AllScan(s.tables[Locations].rows)
    requires forall k :: 0 <= k < |s.tables[Locations].rows| ==> ScanLocation(s.tables[Locations].rows[k]).value.0 in byId
    ensures AllLocationsRun(s, byId, refused).1.Success?
  {
    AttachAllSucceeds(byId, s.tables[Locations].rows);
  }
}
