/**
  What the current reader gives back of what the current writer stored
  (src/data/sqldb/store.go and src/data/sqldb/load.go together): each movie under the id
  of its row, its columns, no actors, and the locations whose `movie_id` the writer
  resolved to that id, without coordinates.

  The writer resolves a location's `movie_id` by title, and the title-to-id map it reads
  back keeps the last row of each title. So when titles repeat, every location of the
  title is attached to the last movie with it and the earlier ones read back without
  locations; when titles are distinct, every movie reads back with its own locations.
*/
module SqldbRoundTrip {
  import opened Wrappers
  import opened Database
  import Types
  import SqldbStore
  import SqldbLoad

  /** The locations as they read back: the coordinates are not stored. */
  function Stripped(ls: seq<Types.Location>): (r: seq<Types.Location>)
    ensures |r| == |ls|
  {
    seq(|ls|, j requires 0 <= j < |ls| => ls[j].(coordinates := Types.NoCoordinates))
  }

  /** The locations the writer files under movie id `id`, movie by movie. */
  function LocationsFor(ms: seq<Types.Movie>, mids: map<string, int>, id: int): seq<Types.Location> {
    if ms == [] then []
    else
      var last := ms[|ms| - 1];
      LocationsFor(ms[..|ms| - 1], mids, id) +
      (if SqldbStore.IdOf(mids, last.title) == id then Stripped(last.locations) else [])
  }

  /** Rows that all scan to the same movie id give their locations under that id and
      none under any other. */
  lemma {:induction false} LocationsOfUniform(rows: seq<Row>, mid: int, locs: seq<Types.Location>, id: int)
    requires |rows| == |locs|
    requires forall j :: 0 <= j < |rows| ==> SqldbLoad.ScanLocation(rows[j]) == Some((mid, locs[j]))
    ensures SqldbLoad.LocationsOf(rows, id) == if mid == id then locs else []
    decreases |rows|
  {
    if rows != [] {
      var last := |rows| - 1;
      var init := rows[..last];
      assert forall j :: 0 <= j < |init| ==> init[j] == rows[j];
      LocationsOfUniform(init, mid, locs[..last], id);
      assert locs[..last] + [locs[last]] == locs;
    }
  }

  /** The rows of one movie read back as its locations, under the id its title resolved
      to. */
  lemma LocationsOfMovie(m: Types.Movie, mids: map<string, int>, l: int, id: int)
    ensures SqldbLoad.LocationsOf(NumberedFrom(SqldbStore.MovieLocationRows(m, mids), l), id) ==
      if SqldbStore.IdOf(mids, m.title) == id then Stripped(m.locations) else []
  {
    var rows := NumberedFrom(SqldbStore.MovieLocationRows(m, mids), l);
    var mid := SqldbStore.IdOf(mids, m.title);
    forall j | 0 <= j < |rows|
      ensures SqldbLoad.ScanLocation(rows[j]) == Some((mid, Stripped(m.locations)[j]))
    {
      SqldbLoad.ScanStoredLocation(mid, m.locations[j], l + j);
    }
    LocationsOfUniform(rows, mid, Stripped(m.locations), id);
  }

  /** The location rows written for `ms` read back, under each id, as the locations the
      writer filed under it. */
  lemma {:induction false} LocationsOfStored(ms: seq<Types.Movie>, mids: map<string, int>, l: int, id: int)
    ensures SqldbLoad.LocationsOf(NumberedFrom(SqldbStore.LocationRows(ms, mids), l), id) ==
      LocationsFor(ms, mids, id)
  {
    if ms == [] {
      assert NumberedFrom([], l) == [];
    } else {
      var init := ms[..|ms| - 1];
      LocationsOfStored(init, mids, l, id);
      LocationsOfLastMovie(ms, mids, l, id);
    }
  }

  /** The rows of the last movie follow those of the movies before it. */
  lemma LocationsOfLastMovie(ms: seq<Types.Movie>, mids: map<string, int>, l: int, id: int)
    requires ms != []
    ensures var init, m := ms[..|ms| - 1], ms[|ms| - 1];
      SqldbLoad.LocationsOf(NumberedFrom(SqldbStore.LocationRows(ms, mids), l), id) ==
        SqldbLoad.LocationsOf(NumberedFrom(SqldbStore.LocationRows(init, mids), l), id) +
        (if SqldbStore.IdOf(mids, m.title) == id then Stripped(m.locations) else [])
  {
    var init, m := ms[..|ms| - 1], ms[|ms| - 1];
    var a := SqldbStore.LocationRows(init, mids);
    var b := SqldbStore.MovieLocationRows(m, mids);
    var x, y := NumberedFrom(a, l), NumberedFrom(b, l + |a|);
    var last := if SqldbStore.IdOf(mids, m.title) == id then Stripped(m.locations) else [];
    assert SqldbLoad.LocationsOf(y, id) == last by {
      LocationsOfMovie(m, mids, l + |a|, id);
    }
    assert NumberedFrom(SqldbStore.LocationRows(ms, mids), l) == x + y by {
      SqldbStore.LocationRowsSnoc(ms, |ms| - 1, mids);
      assert ms[..|ms|] == ms;
      NumberedFromAppend(a, b, l);
    }
    assert SqldbLoad.LocationsOf(x + y, id) == SqldbLoad.LocationsOf(x, id) + SqldbLoad.LocationsOf(y, id) by {
      SqldbLoad.LocationsOfAppend(x, y, id);
    }
  }

  /** Every row scans as a location whose movie id is one of `ids`. */
  ghost predicate AllAttach(rows: seq<Row>, ids: set<int>) {
    forall k :: 0 <= k < |rows| ==>
      SqldbLoad.ScanLocation(rows[k]).Some? && SqldbLoad.ScanLocation(rows[k]).value.0 in ids
  }

  /** Every location row written for `ms` scans, and names one of `ids` when every title
      resolves into `ids`. */
  lemma {:induction false} LocationRowsAttach(ms: seq<Types.Movie>, mids: map<string, int>, l: int, ids: set<int>)
    requires forall i :: 0 <= i < |ms| ==> SqldbStore.IdOf(mids, ms[i].title) in ids
    ensures AllAttach(NumberedFrom(SqldbStore.LocationRows(ms, mids), l), ids)
  {
    if ms == [] {
      assert NumberedFrom([], l) == [];
    } else {
      var init, m := ms[..|ms| - 1], ms[|ms| - 1];
      var a := SqldbStore.LocationRows(init, mids);
      var b := SqldbStore.MovieLocationRows(m, mids);
      var x, y := NumberedFrom(a, l), NumberedFrom(b, l + |a|);
      assert AllAttach(x, ids) by {
        assert forall i :: 0 <= i < |init| ==> init[i] == ms[i];
        LocationRowsAttach(init, mids, l, ids);
      }
      assert AllAttach(y, ids) by {
        var mid := SqldbStore.IdOf(mids, m.title);
        forall k | 0 <= k < |y|
          ensures SqldbLoad.ScanLocation(y[k]).Some? && SqldbLoad.ScanLocation(y[k]).value.0 in ids
        {
          SqldbLoad.ScanStoredLocation(mid, m.locations[k], l + |a| + k);
        }
      }
      assert NumberedFrom(SqldbStore.LocationRows(ms, mids), l) == x + y by {
        SqldbStore.LocationRowsSnoc(ms, |ms| - 1, mids);
        assert ms[..|ms|] == ms;
        NumberedFromAppend(a, b, l);
      }
      AllAttachAppend(x, y, ids);
    }
  }

  lemma AllAttachAppend(x: seq<Row>, y: seq<Row>, ids: set<int>)
    requires AllAttach(x, ids) && AllAttach(y, ids)
    ensures AllAttach(x + y, ids)
  {
    forall k | 0 <= k < |x + y|
      ensures SqldbLoad.ScanLocation((x + y)[k]).Some? && SqldbLoad.ScanLocation((x + y)[k]).value.0 in ids
    {
      if k >= |x| {
        assert (x + y)[k] == y[k - |x|];
      }
    }
  }

  /** No movie's title resolves to `id`: nothing is filed under it. */
  lemma {:induction false} LocationsForNone(ms: seq<Types.Movie>, mids: map<string, int>, id: int)
    requires forall i :: 0 <= i < |ms| ==> SqldbStore.IdOf(mids, ms[i].title) != id
    ensures LocationsFor(ms, mids, id) == []
  {
    if ms != [] {
      var init := ms[..|ms| - 1];
      assert forall i :: 0 <= i < |init| ==> init[i] == ms[i];
      LocationsForNone(init, mids, id);
    }
  }

  /** Only the `k`-th movie's title resolves to `id`: its locations are filed under it. */
  lemma {:induction false} LocationsForOnly(ms: seq<Types.Movie>, mids: map<string, int>, id: int, k: nat)
    requires k < |ms| && SqldbStore.IdOf(mids, ms[k].title) == id
    requires forall i :: 0 <= i < |ms| && i != k ==> SqldbStore.IdOf(mids, ms[i].title) != id
    ensures LocationsFor(ms, mids, id) == Stripped(ms[k].locations)
  {
    var init := ms[..|ms| - 1];
    assert forall i :: 0 <= i < |init| ==> init[i] == ms[i];
    if k == |ms| - 1 {
      LocationsForNone(init, mids, id);
    } else {
      LocationsForOnly(init, mids, id, k);
    }
  }

  /** What a successful read gives back of the movies `ms` numbered from `n`, their
      titles resolved by `mids`: every movie under `n` plus its position, with its columns,
      no actors, and the locations filed under its id. */
  ghost predicate ReadBack(r: Result<map<int, Types.Movie>, Error>, ms: seq<Types.Movie>, n: int, mids: map<string, int>) {
    r.Success? && (forall id :: id in r.value <==> n <= id < n + |ms|) &&
    forall k :: 0 <= k < |ms| ==> r.value[n + k] == ms[k].(actors := [], locations := LocationsFor(ms, mids, n + k))
  }

  /** What the reader makes of the rows the writer numbered: the movie rows from `n`, the
      location rows from `l` under the ids read back for the titles. */
  lemma RoundTrip(ms: seq<Types.Movie>, n: int, l: int)
    ensures var mrows := NumberedFrom(SqldbStore.MovieRows(ms), n);
      var mids := SqldbStore.ScannedIds(mrows);
      var lrows := NumberedFrom(SqldbStore.LocationRows(ms, mids), l);
      SqldbLoad.MoviesById(mrows).Some? &&
      ReadBack(SqldbLoad.AttachAll(SqldbLoad.MoviesById(mrows).value, lrows), ms, n, mids)
  {
    var mrows := NumberedFrom(SqldbStore.MovieRows(ms), n);
    var mids := SqldbStore.ScannedIds(mrows);
    var lrows := NumberedFrom(SqldbStore.LocationRows(ms, mids), l);
    SqldbLoad.StoredMoviesById(ms, n);
    var byId := SqldbLoad.MoviesById(mrows).value;
    assert AllAttach(lrows, byId.Keys) by {
      forall i | 0 <= i < |ms| ensures SqldbStore.IdOf(mids, ms[i].title) in byId.Keys {
        SqldbStore.MovieIdOf(ms, n, i);
      }
      LocationRowsAttach(ms, mids, l, byId.Keys);
    }
    SqldbLoad.AttachAllSucceeds(byId, lrows);
    SqldbLoad.AttachAllKeeps(byId, lrows);
    forall k | 0 <= k < |ms|
      ensures SqldbLoad.AttachAll(byId, lrows).value[n + k] ==
        ms[k].(actors := [], locations := LocationsFor(ms, mids, n + k))
    {
      LocationsOfStored(ms, mids, l, n + k);
    }
  }

  /** With distinct titles every movie reads back with its own locations. */
  lemma DistinctTitlesRoundTrip(ms: seq<Types.Movie>, n: int, k: nat)
    requires forall i, j :: 0 <= i < j < |ms| ==> ms[i].title != ms[j].title
    requires k < |ms|
    ensures var mids := SqldbStore.ScannedIds(NumberedFrom(SqldbStore.MovieRows(ms), n));
      LocationsFor(ms, mids, n + k) == Stripped(ms[k].locations)
  {
    var mids := SqldbStore.ScannedIds(NumberedFrom(SqldbStore.MovieRows(ms), n));
    forall i | 0 <= i < |ms| ensures SqldbStore.IdOf(mids, ms[i].title) == n + i {
      SqldbStore.MovieIdOf(ms, n, i);
    }
    LocationsForOnly(ms, mids, n + k, k);
  }

  /** A movie followed by another with the same title reads back without locations: the
      locations of both are filed under the later one's id. */
  lemma ShadowedTitleRoundTrip(ms: seq<Types.Movie>, n: int, k: nat)
    requires k < |ms| && SqldbStore.LastWithTitle(ms, ms[k].title) != k
    ensures var mids := SqldbStore.ScannedIds(NumberedFrom(SqldbStore.MovieRows(ms), n));
      LocationsFor(ms, mids, n + k) == []
  {
    var mids := SqldbStore.ScannedIds(NumberedFrom(SqldbStore.MovieRows(ms), n));
    forall i | 0 <= i < |ms| ensures SqldbStore.IdOf(mids, ms[i].title) != n + k {
      SqldbStore.MovieIdOf(ms, n, i);
      var last := SqldbStore.LastWithTitle(ms, ms[i].title);
      if last == k {
        assert false;
      }
    }
    LocationsForNone(ms, mids, n + k);
  }

  /** `LoadMovies`' work on tables holding the rows the writer numbered. */
  lemma LoadNumbered(ls: Session, ms: seq<Types.Movie>, n: int, l: int, refused: nat -> bool)
    requires !refused(ls.requests) && !refused(ls.requests + 1)
    requires Movies in ls.tables && Locations in ls.tables
    requires ls.tables[Movies].rows == NumberedFrom(SqldbStore.MovieRows(ms), n)
    requires ls.tables[Locations].rows ==
      NumberedFrom(SqldbStore.LocationRows(ms, SqldbStore.ScannedIds(NumberedFrom(SqldbStore.MovieRows(ms), n))), l)
    ensures ReadBack(SqldbLoad.LoadMoviesRun(ls, refused).1, ms, n,
                     SqldbStore.ScannedIds(NumberedFrom(SqldbStore.MovieRows(ms), n)))
  {
    var mrows := NumberedFrom(SqldbStore.MovieRows(ms), n);
    var mids := SqldbStore.ScannedIds(mrows);
    var lrows := NumberedFrom(SqldbStore.LocationRows(ms, mids), l);
    RoundTrip(ms, n, l);
    var byId := SqldbLoad.MoviesById(mrows).value;
    SqldbLoad.LoadMoviesReads(ls, refused, byId);
  }

  /** `StoreMovies` then `LoadMovies`, both committed with no statement refused: when
      `InitTables` has emptied the locations table, every stored movie is read back under
      the id its row was given, with its columns, no actors, and the locations filed
      under that id. */
  lemma StoreThenLoad(s: Session, ms: seq<Types.Movie>, ls: Session, refused: nat -> bool)
    requires SqldbStore.Ready(s.tables) && s.tables[Locations].rows == []
    requires SqldbStore.PlainTexts(ms)
    requires ls.tables == SqldbStore.StoredSession(s, ms).tables
    requires !refused(ls.requests) && !refused(ls.requests + 1)
    ensures ReadBack(SqldbLoad.LoadMoviesRun(ls, refused).1, ms, s.tables[Movies].nextId,
                     SqldbStore.StoredMovieIds(s, ms))
  {
    var n, l := s.tables[Movies].nextId, s.tables[Locations].nextId;
    assert Movies in ls.tables && ls.tables[Movies].rows == NumberedFrom(SqldbStore.MovieRows(ms), n) by {
      SqldbStore.StoredMovies(s, ms);
    }
    assert Locations in ls.tables &&
      ls.tables[Locations].rows == NumberedFrom(SqldbStore.LocationRows(ms, SqldbStore.StoredMovieIds(s, ms)), l) by {
      SqldbStore.StoredLocations(s, ms);
      assert [] + NumberedFrom(SqldbStore.LocationRows(ms, SqldbStore.StoredMovieIds(s, ms)), l) ==
        NumberedFrom(SqldbStore.LocationRows(ms, SqldbStore.StoredMovieIds(s, ms)), l);
    }
    LoadNumbered(ls, ms, n, l, refused);
  }
}
