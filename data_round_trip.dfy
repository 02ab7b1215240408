/**
  What the two older readers give back of what the matching writer stored (data/model.go,
  and src/data/model.go, whose `InsertMovies` is the same): the writer files each location
  under the id its movie's INSERT reported, so every movie reads back under its own id,
  with its columns, exactly its own locations in order, and no actors. Loading sorts the
  movies by title; as a multiset the result is the stored list with the actors cleared.
*/
module DataRoundTrip {
  import opened Wrappers
  import opened Database
  import DataLoad
  import DataModel
  import MovieLoad
  import Sorting
  import Schema
  import SqldbStore

  /** A movie as it reads back: the cast is not loaded. */
  function WithoutActors(ms: seq<DataLoad.Movie>): (r: seq<DataLoad.Movie>)
    ensures |r| == |ms|
  {
    seq(|ms|, k requires 0 <= k < |ms| => ms[k].(actors := []))
  }

  /** A movie row written by `InsertMovies` scans back to its id and the movie without
      locations and actors. */
  lemma ScanStoredMovie(m: DataLoad.Movie, id: int)
    ensures MovieLoad.ScanMovie(Numbered(DataModel.MovieRow(m), id)) == Some((id, m.(locations := [], actors := [])))
  {
  }

  /** A location row written by `InsertMovies` scans back to its movie id and the location. */
  lemma ScanStoredLocation(movieId: int, l: DataLoad.Location, id: int)
    ensures MovieLoad.ScanLocation(Numbered(DataModel.LocationRow(movieId, l), id)) == Some((movieId, l))
  {
  }

  /** Rows whose `k`-th scans to id `n + k` and movie `bs[k]` read back as the map from
      each of those ids to its movie. */
  lemma {:induction false} MoviesByIdNumbered(rows: seq<Row>, n: int, bs: seq<DataLoad.Movie>)
    requires |bs| == |rows|
    requires forall k :: 0 <= k < |rows| ==> MovieLoad.ScanMovie(rows[k]) == Some((n + k, bs[k]))
    ensures MovieLoad.MoviesById(rows).Some?
    ensures forall id :: id in MovieLoad.MoviesById(rows).value <==> n <= id < n + |rows|
    ensures forall k :: 0 <= k < |rows| ==> MovieLoad.MoviesById(rows).value[n + k] == bs[k]
  {
    if rows != [] {
      var last := |rows| - 1;
      var init := rows[..last];
      assert forall k :: 0 <= k < |init| ==> init[k] == rows[k];
      MoviesByIdNumbered(init, n, bs[..last]);
      assert MovieLoad.ScanMovie(rows[last]) == Some((n + last, bs[last]));
    }
  }

  /** The movies numbered from `n` read back as the map from `n + k` to the `k`-th movie
      without locations and actors. */
  lemma StoredMoviesById(ms: seq<DataLoad.Movie>, n: int)
    ensures var byId := MovieLoad.MoviesById(NumberedFrom(DataModel.MovieRows(ms), n));
      byId.Some? &&
      (forall id :: id in byId.value <==> n <= id < n + |ms|) &&
      forall k :: 0 <= k < |ms| ==> byId.value[n + k] == ms[k].(locations := [], actors := [])
  {
    var rows := NumberedFrom(DataModel.MovieRows(ms), n);
    var bs := seq(|ms|, k requires 0 <= k < |ms| => ms[k].(locations := [], actors := []));
    forall k | 0 <= k < |rows| ensures MovieLoad.ScanMovie(rows[k]) == Some((n + k, bs[k])) {
      assert DataModel.MovieRows(ms)[k] == DataModel.MovieRow(ms[k]);
      ScanStoredMovie(ms[k], n + k);
    }
    MoviesByIdNumbered(rows, n, bs);
    forall k | 0 <= k < |ms| ensures MovieLoad.MoviesById(rows).value[n + k] == ms[k].(locations := [], actors := []) {
      assert bs[k] == ms[k].(locations := [], actors := []);
    }
  }

  /** Rows that all scan to the same movie id give their locations under that id and
      none under any other. */
  lemma {:induction false} LocationsOfUniform(rows: seq<Row>, mid: int, locs: seq<DataLoad.Location>, id: int)
    requires |rows| == |locs|
    requires forall j :: 0 <= j < |rows| ==> MovieLoad.ScanLocation(rows[j]) == Some((mid, locs[j]))
    ensures MovieLoad.LocationsOf(rows, id) == if mid == id then locs else []
    decreases |rows|
  {
    if rows != [] {
      var last := |rows| - 1;
      var init := rows[..last];
      assert forall j :: 0 <= j < |init| ==> init[j] == rows[j];
      LocationsOfUniform(init, mid, locs[..last], id);
      assert locs[..last] + [locs[last]] == locs;
    }
  }

  /** The location rows of one movie read back as its locations, under its id only. */
  lemma LocationsOfMovie(mid: int, ls: seq<DataLoad.Location>, l: int, id: int)
    ensures MovieLoad.LocationsOf(NumberedFrom(DataModel.MovieLocationRows(mid, ls), l), id) ==
      if mid == id then ls else []
  {
    var rows := NumberedFrom(DataModel.MovieLocationRows(mid, ls), l);
    forall j | 0 <= j < |rows| ensures MovieLoad.ScanLocation(rows[j]) == Some((mid, ls[j])) {
      ScanStoredLocation(mid, ls[j], l + j);
    }
    LocationsOfUniform(rows, mid, ls, id);
  }

  /** The location rows written for `ms`, the `k`-th movie under id `n + k`, read back
      under each id as the locations of the movie with that id. */
  lemma {:induction false} LocationsOfStored(ms: seq<DataLoad.Movie>, n: int, l: int, id: int)
    ensures MovieLoad.LocationsOf(NumberedFrom(DataModel.LocationRows(ms, n), l), id) == StoredUnder(ms, n, id)
    decreases |ms|
  {
    if ms == [] {
      assert NumberedFrom([], l) == [];
    } else {
      var a := DataModel.MovieLocationRows(n, ms[0].locations);
      var b := DataModel.LocationRows(ms[1..], n + 1);
      var x, y := NumberedFrom(a, l), NumberedFrom(b, l + |a|);
      assert MovieLoad.LocationsOf(y, id) == StoredUnder(ms[1..], n + 1, id) by {
        LocationsOfStored(ms[1..], n + 1, l + |a|, id);
      }
      assert MovieLoad.LocationsOf(x, id) == if n == id then ms[0].locations else [] by {
        LocationsOfMovie(n, ms[0].locations, l, id);
      }
      LocationsOfSplit(ms, n, l, id, a, b);
      StoredUnderCons(ms, n, id);
    }
  }

  /** The locations of the movie with id `id` when the `k`-th movie has id `n + k`. */
  function StoredUnder(ms: seq<DataLoad.Movie>, n: int, id: int): seq<DataLoad.Location> {
    if n <= id < n + |ms| then ms[id - n].locations else []
  }

  lemma StoredUnderCons(ms: seq<DataLoad.Movie>, n: int, id: int)
    requires ms != []
    ensures StoredUnder(ms, n, id) == (if id == n then ms[0].locations else []) + StoredUnder(ms[1..], n + 1, id)
  {
  }

  lemma LocationsOfSplit(ms: seq<DataLoad.Movie>, n: int, l: int, id: int, a: seq<Row>, b: seq<Row>)
    requires ms != []
    requires a == DataModel.MovieLocationRows(n, ms[0].locations) && b == DataModel.LocationRows(ms[1..], n + 1)
    ensures MovieLoad.LocationsOf(NumberedFrom(DataModel.LocationRows(ms, n), l), id) ==
      MovieLoad.LocationsOf(NumberedFrom(a, l), id) + MovieLoad.LocationsOf(NumberedFrom(b, l + |a|), id)
  {
    DataModel.LocationRowsCons(ms, n);
    NumberedFromAppend(a, b, l);
    MovieLoad.LocationsOfAppend(NumberedFrom(a, l), NumberedFrom(b, l + |a|), id);
  }

  /** `xs` is `ys` rearranged: `p` sends each position of `xs` to a distinct position of
      `ys` holding the same movie. */
  ghost predicate Rearranged(xs: seq<DataLoad.Movie>, ys: seq<DataLoad.Movie>, p: seq<int>) {
    |xs| == |ys| == |p| &&
    (forall k :: 0 <= k < |p| ==> 0 <= p[k] < |ys| && xs[k] == ys[p[k]]) &&
    (forall i, j :: 0 <= i < j < |p| ==> p[i] != p[j])
  }

  /** A rearrangement keeps the multiset of movies. */
  lemma {:induction false} RearrangedMultiset(xs: seq<DataLoad.Movie>, ys: seq<DataLoad.Movie>, p: seq<int>)
    requires Rearranged(xs, ys, p)
    ensures multiset(xs) == multiset(ys)
    decreases |xs|
  {
    if xs != [] {
      var last := |xs| - 1;
      var j := p[last];
      var xs', ys' := xs[..last], ys[..j] + ys[j + 1..];
      var p' := seq(last, k requires 0 <= k < last => if p[k] < j then p[k] else p[k] - 1);
      forall k | 0 <= k < last ensures 0 <= p'[k] < |ys'| && xs'[k] == ys'[p'[k]] {
        assert p[k] != j;
        if p[k] > j {
          assert ys'[p[k] - 1] == ys[p[k]];
        }
      }
      forall a, b | 0 <= a < b < last ensures p'[a] != p'[b] {
        assert p[a] != p[b] && p[a] != j && p[b] != j;
      }
      RearrangedMultiset(xs', ys', p');
      assert xs == xs' + [xs[last]];
      assert ys == ys[..j] + [ys[j]] + ys[j + 1..];
    }
  }

  /** The movies a successful load collects from tables holding the rows the writer
      numbered (movies from `n`, locations from `l`) are the stored movies without actors,
      rearranged. */
  lemma LoadNumbered(s0: Session, optimize: bool, order: seq<int>, s: Session, loaded: seq<DataLoad.Movie>,
                     ms: seq<DataLoad.Movie>, n: int, l: int, refused: nat -> bool)
    requires Movies in s0.tables && Locations in s0.tables
    requires s0.tables[Movies].rows == NumberedFrom(DataModel.MovieRows(ms), n)
    requires s0.tables[Locations].rows == NumberedFrom(DataModel.LocationRows(ms, n), l)
    requires MovieLoad.WorkOutcome(s0, optimize, order, s, loaded, None, refused)
    ensures multiset(loaded) == multiset(WithoutActors(ms))
  {
    MovieLoad.LoadMoviesLoaded(s0, optimize, order, s, loaded, refused);
    var mrows := s0.tables[Movies].rows;
    StoredMoviesById(ms, n);
    MovieLoad.MoviesByIdBare(mrows);
    var byId := MovieLoad.MoviesById(mrows).value;
    assert MovieLoad.LocationRowsIn(s0.tables) == s0.tables[Locations].rows;
    LoadedRearranged(loaded, order, byId, ms, n, l);
  }

  lemma LoadedRearranged(loaded: seq<DataLoad.Movie>, order: seq<int>, byId: map<int, DataLoad.Movie>,
                         ms: seq<DataLoad.Movie>, n: int, l: int)
    requires MovieLoad.Enumerates(order, byId.Keys)
    requires MovieLoad.LoadedAs(loaded, order, byId, NumberedFrom(DataModel.LocationRows(ms, n), l))
    requires forall id :: id in byId <==> n <= id < n + |ms|
    requires forall k :: 0 <= k < |ms| ==> byId[n + k] == ms[k].(locations := [], actors := [])
    ensures multiset(loaded) == multiset(WithoutActors(ms))
  {
    var ys := WithoutActors(ms);
    KeysInRange(byId, n, |ms|);
    forall k | 0 <= k < |order| ensures 0 <= order[k] - n < |ys| && loaded[k] == ys[order[k] - n] {
      assert order[k] in byId.Keys;
      LoadedAt(loaded[k], order[k], byId, ms, n, l);
    }
    ShiftedRearranged(loaded, ys, order, n);
  }

  /** Movies listed by distinct ids `order`, the one under `id` being `ys[id - n]`, are a
      rearrangement of `ys` when there are as many. */
  lemma ShiftedRearranged(xs: seq<DataLoad.Movie>, ys: seq<DataLoad.Movie>, order: seq<int>, n: int)
    requires |xs| == |order| == |ys|
    requires forall i, j :: 0 <= i < j < |order| ==> order[i] != order[j]
    requires forall k :: 0 <= k < |order| ==> 0 <= order[k] - n < |ys| && xs[k] == ys[order[k] - n]
    ensures multiset(xs) == multiset(ys)
  {
    var p := seq(|order|, k requires 0 <= k < |order| => order[k] - n);
    assert Rearranged(xs, ys, p);
    RearrangedMultiset(xs, ys, p);
  }

  /** The movie loaded under id `id` is the stored movie with that id, without actors. */
  lemma LoadedAt(m: DataLoad.Movie, id: int, byId: map<int, DataLoad.Movie>, ms: seq<DataLoad.Movie>, n: int, l: int)
    requires id in byId
    requires m == byId[id].(locations := MovieLoad.LocationsOf(NumberedFrom(DataModel.LocationRows(ms, n), l), id))
    requires forall id :: id in byId <==> n <= id < n + |ms|
    requires forall k :: 0 <= k < |ms| ==> byId[n + k] == ms[k].(locations := [], actors := [])
    ensures 0 <= id - n < |ms| && m == WithoutActors(ms)[id - n]
  {
    var j := id - n;
    LocationsOfStored(ms, n, l, id);
    assert byId[n + j] == ms[j].(locations := [], actors := []);
  }

  /** A map whose keys are `n` to `n + c - 1` has `c` entries. */
  lemma KeysInRange(byId: map<int, DataLoad.Movie>, n: int, c: nat)
    requires forall id :: id in byId <==> n <= id < n + c
    ensures |byId.Keys| == c
  {
    RangeSize(n, c);
    forall id ensures id in byId.Keys <==> id in Range(n, c) {
    }
    assert byId.Keys == Range(n, c);
  }

  /** The integers `n` to `n + c - 1`. */
  ghost function Range(n: int, c: nat): set<int> {
    if c == 0 then {} else Range(n, c - 1) + {n + c - 1}
  }

  lemma {:induction false} RangeSize(n: int, c: nat)
    ensures |Range(n, c)| == c
    ensures forall id :: id in Range(n, c) <==> n <= id < n + c
  {
    if c > 0 {
      RangeSize(n, c - 1);
    }
  }

  /** Every location row written for `ms` scans, to the id of one of the movies. */
  lemma StoredLocationsScan(ms: seq<DataLoad.Movie>, n: int, l: int)
    ensures var rows := NumberedFrom(DataModel.LocationRows(ms, n), l);
      MovieLoad.AllScan(rows) &&
      forall p :: 0 <= p < |rows| ==> n <= MovieLoad.ScanLocation(rows[p]).value.0 < n + |ms|
  {
    var written := DataModel.LocationRows(ms, n);
    var rows := NumberedFrom(written, l);
    DataModel.LocationRowsIndex(ms, n);
    forall p | 0 <= p < |rows|
      ensures MovieLoad.ScanLocation(rows[p]).Some? && n <= MovieLoad.ScanLocation(rows[p]).value.0 < n + |ms|
    {
      assert DataModel.LocationOf(ms, n, written[p]);
      var k, j :| 0 <= k < |ms| && 0 <= j < |ms[k].locations| && written[p] == DataModel.LocationRow(n + k, ms[k].locations[j]);
      ScanStoredLocation(n + k, ms[k].locations[j], l + p);
    }
  }

  /** With a server that refuses nothing, loading tables that hold the rows the writer
      numbered succeeds, in either branch. */
  lemma LoadSucceeds(s0: Session, optimize: bool, order: seq<int>, s: Session, loaded: seq<DataLoad.Movie>,
                     err: Option<Error>, ms: seq<DataLoad.Movie>, n: int, l: int, refused: nat -> bool)
    requires Movies in s0.tables && Locations in s0.tables
    requires s0.tables[Movies].rows == NumberedFrom(DataModel.MovieRows(ms), n)
    requires s0.tables[Locations].rows == NumberedFrom(DataModel.LocationRows(ms, n), l)
    requires forall k :: !refused(k)
    requires MovieLoad.WorkOutcome(s0, optimize, order, s, loaded, err, refused)
    ensures err.None?
  {
    var s1 := Select(s0, MovieLoad.SqldbLoad.MoviesSql, Movies, refused).0;
    StoredMoviesById(ms, n);
    var byId := MovieLoad.MoviesById(s0.tables[Movies].rows).value;
    StoredLocationsScan(ms, n, l);
    if optimize {
      MovieLoad.OptimizedSucceeds(s1, byId, refused);
    } else {
      MovieLoad.PerMovieSucceeds(s1, byId, order, refused);
    }
  }

  /** `StoreMovies` then `LoadMovies` (either branch) on a database of this schema whose
      server refuses nothing: the load commits without changing the tables, and returns
      the stored movies, without actors, sorted by title. */
  lemma StoreThenLoad(ts: Tables, requests: nat, ms: seq<DataLoad.Movie>, refused: nat -> bool, optimize: bool,
                      order: seq<int>, s: Session, loaded: seq<DataLoad.Movie>, werr: Option<Error>)
    requires Schema.Shaped(ts) && SqldbStore.Keyed(ts) && forall k :: !refused(k)
    requires DataModel.CastsDistinct(ms)
    requires var r := Transaction(ts, requests, DataModel.InitAndInsertRun(TxStart(ts, requests), ms, refused), refused);
      MovieLoad.WorkOutcome(TxStart(r.0, r.1), optimize, order, s, loaded, werr, refused)
    ensures var r := Transaction(ts, requests, DataModel.InitAndInsertRun(TxStart(ts, requests), ms, refused), refused);
      Transaction(r.0, r.1, (s, werr), refused) == (r.0, s.requests + 1, None)
    ensures multiset(Sorting.SortBy(loaded, DataLoad.TitleOf)) == multiset(WithoutActors(ms))
  {
    var r := Transaction(ts, requests, DataModel.InitAndInsertRun(TxStart(ts, requests), ms, refused), refused);
    var i := Schema.InitResult(ts, Omdb);
    DataModel.StoreMoviesCommits(ts, requests, ms, refused);
    DataModel.InitWritable(ts);
    var names := SqldbStore.Distinct(DataModel.ActorNames(ms));
    var n := i[Movies].nextId;
    StoredTables(i, r.0, ms, SqldbStore.ActorRows(names), DataModel.RelationRows(ms, n, DataModel.ActorIds(names, i[Actors].nextId)));
    LoadStored(i, r.0, r.1, ms, refused, optimize, order, s, loaded, werr);
  }

  /** The movies and locations tables the writer leaves on emptied tables `i`. */
  lemma StoredTables(i: Tables, stored: Tables, ms: seq<DataLoad.Movie>, actors: seq<Row>, relations: seq<Row>)
    requires DataModel.Writable(i) && i[Movies].rows == [] && i[Locations].rows == []
    requires stored == DataModel.Written(i, DataModel.MovieRows(ms), DataModel.LocationRows(ms, i[Movies].nextId), actors, relations)
    ensures Movies in stored && stored[Movies].rows == NumberedFrom(DataModel.MovieRows(ms), i[Movies].nextId)
    ensures Locations in stored &&
      stored[Locations].rows == NumberedFrom(DataModel.LocationRows(ms, i[Movies].nextId), i[Locations].nextId)
  {
    var ls := NumberedFrom(DataModel.LocationRows(ms, i[Movies].nextId), i[Locations].nextId);
    assert [] + ls == ls;
    var mv := NumberedFrom(DataModel.MovieRows(ms), i[Movies].nextId);
    assert [] + mv == mv;
  }

  /** Loading what the writer left on emptied tables `i`. */
  lemma LoadStored(i: Tables, stored: Tables, req: nat, ms: seq<DataLoad.Movie>, refused: nat -> bool, optimize: bool,
                   order: seq<int>, s: Session, loaded: seq<DataLoad.Movie>, werr: Option<Error>)
    requires forall k :: !refused(k)
    requires Movies in i && Locations in i
    requires Movies in stored && stored[Movies].rows == NumberedFrom(DataModel.MovieRows(ms), i[Movies].nextId)
    requires Locations in stored &&
      stored[Locations].rows == NumberedFrom(DataModel.LocationRows(ms, i[Movies].nextId), i[Locations].nextId)
    requires MovieLoad.WorkOutcome(TxStart(stored, req), optimize, order, s, loaded, werr, refused)
    ensures Transaction(stored, req, (s, werr), refused) == (stored, s.requests + 1, None)
    ensures multiset(Sorting.SortBy(loaded, DataLoad.TitleOf)) == multiset(WithoutActors(ms))
  {
    var n, l := i[Movies].nextId, i[Locations].nextId;
    var s0 := TxStart(stored, req);
    LoadSucceeds(s0, optimize, order, s, loaded, werr, ms, n, l, refused);
    LoadNumbered(s0, optimize, order, s, loaded, ms, n, l, refused);
    MovieLoad.LoadMoviesReadOnly(s0, optimize, order, s, loaded, werr, refused);
  }
}
