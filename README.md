# uber-challenge movie locations, modelled in Dafny

This project models the core of a Go web application. The application reads San
Francisco's film-locations feed and stores the movies in MySQL. It reads them back for
the pages, geocodes their locations, and renders the pages through a few template
helpers. Each modelled part is one Dafny module:

- **Feed aggregation.** There are three generations of `entriesToMovies`:
  - `FetchMovie`, from src/data/fetch/movie.go;
  - `FetchLegacy`, from src/data/fetch/fetch.go;
  - `DataLoad`, from data/load.go.

  All three group feed records (`Feed`) by raw title through one shared
  specification, `Aggregation`. That specification skips unlocated records, takes
  the movie from the first located record of each title, and appends one location
  for every located record.
- **The database as the statements see it** (`Database`):
  - Tables are sequences of rows with AUTO_INCREMENT counters and foreign-key parents.
  - Statements create, clear or insert.
  - An oracle decides which requests the server refuses.
  - A transaction works on a copy of the tables and commits it all or nothing.
- **Schema set-up** (`Schema`): `InitTables`, shared by every generation.
- **Bulk persistence** of src/data/sqldb/store.go. `SqlText` holds the hand-built
  SQL text; `SqldbStore` holds `InsertMovies`, `movieTitleIdMap`, `actorIdMap`,
  `StoreMovies` and `StoreMovieInfo`.
- **Row-by-row persistence**, with the actor-id cache:
  - `DataModel` covers data/model.go, and also src/data/model.go's identical
    `InsertMovies`;
  - `SrcDataModel` covers `InsertMoviesOptimized` of src/data/model.go.
- **Read-back:**
  - `SqldbLoad` covers src/data/sqldb/load.go;
  - `MovieLoad` covers the loaders of data/model.go and src/data/model.go;
  - `Sorting` covers `sort.Sort` by title;
  - `Types` and `DataLoad` cover the `ByTitle` comparators.
- **Round trips:** `SqldbRoundTrip` and `DataRoundTrip` state what a reader gives
  back of what its writer stored.
- **Geocode narrowing** (`Geocode`):
  - the retry chain of `FetchLocationCoordinates`, with the geocoding service as an
    oracle;
  - `FetchMissingLocationNames` as a sequential update of a coordinate map.
- **Title sanitising** (`MovieInfo`): the regular expression of `FetchMovieInfo` as
  a language predicate, and the leftmost-first replacement it performs.
- **Template helpers** (`Templates`): `join`, `parenthesize` and `field`.
- **Logging** (`Logging`): the `RecordingLogger` and the logger it wraps.
- **Library functions** (`GoStrings`): the parts of Go's `strings`, `strconv` and
  `fmt` that the code relies on, written out.

The Go code runs each of these as imperative loops over slices, maps and a
transaction. The model keeps them as methods with loops, proved against
specification functions. The properties are lemmas about those functions.

## Model

| member | source | states |
|---|---|---|
| Feed.DefinedIff | src/data/fetch/fetch.go:149-151 | `defined(s)` is false exactly for "" and "N/A" |
| Feed.KeepIfMembers | src/data/fetch/fetch.go:115-123 | keeping the defined actor slots keeps exactly the accepted values and never adds any |
| Feed.KeepIfThree | src/data/fetch/movie.go:113-125 | the three actor slots are kept or dropped one by one, in slot order |
| FetchMovie.Cleaned | src/data/fetch/movie.go:146-152 | `cleaned` is the trimmed value, or "" exactly when the trimmed value is "" or "N/A"; the result is trimmed and never "N/A" |
| FetchMovie.CleanedIdempotent | src/data/fetch/movie.go:146-152 | cleaning twice is cleaning once |
| FetchMovie.CleanedOfPadded | src/data/fetch/movie.go:146-152 | white space around a value is dropped; "N/A" with any padding reads as "" |
| FetchMovie.CleanedMissing | src/data/fetch/movie.go:146-152 | "" and "N/A" both clean to "" |
| FetchMovie.CleanedPaddedMissing | src/data/fetch/movie.go:146-152 | "  N/A  " cleans to "" |
| FetchMovie.EntryToMovie | src/data/fetch/movie.go:109-139 | a new movie has no locations and no distributor |
| FetchMovie.ActorsInSlotOrder | src/data/fetch/movie.go:113-125 | the actors are the raw values of the slots whose cleaned value is non-empty, in slot order, with repeats kept |
| FetchMovie.ReleaseYearOfNumber | src/data/fetch/movie.go:127-137 | a year written as a decimal number, with white space around it, reads as that number |
| FetchMovie.RulesCountLocations | src/data/fetch/movie.go:88-103 | a new movie has no location and each located record adds exactly one |
| FetchMovie.EntriesToMovies | src/data/fetch/movie.go:77-108 | the result is a permutation of the grouping; every movie has a location; the total number of locations is the number of located records; there is one movie per distinct raw title |
| FetchMovie.AddAllAppends | src/data/fetch/movie.go:99-103 | adding the records of a title appends their locations in record order |
| FetchMovie.FirstRecordWins | src/data/fetch/movie.go:88-103 | each movie is built from the first located record of its raw title, with the locations of all that title's located records |
| FetchMovie.RawTitleKey | src/data/fetch/movie.go:88-111 | raw titles that differ only in padding give two movies with equal cleaned titles |
| FetchMovie.SkipsUnlocated | src/data/fetch/movie.go:82-85 | a record whose cleaned location is empty changes nothing, wherever it stands |
| FetchLegacy.EntryToLocation | src/data/fetch/fetch.go:139-148 | the location name is empty exactly when undefined; an undefined fun fact stays empty |
| FetchLegacy.PaddedSentinelDefined | src/data/fetch/fetch.go:149-151 | " N/A" and "N/A " count as defined, because nothing is trimmed |
| FetchLegacy.EntryToMovie | src/data/fetch/fetch.go:110-138 | a new movie has no locations and no distributor |
| FetchLegacy.ActorsInSlotOrder | src/data/fetch/fetch.go:115-123 | the actors are the defined slots, in slot order 1, 2, 3 |
| FetchLegacy.ReleaseYearDefault | src/data/fetch/fetch.go:130-132 | an undefined or non-numeric year reads as 0 |
| FetchLegacy.ReleaseYearOfNumber | src/data/fetch/fetch.go:130-132 | a decimal year reads as its value |
| FetchLegacy.RulesCountLocations | src/data/fetch/fetch.go:89-98 | a new movie has no location and each located record adds one |
| FetchLegacy.EntriesToMovies | src/data/fetch/fetch.go:78-109 | the result is a permutation of the grouping, with one movie per distinct raw title among the located records, each holding a location, and as many locations as located records |
| FetchLegacy.AddAllAppends | src/data/fetch/fetch.go:89-98 | locations are appended in record order |
| FetchLegacy.FirstRecordWins | src/data/fetch/fetch.go:89-98 | the first located record of a title supplies the movie fields; every located record of the title adds its location |
| FetchLegacy.SkipsUndefinedLocation | src/data/fetch/fetch.go:82-86 | a record with an undefined location changes nothing, wherever it stands |
| DataLoad.Swap | data/load.go:49-51 | `Swap` exchanges positions i and j, changes nothing else, and keeps the multiset |
| DataLoad.LessStrictOrder | data/load.go:52-54 | `Less` compares titles and is irreflexive and transitive |
| DataLoad.EntryToLocation | data/load.go:161-170 | the name is empty exactly when undefined; an undefined fun fact stays empty |
| DataLoad.EntryToMovie | data/load.go:132-160 | a new movie has no locations and no distributor |
| DataLoad.ActorsInSlotOrder | data/load.go:137-145 | the actors are the defined slots, in slot order |
| DataLoad.ReleaseYearDefault | data/load.go:132-160 | an undefined or non-numeric year reads as 0 |
| DataLoad.ReleaseYearOfNumber | data/load.go:132-160 | a decimal year reads as its value |
| DataLoad.EntriesToMovies | data/load.go:100-131 | the result is a permutation of the grouping, with one movie per distinct raw title among the located records, each holding a location, and as many locations as located records |
| DataLoad.FirstRecordWins | data/load.go:111-120 | the first located record of a title supplies the movie; locations follow in record order |
| DataLoad.UndefinedTitleKept | data/load.go:111-116 | a located record with an undefined title is still grouped under its raw title, and that movie's title stays empty |
| DataLoad.SkipsUndefinedLocation | data/load.go:104-108 | a record without a defined location is skipped entirely |
| Aggregation.GroupKeys | src/data/fetch/movie.go:80-106 | a title is a key of the grouping exactly when it is the raw title of a located record |
| Aggregation.EntriesToMovies | src/data/fetch/movie.go:80-106 | the two loops return the grouping's movies in some order |
| Aggregation.GroupByTitle | src/data/fetch/movie.go:80-98 | the filling loop builds exactly the grouping specification |
| Aggregation.MapValues | src/data/fetch/movie.go:102-106 | reading out the map returns each value once, in an order the map chooses |
| Aggregation.SkipUnlocated | src/data/fetch/movie.go:82-85 | unlocated records change nothing, wherever they stand |
| Aggregation.GroupValue | src/data/fetch/movie.go:88-98 | each title's movie is the first located record's movie, with every located record of the title added in order |
| Aggregation.CountMovies | src/data/fetch/movie.go:80-106 | there is one movie per distinct located raw title |
| Aggregation.SizesOfGroup | src/data/fetch/movie.go:80-106 | every located record is counted under exactly one title |
| Aggregation.TotalSize | src/data/fetch/movie.go:80-106 | when a new movie has no locations and each record adds one, every movie has at least one and they sum to the located records |
| GoStrings.TrimSpace | src/data/fetch/movie.go:146-152 | `strings.TrimSpace` returns a trimmed string no longer than its input |
| GoStrings.TrimSpaceInfix | src/data/fetch/movie.go:146-152 | what `TrimSpace` removes is white space at the two ends only |
| GoStrings.TrimSpaceIdempotent | src/data/fetch/movie.go:146-152 | trimming twice is trimming once |
| GoStrings.TrimSpaceOfPadded | src/data/fetch/movie.go:146-152 | padding is exactly what is removed |
| GoStrings.Index | src/data/fetch/location.go:61-62 | `strings.Index` gives the first position of the character, and -1 exactly when it is absent |
| GoStrings.Join | src/tpl/tpl.go:75 | `strings.Join` has the items' lengths plus one separator between each pair of neighbours |
| GoStrings.JoinSnoc | src/data/sqldb/store.go:152-176 | one more item adds the separator and the item |
| GoStrings.Atoi | src/data/fetch/fetch.go:130-132 | a parse succeeds only on a sign or digit start, and never on "" |
| GoStrings.AtoiItoa | src/data/fetch/fetch.go:130-132 | `%d` then `Atoi` gives the number back |
| GoStrings.LessTotal | src/data/types/types.go:39-41 | Go's string order relates any two different strings one way or the other |
| GoStrings.LessTransitive | src/data/types/types.go:39-41 | Go's string order is transitive |
| GoStrings.LessIrreflexive | src/data/types/types.go:39-41 | no string is less than itself |
| GoStrings.NotLessTransitive | src/data/types/types.go:39-41 | not-less is transitive, as sorting needs |
| Types.Swap | src/data/types/types.go:36-38 | `Swap` exchanges positions i and j, changes nothing else, and keeps the multiset |
| Types.LessStrictOrder | src/data/types/types.go:39-41 | `Less` compares the titles, is irreflexive and is transitive |
| Sorting.InsertBy | src/data/sqldb/load.go:56 | inserting into a sorted list keeps it sorted and adds exactly that element |
| Sorting.SortBy | src/data/sqldb/load.go:56 | `sort.Sort(ByTitle(ms))` returns a permutation with titles in non-decreasing order |
| SqlText.EscapeSingleQuotes | src/data/sqldb/store.go:138-141 | the escaped text is longer by the number of quotes |
| SqlText.ReadEscaped | src/data/sqldb/store.go:138-141 | MySQL reads the quoted literal of an escaped text without a backslash back as that text, and the statement goes on after the closing quote |
| SqlText.BackslashAltered | src/data/sqldb/store.go:138-141 | a backslash before a character MySQL reads as itself (not a quote, not one of `0 b n r t Z % _`) is dropped: `x\cy`, with `x` and `y` free of backslashes, is read back as `xcy`, so `AC\DC` is stored as `ACDC` |
| SqlText.TrailingBackslashSwallows | src/data/sqldb/store.go:138-141 | a value `v\` ending in a backslash escapes its own closing quote: in `('v\', 'b')` the first literal reads `v', ` and runs on to the opening quote of the next value `b` |
| SqlText.ReadEscapedPrefix | src/data/sqldb/store.go:138-141 | an escaped text without a backslash is read as itself, and the reading goes on into whatever follows it |
| SqlText.EscapeAppend | src/data/sqldb/store.go:138-141 | escaping a concatenation escapes each part |
| SqlText.EscapeLiteral | src/data/sqldb/store.go:138-141 | the corrected escaping adds one character for each quote and each backslash |
| SqlText.ReadEscapedLiteral | src/data/sqldb/store.go:138-141 | with backslashes escaped as well, every text is read back as itself |
| SqlText.EscapeAgreesOnPlain | src/data/sqldb/store.go:138-141 | on text without a backslash the code's escaping and the corrected one agree |
| SqlText.EscapeNoQuotes | src/data/sqldb/store.go:138-141 | text without quotes, backslashes included, is copied unchanged |
| SqlText.AppendTuple | src/data/sqldb/store.go:152-176 | the loops' "separator only when non-empty" step builds the join of the tuples |
| Database.Execute | src/data/sqldb/store.go:170-176 | an `Exec` is logged and counted; it changes the tables exactly when the server accepts it |
| Database.Select | src/data/sqldb/load.go:24-46 | a query returns the table's rows in storage order, unless refused |
| Database.SelectWhere | src/data/sqldb/load.go:60-78 | a filtered query returns exactly the rows whose column holds the value |
| Database.ApplyInsertFrame | src/data/sqldb/store.go:142-286 | an INSERT changes its own table and no other |
| Database.AddRowsNumbered | src/data/util.go:5-16 | NULL ids in an auto-increment table are numbered consecutively from the counter |
| Database.RunScriptEffects | src/data/sqldb/model.go:8-118 | with no refusals, a script succeeds exactly when all its effects apply, and leaves their result |
| Database.RunScriptLog | src/data/sqldb/model.go:8-118 | a script stops at its first failing statement; what it sent is a prefix of its statements |
| Database.Tx.Exec | src/data/sqldb/store.go:272-278 | `tx.Exec` on the transaction's copy of the tables |
| Database.Tx.Insert | src/data/util.go:5-16 | `Insert` returns the id the auto-increment column gave the row, or -1 on error |
| Database.Db.Begin | src/data/sqldb/util.go:18-30 | `Begin` gives a fresh transaction over a copy of the committed tables |
| Database.Db.Commit | src/data/sqldb/util.go:18-30 | `Commit` publishes the copy unless refused |
| Database.Db.Settle | src/data/sqldb/util.go:18-30 | the callback's error leads to a rollback, success to a commit |
| Database.TransactionAtomic | src/data/sqldb/util.go:18-30 | a failed transaction leaves the committed tables as they were; it succeeds exactly when Begin, the work and Commit all do, and then publishes the work's tables |
| Schema.InitTables | src/data/sqldb/model.go:8-118 | `InitTables` runs its ten statements in order and stops at the first failure |
| Schema.ClearEntities | src/data/sqldb/model.go:70-92 | clearing children before parents, no foreign key blocks any of the four deletes |
| Schema.InitScriptApplies | src/data/sqldb/model.go:14-117 | on this schema every statement is accepted |
| Schema.InitResultTable | src/data/sqldb/model.go:14-115 | afterwards all six tables exist, the four entity tables are empty, and `coordinates` and the info cache keep their rows |
| Schema.InitTablesEffect | src/data/sqldb/model.go:14-117 | with no refusals, `InitTables` succeeds with ten requests and leaves that result |
| Schema.InitResultIdempotent | src/data/sqldb/model.go:14-117 | applying the initialisation to its own result changes nothing |
| Schema.InitTablesTwice | src/data/sqldb/model.go:14-117 | running `InitTables` twice leaves the same tables as once |
| Schema.ParentFirstRefused | src/data/sqldb/model.go:70-92 | deleting movies while locations still refer to them is refused, which is why children go first |
| SqldbStore.QueryIds | src/data/sqldb/store.go:287-305 | the id query, then the scan loop that fills the name-to-id map |
| SqldbStore.DistinctMembers | src/data/sqldb/store.go:222-237 | the deduplicated actor names are exactly the names of the casts |
| SqldbStore.DistinctSnoc | src/data/sqldb/store.go:222-237 | the actor list grows by a name exactly when the name is new |
| SqldbStore.MoviesValues | src/data/sqldb/store.go:152-176 | the movies' value list has one tuple per movie, with the columns in order, joined by commas |
| SqldbStore.LocationsValues | src/data/sqldb/store.go:181-208 | one location tuple per location, under the id its movie's title maps to |
| SqldbStore.ActorsValues | src/data/sqldb/store.go:222-237 | one actor tuple per name not seen before |
| SqldbStore.RelationsValues | src/data/sqldb/store.go:250-270 | one relation tuple per element of every cast, with duplicates kept |
| SqldbStore.NameIdMap | src/data/sqldb/store.go:287-324 | the title-to-id and name-to-id maps are what the scan of the (name, id) pairs gives |
| SqldbStore.InsertMovies | src/data/sqldb/store.go:142-286 | the phases run in order and stop at the first failure, with a guard on every empty statement |
| SqldbStore.StoreMovies | src/data/sqldb/store.go:325-337 | `InitTables` and `InsertMovies` run in one transaction |
| SqldbStore.InfoValues | src/data/sqldb/store.go:338-374 | one (title, json) tuple per map entry, in iteration order |
| SqldbStore.StoreMovieInfo | src/data/sqldb/store.go:338-374 | an empty map sends nothing; otherwise one INSERT in one transaction |
| SqldbStore.DistinctUnique | src/data/sqldb/store.go:222-237 | each actor name is listed once |
| SqldbStore.DistinctFirstSeen | src/data/sqldb/store.go:222-237 | the actor names are in order of first occurrence |
| SqldbStore.AssignLastWins | src/data/sqldb/store.go:287-303 | filling the map pair by pair makes each name map to the id of its last row |
| SqldbStore.MovieIds | src/data/sqldb/store.go:287-305 | after the movies are numbered, each title maps to the id of its last movie row |
| SqldbStore.ActorIds | src/data/sqldb/store.go:306-324 | each distinct actor name maps to the id of its one row |
| SqldbStore.InsertMoviesEffect | src/data/sqldb/store.go:142-286 | with no refusals, on initialised tables, for texts without a backslash and relation rows the key accepts, `InsertMovies` succeeds and appends exactly the four row lists |
| SqldbStore.StoredMovies | src/data/sqldb/store.go:152-176 | the movies table holds the movies numbered from its next id |
| SqldbStore.StoredLocations | src/data/sqldb/store.go:181-216 | each location row carries the id its title resolves to, in movie then location order |
| SqldbStore.StoredActors | src/data/sqldb/store.go:222-245 | each distinct actor is stored once, in first-seen order |
| SqldbStore.StoredRelations | src/data/sqldb/store.go:250-278 | one relation row per cast element, pairing the resolved movie and actor ids |
| SqldbStore.MovieIdOf | src/data/sqldb/store.go:287-303 | a title resolves to the last movie row with that title |
| SqldbStore.LocationRowRefers | src/data/sqldb/store.go:181-208 | a location row refers to the row of the last movie with its title |
| SqldbStore.RelationRowRefers | src/data/sqldb/store.go:250-270 | the relation row for an actor of a movie sits at that occurrence's position and holds the id of the last movie row with the movie's title and the id of the actor's one row among the distinct names |
| SqldbStore.StoredOthers | src/data/sqldb/store.go:142-286 | `InsertMovies` touches only the four entity tables |
| SqldbStore.StoredRequests | src/data/sqldb/store.go:143-145 | `InsertMovies` sends from two to six requests; none of the guarded statements is sent when it would be empty |
| SqldbStore.StoreMoviesCommits | src/data/sqldb/store.go:325-337 | with no refusals, for texts without a backslash and relation rows the key accepts, `StoreMovies` commits the initialised and written tables |
| SqldbStore.RepeatedActorBreaksKey | src/data/sqldb/store.go:250-278 | a movie naming one actor twice gives two equal relation rows, which the key `(movie_id, actor_id)` refuses |
| SqldbStore.RelationRowOf | src/data/sqldb/store.go:250-270 | every relation row comes from one actor slot of one movie, and sits at that slot's position |
| SqldbStore.RelationRowsDistinct | src/data/sqldb/store.go:250-278 | movies whose titles resolve to distinct ids, with casts whose names do too, give distinct relation rows |
| SqldbStore.UniqueKeysKeyed | src/data/sqldb/store.go:250-278 | with distinct titles and casts without repeats, the relation rows satisfy the key of `movies_actors` |
| SqldbStore.DistinctCastsUnique | src/data/sqldb/store.go:250-270 | dropping repeated cast names keeps every title and name, and gives keys the server accepts |
| SqldbStore.InsertMoviesStops | src/data/sqldb/store.go:170-284 | when the movies' INSERT is refused, nothing more is sent |
| SqldbLoad.ScanMovies | src/data/sqldb/load.go:24-46 | the scan loop reads every movie row into the id-to-movie map, or stops at the first row that does not scan |
| SqldbLoad.StoredMoviesById | src/data/sqldb/load.go:24-46 | numbered movie rows read back as the map from each id to its movie |
| SqldbLoad.LoadAllLocations | src/data/sqldb/load.go:81-120 | each location row is appended to the movie whose id is its `movie_id` |
| SqldbLoad.AttachAllSucceeds | src/data/sqldb/load.go:89-100 | the loop succeeds exactly when every row scans and names a loaded movie |
| SqldbLoad.AttachAllKeeps | src/data/sqldb/load.go:89-100 | each movie keeps its id and columns and gains its rows' locations, in query order |
| SqldbLoad.IdMoviePairs | src/data/sqldb/load.go:44-46 | one id/movie pair per map entry |
| SqldbLoad.LoadMovies | src/data/sqldb/load.go:13-59 | the pairs are sorted by title; on any error the result is empty |
| SqldbLoad.LoadMoviesReads | src/data/sqldb/load.go:13-59 | with both queries answered, every movie row is read and every location row attached |
| SqldbLoad.LoadedWithoutActors | src/data/sqldb/load.go:48 | every returned movie has an empty cast |
| SqldbLoad.LoadLocations | src/data/sqldb/load.go:60-80 | `LoadLocations` appends to `*ls` and keeps what it held |
| SqldbLoad.AppendScannedKeeps | src/data/sqldb/load.go:60-80 | the existing contents of `*ls` are kept, whatever happens |
| SqldbLoad.LocationsOfWhere | src/data/sqldb/load.go:60-80 | the filtered query keeps exactly the locations filed under `mId` |
| SqldbLoad.MovieLocationsAgree | src/data/sqldb/load.go:60-120 | `LoadLocations` and `LoadAllLocations` give a movie the same locations |
| SqldbLoad.LoadMovieInfoJsons | src/data/sqldb/load.go:137-164 | the title-to-json map is returned with the error, filled as far as the scan got |
| SqldbLoad.InfoScanSucceeds | src/data/sqldb/load.go:137-161 | the loop succeeds exactly when every row scans |
| SqldbLoad.InfoScanLastWins | src/data/sqldb/load.go:137-161 | a later row with the same title overwrites an earlier one |
| SqldbLoad.InfoScanKeys | src/data/sqldb/load.go:137-161 | every key was there before or comes from a row |
| SqldbLoad.StoredInfoReadsBack | src/data/sqldb/load.go:137-164 | the cache written by `StoreMovieInfo` reads back as the map written, for texts without a backslash |
| SqldbLoad.LoadMovie | src/data/sqldb/load.go:165-188 | the movie is returned with the error, as far as it was filled: after a scan error, the fields `Scan` assigned before the failing cell |
| SqldbLoad.MovieRunReads | src/data/sqldb/load.go:165-188 | `LoadMovie` reads the first row with the id, without actors, plus its locations; when that row does not scan, it returns `ScanFailed` with the partly filled movie `ScanMovieInto` |
| SqldbLoad.ScanMovieIntoAgrees | src/data/sqldb/load.go:171-181 | `Scan` succeeds exactly when all seven cells scan, and then the movie it filled is the scanned movie |
| SqldbLoad.NullStopsScan | src/data/sqldb/load.go:171-181 | a NULL cell stops `Scan`: no destination from its column on is assigned |
| SqldbLoad.NullWriterKeepsTitle | src/data/sqldb/load.go:171-181 | the row `(1, 'T', NULL, 'D', 'Di', 'P', 2000)` leaves the zero movie with title `T` |
| SqldbRoundTrip.RoundTrip | src/data/sqldb/load.go:13-59 | the rows the writer numbered read back as the movies, each under its row id, with the locations whose title resolved to that id |
| SqldbRoundTrip.DistinctTitlesRoundTrip | src/data/sqldb/store.go:181-208 | with distinct titles every movie reads back with its own locations, without coordinates |
| SqldbRoundTrip.ShadowedTitleRoundTrip | src/data/sqldb/store.go:287-303 | a movie followed by another with the same title reads back without locations |
| SqldbRoundTrip.StoreThenLoad | src/data/sqldb/store.go:325-337 | for texts without a backslash, reading the tables `InsertMovies` left gives each movie under its row id, without actors, with the locations filed under that id |
| DataModel.CacheActor | data/model.go:150-162 | a cached name sends nothing; a new name is inserted once and cached under its id |
| DataModel.InsertLocations | data/model.go:127-147 | the locations' loop inserts each location under the movie's id |
| DataModel.InsertActors | data/model.go:150-171 | the actors' loop inserts new actors and one relation row per actor occurrence |
| DataModel.InsertMovie | data/model.go:124-171 | one pass: the movie row, its locations, then its actors |
| DataModel.InsertMovies | data/model.go:121-174 | `InsertMovies` stops at the first refused INSERT |
| DataModel.WrittenCompose | data/model.go:121-174 | consecutive writes compose into one write of the concatenated rows |
| DataModel.InsertMoviesWrites | data/model.go:121-174 | when nothing is refused, the writer appends the movies numbered in order, each location under its movie's number, each new name once, and one relation row per actor occurrence |
| DataModel.NewNamesElems | data/model.go:150-162 | the names inserted are those not cached before, each once |
| DataModel.NewNamesDistinct | data/model.go:150-162 | from an empty cache the names inserted are the distinct names in first-seen order, the same list as the bulk writer's |
| DataModel.LocationRowsIndex | data/model.go:127-147 | every location row is a location of a movie, under that movie's id |
| DataModel.RelationRowsIndex | data/model.go:150-171 | there is one relation row per actor occurrence, and each pairs the id of a movie holding that name with the id the cache gives the name |
| DataModel.ActorIdRow | data/model.go:150-171 | every inserted actor name has its row among the inserted actor rows, at the id the cache gives it |
| DataModel.StoreMovies | data/model.go:264-274 | `InitTables` and `InsertMovies` run in one transaction |
| DataModel.InitWritable | data/model.go:9-120 | `InitTables` here keeps `coordinates` and `omdb` and empties the four entity tables |
| DataModel.StoreMoviesCommits | data/model.go:264-274 | with no refusals and no cast naming an actor twice, `StoreMovies` commits the written tables |
| DataModel.LocationRowsEmpty | data/model.go:127-147 | there is no location row exactly when no movie has a location |
| DataModel.ActorNamesEmpty | data/model.go:150-171 | there is no actor name exactly when no cast has a name |
| DataModel.ActorNamesMembers | data/model.go:150-171 | every cast name is among the actor names |
| DataModel.RelationRowsKeyed | data/model.go:150-171 | casts without repeats, with an id of its own for every name, give distinct relation rows |
| DataModel.RepeatedActorBreaksKey | data/model.go:150-171 | a cast naming one actor twice gives two equal relation rows, which the key `(movie_id, actor_id)` of data/model.go:56-67 refuses |
| DataModel.StoredRelationsKeyed | data/model.go:121-174 | the relation rows written satisfy that key exactly when no cast repeats a name |
| MovieLoad.ScanMovies | data/model.go:175-225 | the scan loop over the movie rows |
| MovieLoad.MoviesByIdBare | data/model.go:175-225 | scanned movies have no locations and no actors; the keys are the row ids |
| MovieLoad.LoadLocations | data/model.go:226-263 | `loadLocations` appends the locations filed under the id and keeps what `*ls` held |
| MovieLoad.LoadLocationsReads | src/data/model.go:318-338 | on success, exactly the locations filed under the id are appended |
| MovieLoad.LoadAllLocations | src/data/model.go:339-360 | each location row goes to the movie its `movie_id` names |
| MovieLoad.AttachAllSucceeds | src/data/model.go:339-360 | the loop succeeds exactly when every row scans and names a movie of the map |
| MovieLoad.PerMovie | data/model.go:211-222 | the per-movie loop visits the map's ids in an arbitrary order |
| MovieLoad.PerMovieLoaded | data/model.go:211-222 | on success the k-th movie is the one with the k-th visited id, with its locations |
| MovieLoad.LoadMovies | src/data/model.go:259-317 | the transaction, then the movies collected so far sorted by title |
| MovieLoad.LoadMoviesReadOnly | src/data/model.go:259-317 | loading changes no table |
| MovieLoad.LoadMoviesLoaded | src/data/model.go:259-317 | on success, in either branch, one movie per movie row, with its locations |
| MovieLoad.BranchesAgree | src/data/model.go:259-317 | the optimised and per-movie branches load the same movies |
| MovieLoad.OptimizedSucceeds | src/data/model.go:339-360 | with no refusals, `LoadAllLocations` succeeds when every location row scans and names a movie |
| DataRoundTrip.LoadedAt | data/model.go:175-225 | the movie loaded under an id is the stored movie with that id, without actors |
| DataRoundTrip.LoadSucceeds | data/model.go:175-225 | with no refusals, loading the written tables succeeds, in either branch |
| DataRoundTrip.StoreThenLoad | data/model.go:264-274 | for casts without repeats, after a committed `StoreMovies`, `LoadMovies` commits without changing the tables, and its sorted result is, as a multiset, the stored movies without their casts |
| SrcDataModel.CollectActors | src/data/model.go:214-237 | the actors' loop inserts new actors one by one and collects relation tuples |
| SrcDataModel.CollectLocations | src/data/model.go:198-212 | one movie's location tuples are appended to the value list |
| SrcDataModel.CollectMovies | src/data/model.go:185-238 | the movies' loop, shared by both writers |
| SrcDataModel.InsertMoviesOptimized | src/data/model.go:177-258 | as written, both bulk INSERTs are sent whatever the lists hold |
| SrcDataModel.InsertMoviesGuarded | src/data/model.go:177-258 | each bulk INSERT is sent only when its list holds a tuple |
| SrcDataModel.MoviesRunCollects | src/data/model.go:185-238 | the loop numbers the movies, inserts each new name once, and collects the tuples |
| SrcDataModel.GuardedWrites | src/data/model.go:177-258 | for location texts without a backslash, the guarded writer stops at the first refusal; when none is refused it writes what the row-by-row writer writes |
| SrcDataModel.GuardedAgrees | src/data/model.go:177-258 | with no refusals, location texts without a backslash and casts without repeats, the guarded writer and the row-by-row writer both succeed with the same tables |
| SrcDataModel.AsWrittenOutcome | src/data/model.go:241-254 | as written, with no refusals, location texts without a backslash and casts without repeats, the writer fails exactly when a value list is empty |
| SrcDataModel.AsWrittenAgrees | src/data/model.go:241-254 | when both lists hold a tuple, the guard changes nothing |
| SrcDataModel.StoreMovies | src/data/model.go:379-389 | `InitTables` then `InsertMoviesOptimized` as written run in one transaction |
| SrcDataModel.StoreMoviesGuarded | src/data/model.go:379-389 | `InitTables` then the guarded writer run in one transaction |
| SrcDataModel.StoreMoviesAgrees | src/data/model.go:379-389 | with no refusals, location texts without a backslash, casts without repeats, and some location and some actor in the feed, `StoreMovies` commits what the row-by-row writer commits |
| SrcDataModel.StoreMoviesGuardedAgrees | src/data/model.go:379-389 | under the same conditions, but for every feed, the empty one included, the guarded store commits what the row-by-row writer commits |
| SrcDataModel.EmptyFeedNotStored | src/data/model.go:241-254 | as written, storing a feed with no movies fails and the tables stay as they were |
| SrcDataModel.EmptyFeedClears | src/data/model.go:241-254 | with the guard, the empty feed commits the initialised, empty tables |
| Geocode.Narrowed | src/data/fetch/location.go:58-77 | the retry name is strictly shorter than the name |
| Geocode.NarrowedInfix | src/data/fetch/location.go:61-73 | a retry name is a piece of the name |
| Geocode.NarrowedNone | src/data/fetch/location.go:61-76 | there is no retry exactly when the name has no `(` before a `)` and no comma |
| Geocode.NarrowedParenthesised | src/data/fetch/location.go:61-67 | with a `(` before the first `)`, the retry is the trimmed text between them, whatever follows |
| Geocode.NarrowedAfterComma | src/data/fetch/location.go:69-73 | without usable parentheses, the retry is the trimmed text after the first comma |
| Geocode.NarrowedCloseFirst | src/data/fetch/location.go:61-72 | a `)` before the first `(` sends the name to the comma rule |
| Geocode.ChainShrinks | src/data/fetch/location.go:65-71 | the retry chain starts at the name, and every later name is strictly shorter than the one before |
| Geocode.ChainPieces | src/data/fetch/location.go:61-73 | every name of the chain is a piece of the original name |
| Geocode.FetchIsFirstDecisive | src/data/fetch/location.go:19-79 | the lookup answers with the first name of the chain whose answer is not sent back for narrowing |
| Geocode.FoundInChain | src/data/fetch/location.go:58-78 | coordinates found are those of the first result of an accepted answer for a name of the chain |
| Geocode.NoResultsNoRetry | src/data/fetch/location.go:54-56 | an answer without results ends the lookup at once, with no narrower name tried |
| Geocode.CoordinateMap.constructor | src/data/fetch/location.go:81-85 | the coordinate map starts as given |
| Geocode.Refreshed | src/data/fetch/location.go:86-108 | only names already in the map are written; a name changes only when its lookup succeeds, and then holds the result |
| Geocode.Locate | src/data/fetch/location.go:90-104 | one routine sets one name's coordinates to its lookup and leaves the others |
| Geocode.FetchMissingLocationNames | src/data/fetch/location.go:81-114 | run in turn, the routines leave the map `Refreshed`; one routine per key, the k-th sleeping `delay(k)`, and every routine signals its completion |
| MovieInfo.Sanitize | src/data/fetch/movie_info.go:16-21 | removing matches never lengthens the title |
| MovieInfo.LeftmostMatch | src/data/fetch/movie_info.go:16 | with no delimiter nothing matches; otherwise the leftmost match starts at the `\s` run before the first delimiter and reaches at most to the end of that line |
| MovieInfo.SanitizeUnchanged | src/data/fetch/movie_info.go:16-21 | a title is unchanged exactly when it holds no `-`, no `,` and no "season" in any case; otherwise it gets shorter |
| MovieInfo.SanitizeSingleLine | src/data/fetch/movie_info.go:16-21 | on a one-line title the result is the prefix before the `\s` run preceding the first delimiter |
| MovieInfo.SanitizeCut | src/data/fetch/movie_info.go:16-21 | on a one-line title the result is a prefix cut at the start of that run |
| MovieInfo.SanitizeNoDelimiter | src/data/fetch/movie_info.go:16-21 | the result holds no delimiter, on every line |
| MovieInfo.SanitizeIdempotent | src/data/fetch/movie_info.go:16-21 | sanitising twice is sanitising once |
| Templates.Join | src/tpl/tpl.go:66-76 | `join([])` is "" and `join([a])` is `a` |
| Templates.JoinIsEnglishList | src/tpl/tpl.go:66-76 | `join` is the items interleaved with " and " for two, otherwise ", " and ", and " before the last |
| Templates.JoinInterleaves | src/tpl/tpl.go:75 | `strings.Join` puts its separator between all neighbours |
| Templates.JoinLength | src/tpl/tpl.go:66-76 | the length of `join` is the items' lengths plus those of the separators |
| Templates.Parenthesize | src/tpl/tpl.go:77-79 | the string comes back out from between the two parentheses |
| Templates.FieldShowsDefined | src/tpl/tpl.go:56-62 | a field shows `<i>N/A</i>` exactly for the values the feed treats as missing, and its escaped text otherwise |
| Logging.EntryTagged | src/logging/logging.go:64-100 | an entry starts with its level tag and `(`, and the tag reads back as the level |
| Logging.RecordingLogger.constructor | src/logging/logging.go:52-55 | the zero value has no entries and wraps nothing |
| Logging.RecordingLogger.Wrap | src/logging/logging.go:57-59 | `Wrap` sets the wrapped logger and keeps the entries |
| Logging.RecordingLogger.Unwrap | src/logging/logging.go:60-62 | `Unwrap` clears the wrapped logger and keeps the entries |
| Logging.RecordingLogger.Add | src/logging/logging.go:64-69 | `add` appends exactly one stamped entry |
| Logging.RecordingLogger.Record | src/logging/logging.go:71-100 | one entry is appended, and the wrapped logger, when there is one, receives the same call |
| Logging.RecordingLogger.Debugf | src/logging/logging.go:71-76 | appends a DEBUG entry and passes the call on |
| Logging.RecordingLogger.Infof | src/logging/logging.go:77-82 | appends an INFO entry and passes the call on |
| Logging.RecordingLogger.Warningf | src/logging/logging.go:83-88 | appends a WARN entry and passes the call on |
| Logging.RecordingLogger.Errorf | src/logging/logging.go:89-94 | appends an ERROR entry and passes the call on |
| Logging.RecordingLogger.Criticalf | src/logging/logging.go:95-100 | appends a CRITICAL entry and passes the call on |
| Logging.RecordingLogger.Clear | src/logging/logging.go:102-104 | `Clear` empties the entries and keeps the wrapped logger |

## Left out

- Network I/O is not modelled: the feed download, the OMDb and Google Geocoding requests, `url.QueryEscape` and file reading. The geocoding service is an oracle `geocoder(name)`.
- JSON decoding is not modelled. Records and geocoder answers are already-decoded values.
- The goroutines, mutex and channel barrier of `FetchMissingLocationNames` are not modelled. The routines run to completion one after another, and each `time.Sleep` is recorded as its delay index.
- The clock (time stamps of log entries and the stopwatch) and `fmt.Sprintf` are parameters.
- `template.HTMLEscapeString` is a parameter of `Field`.
- Coordinates are `float32` in Go. Here they are opaque values, compared only for equality.
- Go's map iteration order is modelled as an arbitrary enumeration chosen in the methods (a ghost `order`).
- Go's `sort.Sort` algorithm is not modelled. A reference insertion sort gives the same two promises: a permutation, sorted by title. The order among equal titles is unspecified in Go, and the reference sort fixes one.
- `ByTitle.Len` is the length of the slice, `ms.Length`, and has no member of its own.
- `(?i)` case folding is ASCII only. Go's RE2 also folds `ſ` (U+017F) to `s` and `K` (U+212A) to `k`, which this model does not.
- `strings.TrimSpace` uses the white space of Go's `unicode.IsSpace` within Latin-1: tab, newline, vertical tab, form feed, carriage return, space, U+0085 and U+00A0. The spaces above Latin-1 (U+1680, U+2000 to U+200A, U+2028, U+2029, U+202F, U+205F and U+3000) are not modelled.
- `strconv.Atoi`'s 64-bit range clamping is not modelled. Integers are unbounded.
- SQL DDL text is not kept. Only each statement's effect on the tables is.
- Database.Execute: the rows a statement stores are given beside its text, not read from it. They agree for texts without a backslash: `SqlText.ReadEscaped` shows that MySQL reads each escaped literal back as the text. For other texts they do not (see Findings), so the lemmas that promise stored contents require `SqldbStore.PlainTexts`, `SqldbStore.PlainInfo` or `SrcDataModel.PlainLocations`.
- Database.Apply: primary keys are not enforced. An INSERT that repeats a key of `movies_actors`, a title of `movie_info` or a name of `coordinates` is accepted here and refused by the server. The lemmas that quantify over the refusal oracle cover such a refusal. The lemmas that assume no refusals require keys that hold: `SqldbStore.RelationsKeyed` or `DataModel.CastsDistinct`.
- Database.Apply: the server's other checks (column types and widths, SQL syntax) are not modelled. They count as refusals by the oracle.
- SqldbStore.InsertMoviesEffect: promised only for movies whose quoted texts have no backslash (`PlainTexts`) and whose relation rows the key accepts (`RelationsKeyed`).
- SqldbStore.StoredMovies: promised only for `PlainTexts` movies. MySQL reads a backslash in a title or another column as an escape.
- SqldbStore.StoredLocations: promised only for `PlainTexts` movies.
- SqldbStore.StoredActors: promised only for `PlainTexts` movies.
- SqldbStore.StoredRelations: promised only for `PlainTexts` movies. Otherwise the titles and names read back no longer match.
- SqldbStore.StoreMoviesCommits: promised only for `PlainTexts` movies whose relation rows satisfy `RelationsKeyed`.
- SqldbLoad.StoredInfoReadsBack: promised only for `PlainInfo` maps; `{"Plot":"a \"b\""}` would lose its backslashes. It does not promise that the INSERT is accepted when `before` already holds one of the titles, which the key of `movie_info` refuses.
- SqldbRoundTrip.StoreThenLoad: promised only for `PlainTexts` movies.
- SrcDataModel.GuardedWrites: promised only for feeds whose location names and fun facts have no backslash (`PlainLocations`).
- SrcDataModel.GuardedAgrees: promised only for `PlainLocations` feeds whose casts repeat no name (`DataModel.CastsDistinct`).
- SrcDataModel.AsWrittenOutcome: promised only for `PlainLocations` feeds whose casts repeat no name.
- SrcDataModel.StoreMoviesAgrees: promised only for `PlainLocations` feeds whose casts repeat no name and which hold some location and some actor; as written, a feed without either fails (`EmptyFeedNotStored`).
- SrcDataModel.StoreMoviesGuardedAgrees: promised only for `PlainLocations` feeds whose casts repeat no name.
- DataModel.StoreMoviesCommits: promised only when no cast repeats a name. `DataModel.StoredRelationsKeyed` shows that this is exactly when the key accepts the relation rows.
- DataRoundTrip.StoreThenLoad: promised only when no cast repeats a name.
- SqldbLoad.LoadAllLocations: a location row whose `movie_id` names no loaded movie makes the Go code dereference a nil pointer and panic (src/data/sqldb/load.go:98-99). The model returns `Failure(NilMovie)` instead, and the transaction rolls back. The foreign key on `locations.movie_id` rules such a row out in tables this code writes. The round-trip lemmas show the branch is not taken on them.
- MovieLoad.LoadAllLocations: the same nil-pointer panic (src/data/model.go:356-357) is modelled as `Failure(NilMovie)`.
- The `relations` map that `InsertMoviesOptimized` fills is never read, so the model omits it.
- The logger calls inside the database and fetch code are not modelled, since they have no effect on the state.
- A wrapped logger that is itself a `RecordingLogger` is not modelled. The wrapped logger is an object that records the calls it receives.
- Not modelled:
  - `InitLogger`;
  - template compilation and `has_field`;
  - the HTTP handlers of src/main.go;
  - watch.go and src/config.go;
  - the browser scripts;
  - `LocationDb.Init` and `IsInitialized`, and `Init` of src/data/init.go;
  - the driver wrappers `forEachRow`, `ForEachRow` and `QuerySingleInt`, which are folded into the loops that use them.
- src/data/sqldb/location.go repeats the concurrent part of `FetchMissingLocationNames`. It is not modelled separately.
- `FetchLocationCoordinates`: the guard `commaIdx < len(locName)` always holds after `strings.Index` succeeds, so the model omits it.
- Geocode.Narrowed: the contract states only that the retry name gets shorter. That the retry name is an infix, and when there is none, are stated by `NarrowedInfix` and `NarrowedNone`.

## Findings

| source | as written | input that shows it | evidently intended | confidence | as-written member | corrected member |
|---|---|---|---|---|---|---|
| src/data/sqldb/store.go:138-141 | `escapeSingleQuotes` escapes only `'`, but MySQL also reads `\` as an escape in a literal. A backslash in a title, name, fun fact or JSON text is dropped or turns the next character into a control character, and a trailing backslash escapes the closing quote | the title `AC\DC` is stored as `ACDC`, which also breaks the title lookup of the relation rows; `a\` followed by another value swallows the quote | escape `\` as well as `'` | not executed | SqlText.BackslashAltered | SqlText.ReadEscapedLiteral |
| src/data/sqldb/store.go:250-278 | one relation tuple is written per cast element, repeats included, but `movies_actors` has the key `(movie_id, actor_id)` (store.go:79). A repeated pair makes the server refuse the INSERT, and the whole store rolls back | a feed record whose `actor_1` and `actor_2` name the same person | write each (movie, actor) pair once | not executed | SqldbStore.RepeatedActorBreaksKey | SqldbStore.UniqueKeysKeyed |
| src/data/model.go:241-254 | `InsertMoviesOptimized` sends the locations INSERT and the relations INSERT whatever their value lists hold, so an empty list gives `INSERT INTO locations VALUES ` with no tuple, which the server rejects, and the whole store rolls back | a feed with no movies, or with movies but no actors | send each bulk INSERT only when its list has a tuple, as src/data/sqldb/store.go:210 and 272 do | not executed | SrcDataModel.EmptyFeedNotStored | SrcDataModel.GuardedWrites |
