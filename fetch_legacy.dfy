/**
  The older feed reader of the current tree (src/data/fetch/fetch.go). It reads values as
  they are, treating only "" and the exact sentinel "N/A" as missing; otherwise it groups
  records exactly as the current reader does.
*/
module FetchLegacy {
  import GoStrings
  import opened Feed
  import opened Types
  import Aggregation

  /** `entryToLocation`: undefined values stay empty; the feed carries no coordinates. */
  function EntryToLocation(e: Entry): (l: Location)
    ensures l.name == "" <==> !Defined(e.locations)
    ensures !Defined(e.funFacts) ==> l.funFact == ""
    ensures l.coordinates == NoCoordinates
  {
    Location(
      name := if Defined(e.locations) then e.locations else "",
      funFact := if Defined(e.funFacts) then e.funFacts else "",
      coordinates := NoCoordinates
    )
  }

  /** A value with white space around the sentinel is not the sentinel. */
  lemma PaddedSentinelDefined()
    ensures Defined(" N/A") && Defined("N/A ")
  {
    assert " N/A" != "N/A" by { assert |" N/A"| == 4; }
    assert "N/A " != "N/A" by { assert |"N/A "| == 4; }
  }

  /** `entryToMovie`: the movie-level fields of a record, with no locations yet. */
  function EntryToMovie(e: Entry): (m: Movie)
    ensures m.locations == [] && m.distributor == ""
  {
    Movie(
      title := if Defined(e.title) then e.title else "",
      locations := [],
      actors := (if Defined(e.actor1) then [e.actor1] else []) +
                (if Defined(e.actor2) then [e.actor2] else []) +
                (if Defined(e.actor3) then [e.actor3] else []),
      director := if Defined(e.director) then e.director else "",
      distributor := "",
      writer := if Defined(e.writer) then e.writer else "",
      productionCompany := if Defined(e.productionCompany) then e.productionCompany else "",
      releaseYear := if Defined(e.releaseYear) then GoStrings.Atoi(e.releaseYear).GetOr(0) else 0
    )
  }

  /** The actors are the defined slots, in slot order 1, 2, 3, with repeats kept. */
  lemma ActorsInSlotOrder(e: Entry)
    ensures EntryToMovie(e).actors == KeepIf(ActorSlots(e), Defined)
  {
    KeepIfThree(e.actor1, e.actor2, e.actor3, Defined);
  }

  /** A release year that is missing or not a decimal number is read as 0. */
  lemma ReleaseYearDefault(e: Entry)
    requires !Defined(e.releaseYear) || GoStrings.Atoi(e.releaseYear).None?
    ensures EntryToMovie(e).releaseYear == 0
  {
  }

  /** A release year written as a decimal number, with nothing around it, is read as that
      number. */
  lemma ReleaseYearOfNumber(e: Entry, n: int)
    requires e.releaseYear == GoStrings.Itoa(n)
    ensures EntryToMovie(e).releaseYear == n
  {
    var s := GoStrings.Itoa(n);
    assert s != "N/A" by {
      assert s[0] == '-' || GoStrings.IsDigit(s[0]);
    }
    GoStrings.AtoiItoa(n);
  }

  function AddLocation(m: Movie, e: Entry): Movie {
    m.(locations := m.locations + [EntryToLocation(e)])
  }

  predicate HasLocation(e: Entry) {
    EntryToLocation(e).name != ""
  }

  /** The choices of this generation: located means a defined location. */
  const MovieRules: Aggregation.Rules<Movie> := Aggregation.Rules(HasLocation, EntryToMovie, AddLocation)

  function LocationCount(m: Movie): nat {
    |m.locations|
  }

  lemma RulesCountLocations()
    ensures forall e :: LocationCount(MovieRules.start(e)) == 0
    ensures forall m, e :: LocationCount(MovieRules.add(m, e)) == LocationCount(m) + 1
  {
    forall e ensures LocationCount(MovieRules.start(e)) == 0 {
      assert MovieRules.start(e) == EntryToMovie(e);
    }
    forall m, e ensures LocationCount(MovieRules.add(m, e)) == LocationCount(m) + 1 {
      assert MovieRules.add(m, e) == AddLocation(m, e);
    }
  }

  /** `entriesToMovies`: one movie per distinct raw title of the located records (in an
      order the map decides), each with at least one location, and one location per located
      record. */
  method EntriesToMovies(es: seq<Entry>) returns (ms: seq<Movie>)
    ensures multiset(ms) == multiset(Aggregation.Flatten(Aggregation.Group(es, MovieRules)))
    ensures |ms| == |Aggregation.LocatedTitles(es, MovieRules)|
    ensures forall m :: m in ms ==> |m.locations| >= 1
    ensures Aggregation.SumSizes(ms, LocationCount) == |Aggregation.Located(es, MovieRules)|
  {
    ms := Aggregation.EntriesToMovies(es, MovieRules);
    Aggregation.CountMovies(es, MovieRules);
    assert |ms| == |multiset(ms)|;
    RulesCountLocations();
    Aggregation.TotalSize(es, MovieRules, LocationCount);
    ghost var flat := Aggregation.Flatten(Aggregation.Group(es, MovieRules));
    Aggregation.SumSizesPermutation(ms, flat, LocationCount);
    forall m | m in ms ensures |m.locations| >= 1 {
      assert m in multiset(flat);
      assert m in flat;
      assert LocationCount(m) >= 1;
    }
  }

  /** The locations of the records `ws`, in order. */
  function Locations(ws: seq<Entry>): (ls: seq<Location>)
    ensures |ls| == |ws|
  {
    if ws == [] then [] else Locations(ws[..|ws| - 1]) + [EntryToLocation(ws[|ws| - 1])]
  }

  lemma AddStep(m: Movie, ws: seq<Entry>)
    requires ws != []
    ensures Aggregation.AddAll(m, ws, MovieRules)
      == AddLocation(Aggregation.AddAll(m, ws[..|ws| - 1], MovieRules), ws[|ws| - 1])
  {
  }

  lemma {:induction false} AddAllAppends(m: Movie, ws: seq<Entry>)
    ensures Aggregation.AddAll(m, ws, MovieRules) == m.(locations := m.locations + Locations(ws))
  {
    if ws == [] {
      assert m.locations + [] == m.locations;
    } else {
      var init := ws[..|ws| - 1];
      var loc := EntryToLocation(ws[|ws| - 1]);
      AddAllAppends(m, init);
      AddStep(m, ws);
      assert Locations(ws) == Locations(init) + [loc];
      Aggregation.AppendAssoc(m.locations, Locations(init), [loc]);
    }
  }

  lemma StartIsEntryToMovie(e: Entry)
    ensures MovieRules.start(e) == EntryToMovie(e)
  {
  }

  /** The first located record of a raw title supplies every field of its movie, and every
      located record of that title appends its location, in feed order. */
  lemma FirstRecordWins(es: seq<Entry>, t: string)
    requires t in Aggregation.Group(es, MovieRules).byTitle
    ensures var w := Aggregation.WithTitle(es, MovieRules, t);
      w != [] && w[0].title == t &&
      Aggregation.Group(es, MovieRules).byTitle[t] == EntryToMovie(w[0]).(locations := Locations(w))
  {
    Aggregation.GroupValue(es, MovieRules, t);
    var w := Aggregation.WithTitle(es, MovieRules, t);
    Aggregation.WithTitleIn(es, MovieRules, t, w[0]);
    StartIsEntryToMovie(w[0]);
    AddAllAppends(EntryToMovie(w[0]), w);
    Aggregation.AppendEmpty(Locations(w));
  }

  /** A record whose location is undefined contributes nothing, wherever it stands. */
  lemma SkipsUndefinedLocation(before: seq<Entry>, e: Entry, after: seq<Entry>)
    requires !Defined(e.locations)
    ensures Aggregation.Group(before + [e] + after, MovieRules) == Aggregation.Group(before + after, MovieRules)
  {
    Aggregation.SkipUnlocated(before, e, after, MovieRules);
  }
}
