/**
  The current feed reader (src/data/fetch/movie.go). Every field is cleaned (surrounding
  white space removed, the sentinel "N/A" read as empty); a record whose cleaned location
  is empty is skipped; the first located record of each raw title supplies the movie and
  every located record appends its location.
*/
module FetchMovie {
  import opened Wrappers
  import GoStrings
  import opened Feed
  import opened Types
  import Aggregation

  /** `cleaned`: the trimmed string, or "" when that is "N/A". */
  function Cleaned(s: string): (r: string)
    ensures GoStrings.Trimmed(r) && r != NA
    ensures r == "" <==> GoStrings.TrimSpace(s) == "" || GoStrings.TrimSpace(s) == NA
    ensures r != "" ==> r == GoStrings.TrimSpace(s)
  {
    var ts := GoStrings.TrimSpace(s);
    if ts == NA then "" else ts
  }

  /** Cleaning a cleaned string changes nothing. */
  lemma CleanedIdempotent(s: string)
    ensures Cleaned(Cleaned(s)) == Cleaned(s)
  {
    GoStrings.TrimSpaceOfTrimmed(Cleaned(s));
  }

  /** White space around a value is dropped, and "N/A" with any white space around it is
      read as empty. */
  lemma CleanedOfPadded(w1: string, s: string, w2: string)
    requires GoStrings.AllSpace(w1) && GoStrings.AllSpace(w2) && GoStrings.Trimmed(s)
    ensures Cleaned(w1 + s + w2) == if s == NA then "" else s
  {
    GoStrings.TrimSpaceOfPadded(w1, s, w2);
  }

  /** The empty string and the sentinel are both read as empty. */
  lemma CleanedMissing()
    ensures Cleaned("") == "" && Cleaned(NA) == ""
  {
    CleanedEmpty();
    CleanedNA();
  }

  lemma CleanedEmpty()
    ensures Cleaned("") == ""
  {
    assert |GoStrings.TrimSpace("")| == 0;
  }

  lemma CleanedNA()
    ensures Cleaned(NA) == ""
  {
    assert NA[0] == 'N' && NA[|NA| - 1] == 'A';
    GoStrings.TrimSpaceOfTrimmed(NA);
  }

  lemma CleanedPaddedMissing()
    ensures Cleaned("  N/A  ") == ""
  {
    CleanedOfPadded("  ", NA, "  ");
    assert "  " + NA + "  " == "  N/A  ";
  }

  /** `entryToLocation`. The feed carries no coordinates. */
  function EntryToLocation(e: Entry): Location {
    Location(Cleaned(e.locations), Cleaned(e.funFacts), NoCoordinates)
  }

  /** An actor slot is used when its cleaned value is not empty; what is kept is the raw,
      untrimmed value. */
  predicate ActorPresent(a: string) {
    Cleaned(a) != ""
  }

  /** `entryToMovie`: the movie-level fields of a record, with no locations yet. */
  function EntryToMovie(e: Entry): (m: Movie)
    ensures m.locations == [] && m.distributor == ""
  {
    var actors :=
      (if ActorPresent(e.actor1) then [e.actor1] else []) +
      (if ActorPresent(e.actor2) then [e.actor2] else []) +
      (if ActorPresent(e.actor3) then [e.actor3] else []);
    var year := Cleaned(e.releaseYear);
    Movie(
      title := Cleaned(e.title),
      locations := [],
      actors := actors,
      director := Cleaned(e.director),
      distributor := "",
      writer := Cleaned(e.writer),
      productionCompany := Cleaned(e.productionCompany),
      releaseYear := if year != "" then GoStrings.Atoi(year).GetOr(0) else 0
    )
  }

  /** The actors are the raw values of the slots whose cleaned value is not empty, in slot
      order 1, 2, 3, with repeats kept. */
  lemma ActorsInSlotOrder(e: Entry)
    ensures EntryToMovie(e).actors == KeepIf(ActorSlots(e), ActorPresent)
  {
    KeepIfThree(e.actor1, e.actor2, e.actor3, ActorPresent);
  }

  /** A release year written as a decimal number, with any white space around it, is read
      as that number. */
  lemma ReleaseYearOfNumber(e: Entry, w1: string, n: int, w2: string)
    requires GoStrings.AllSpace(w1) && GoStrings.AllSpace(w2)
    requires e.releaseYear == w1 + GoStrings.Itoa(n) + w2
    ensures EntryToMovie(e).releaseYear == n
  {
    var s := GoStrings.Itoa(n);
    assert !GoStrings.IsSpace(s[0]) && !GoStrings.IsSpace(s[|s| - 1]) by {
      if n < 0 {
        assert s[|s| - 1] == GoStrings.NatToDigits(-n)[|GoStrings.NatToDigits(-n)| - 1];
      }
    }
    CleanedOfPadded(w1, s, w2);
    assert s != NA by { assert s[0] != 'N'; }
    GoStrings.AtoiItoa(n);
  }

  /** Appends the record's location to the movie. */
  function AddLocation(m: Movie, e: Entry): Movie {
    m.(locations := m.locations + [EntryToLocation(e)])
  }

  /** The choices of this generation: located means a non-empty cleaned location. */
  const MovieRules: Aggregation.Rules<Movie> := Aggregation.Rules(HasLocation, EntryToMovie, AddLocation)

  predicate HasLocation(e: Entry) {
    EntryToLocation(e).name != ""
  }

  function LocationCount(m: Movie): nat {
    |m.locations|
  }

  /** A new movie has no location and each located record adds one. */
  lemma RulesCountLocations()
    ensures forall e :: LocationCount(MovieRules.start(e)) == 0
    ensures forall m, e :: LocationCount(MovieRules.add(m, e)) == LocationCount(m) + 1
  {
    forall e ensures LocationCount(MovieRules.start(e)) == 0 {
      assert MovieRules.start(e) == EntryToMovie(e);
    }
    forall m, e ensures LocationCount(MovieRules.add(m, e)) == LocationCount(m) + 1 {
      assert MovieRules.add(m, e) == AddLocation(m, e);
    }
  }

  /** `entriesToMovies`. Each title's movie occurs once (in an order the map decides), every
      movie has a location, and there are as many locations as located records. */
  method EntriesToMovies(entries: seq<Entry>) returns (movies: seq<Movie>)
    ensures multiset(movies) == multiset(Aggregation.Flatten(Aggregation.Group(entries, MovieRules)))
    ensures forall m :: m in movies ==> |m.locations| >= 1
    ensures Aggregation.SumSizes(movies, LocationCount) == |Aggregation.Located(entries, MovieRules)|
    ensures |movies| == |Aggregation.LocatedTitles(entries, MovieRules)|
  {
    movies := Aggregation.EntriesToMovies(entries, MovieRules);
    Aggregation.CountMovies(entries, MovieRules);
    assert |movies| == |multiset(movies)|;
    RulesCountLocations();
    Aggregation.TotalSize(entries, MovieRules, LocationCount);
    Aggregation.SumSizesPermutation(movies, Aggregation.Flatten(Aggregation.Group(entries, MovieRules)), LocationCount);
    ghost var flat := Aggregation.Flatten(Aggregation.Group(entries, MovieRules));
    forall m | m in movies ensures |m.locations| >= 1 {
      assert m in multiset(flat);
      assert m in flat;
      assert LocationCount(m) >= 1;
    }
  }

  /** The locations of the records `ws`, in order. */
  function Locations(ws: seq<Entry>): (ls: seq<Location>)
    ensures |ls| == |ws|
  {
    if ws == [] then [] else Locations(ws[..|ws| - 1]) + [EntryToLocation(ws[|ws| - 1])]
  }

  lemma AddStep(m: Movie, ws: seq<Entry>)
    requires ws != []
    ensures Aggregation.AddAll(m, ws, MovieRules)
      == AddLocation(Aggregation.AddAll(m, ws[..|ws| - 1], MovieRules), ws[|ws| - 1])
  {
  }

  lemma {:induction false} AddAllAppends(m: Movie, ws: seq<Entry>)
    ensures Aggregation.AddAll(m, ws, MovieRules) == m.(locations := m.locations + Locations(ws))
  {
    if ws == [] {
      assert m.locations + [] == m.locations;
    } else {
      var init := ws[..|ws| - 1];
      var loc := EntryToLocation(ws[|ws| - 1]);
      AddAllAppends(m, init);
      AddStep(m, ws);
      assert Locations(ws) == Locations(init) + [loc];
      Aggregation.AppendAssoc(m.locations, Locations(init), [loc]);
    }
  }

  /** Each movie takes every field from the first located record of its raw title and the
      locations of all located records of that title, in feed order: the director, writer,
      actors and year of later records are ignored. */
  lemma FirstRecordWins(entries: seq<Entry>, t: string)
    requires t in Aggregation.Group(entries, MovieRules).byTitle
    ensures var w := Aggregation.WithTitle(entries, MovieRules, t);
      w != [] && w[0].title == t &&
      Aggregation.Group(entries, MovieRules).byTitle[t] == EntryToMovie(w[0]).(locations := Locations(w))
  {
    Aggregation.GroupValue(entries, MovieRules, t);
    var w := Aggregation.WithTitle(entries, MovieRules, t);
    Aggregation.WithTitleIn(entries, MovieRules, t, w[0]);
    var first := EntryToMovie(w[0]);
    StartIsEntryToMovie(w[0]);
    AddAllAppends(first, w);
    Aggregation.AppendEmpty(Locations(w));
  }

  lemma StartIsEntryToMovie(e: Entry)
    ensures MovieRules.start(e) == EntryToMovie(e)
  {
  }

  /** Records are grouped by their raw title but the movie stores the cleaned title, so
      titles that differ only in surrounding white space give two movies with the same
      title. */
  lemma RawTitleKey(entries: seq<Entry>, e1: Entry, e2: Entry, w: string)
    requires e1 in entries && e2 in entries
    requires MovieRules.located(e1) && MovieRules.located(e2)
    requires GoStrings.Trimmed(e1.title) && e1.title != []
    requires GoStrings.AllSpace(w) && w != []
    requires e2.title == w + e1.title
    ensures var g := Aggregation.Group(entries, MovieRules);
      e1.title != e2.title && e1.title in g.byTitle && e2.title in g.byTitle &&
      g.byTitle[e1.title].title == g.byTitle[e2.title].title
  {
    Aggregation.InWithTitle(entries, MovieRules, e1);
    Aggregation.InWithTitle(entries, MovieRules, e2);
    Aggregation.GroupKeys(entries, MovieRules, e1.title);
    Aggregation.GroupKeys(entries, MovieRules, e2.title);
    FirstRecordWins(entries, e1.title);
    FirstRecordWins(entries, e2.title);
    CleanedOfPadded(w, e1.title, "");
    assert w + e1.title + "" == e2.title;
    assert |e2.title| > |e1.title|;
  }

  /** A record whose cleaned location is empty contributes nothing, wherever it stands. */
  lemma SkipsUnlocated(before: seq<Entry>, e: Entry, after: seq<Entry>)
    requires Cleaned(e.locations) == ""
    ensures Aggregation.Group(before + [e] + after, MovieRules) == Aggregation.Group(before + after, MovieRules)
  {
    Aggregation.SkipUnlocated(before, e, after, MovieRules);
  }
}
