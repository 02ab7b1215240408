/**
  The value types shared by the current code (src/data/types/types.go): movies, their
  locations and coordinates, the id/movie pair that the database reader returns, and the
  `ByTitle` comparator with which that reader sorts its result.
*/
module Types {
  import GoStrings

  /** A latitude/longitude pair. Go stores `float32`s; their rounding is not modelled. */
  datatype Coordinates = Coordinates(lat: real, lng: real)

  /** The zero value of `Coordinates`. */
  const NoCoordinates := Coordinates(0.0, 0.0)

  datatype Location = Location(name: string, funFact: string, coordinates: Coordinates)

  datatype Movie = Movie(
    title: string,
    locations: seq<Location>,
    actors: seq<string>,
    director: string,
    distributor: string,
    writer: string,
    productionCompany: string,
    releaseYear: int
  )

  /** The zero value of `Movie`. */
  const EmptyMovie := Movie("", [], [], "", "", "", "", 0)

  datatype IdMoviePair = IdMoviePair(id: int, movie: Movie)

  // ---------------------------------------------------------------------------
  // ByTitle
  // ---------------------------------------------------------------------------

  /** `ByTitle.Less(i, j)`. */
  predicate Less(ms: seq<IdMoviePair>, i: nat, j: nat)
    requires i < |ms| && j < |ms|
  {
    GoStrings.Less(ms[i].movie.title, ms[j].movie.title)
  }

  /** `ByTitle.Swap(i, j)`: exchanges two elements of the slice in place. */
  method Swap(ms: array<IdMoviePair>, i: nat, j: nat)
    requires i < ms.Length && j < ms.Length
    modifies ms
    ensures ms[i] == old(ms[j]) && ms[j] == old(ms[i])
    ensures forall k :: 0 <= k < ms.Length && k != i && k != j ==> ms[k] == old(ms[k])
    ensures multiset(ms[..]) == old(multiset(ms[..]))
  {
    ms[i], ms[j] := ms[j], ms[i];
  }

  /** `Less` is a strict order on positions: irreflexive, and transitive through any
      middle element. */
  lemma LessStrictOrder(ms: seq<IdMoviePair>, i: nat, j: nat, k: nat)
    requires i < |ms| && j < |ms| && k < |ms|
    ensures !Less(ms, i, i)
    ensures Less(ms, i, j) && Less(ms, j, k) ==> Less(ms, i, k)
  {
    GoStrings.LessIrreflexive(ms[i].movie.title);
    if Less(ms, i, j) && Less(ms, j, k) {
      GoStrings.LessTransitive(ms[i].movie.title, ms[j].movie.title, ms[k].movie.title);
    }
  }

  /** The sort key of `ByTitle`. */
  function TitleOf(p: IdMoviePair): string {
    p.movie.title
  }
}
