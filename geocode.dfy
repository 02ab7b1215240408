/**
  Looking up the coordinates of a filming location (src/data/fetch/location.go).
  `FetchLocationCoordinates` asks the geocoder for the location's name; when the answer
  is an error status or the generic "California, USA", it retries with a narrower name:
  the text between the first `(` and the first `)` when the first comes before the
  second, otherwise the text after the first comma, otherwise it gives up. The geocoder
  (the HTTP request, reading and decoding the response) is an oracle from the query to
  a decoded response or an error. `FetchMissingLocationNames` looks up every name of a
  map and stores each coordinate found; its goroutines run here one after the other.
*/
module Geocode {
  import opened Wrappers
  import GoStrings
  import Types

  /** One entry of the response's `Results`. */
  datatype GeoResult = GeoResult(formattedAddress: string, location: Types.Coordinates)

  /** A decoded geocoder response. */
  datatype Response = Response(results: seq<GeoResult>, status: string)

  /** The geocoder: the decoded response to a query, or why there is none (the request,
      the read or the decoding failed). */
  type Geocoder = string -> Result<Response, string>

  datatype GeoError =
    | Transport(reason: string)   // an error from the request, the read or the decoding
    | AddressNotFound             // `errors.New("Address not found")`

  /** The answer the code treats as no match at all. */
  const GenericAddress := "California, USA"

  // ---------------------------------------------------------------------------
  // Narrowing
  // ---------------------------------------------------------------------------

  /** `a` occurs in `b` from position `i` on. */
  predicate InfixAt(a: string, b: string, i: int) {
    0 <= i && i + |a| <= |b| && b[i..i + |a|] == a
  }

  /** `a` occurs in `b` as a contiguous piece. */
  ghost predicate InfixOf(a: string, b: string) {
    exists i :: InfixAt(a, b, i)
  }

  /** The first `(` comes before the first `)`. */
  predicate HasParentheses(s: string) {
    0 <= GoStrings.Index(s, '(') < GoStrings.Index(s, ')')
  }

  lemma InfixOfSlice(s: string, i: nat, j: nat)
    requires i <= j <= |s|
    ensures InfixOf(GoStrings.TrimSpace(s[i..j]), s)
  {
    var t := s[i..j];
    var r := GoStrings.TrimSpace(t);
    var k := GoStrings.TrimSpaceInfix(t);
    assert k + |r| <= |t| && r == t[k..k + |r|];
    PieceOfSlice(s, i, j, k, r);
  }

  lemma PieceOfSlice(s: string, i: nat, j: nat, k: nat, r: string)
    requires i <= j <= |s| && k + |r| <= j - i && r == s[i..j][k..k + |r|]
    ensures InfixOf(r, s)
  {
    SliceOfSlice(s, i, j, k, k + |r|);
    assert InfixAt(r, s, i + k);
  }

  lemma SliceOfSlice(s: string, i: nat, j: nat, a: nat, b: nat)
    requires i <= j <= |s| && a <= b <= j - i
    ensures s[i..j][a..b] == s[i + a..i + b]
  {
    forall t | 0 <= t < b - a ensures s[i..j][a..b][t] == s[i + a + t] {
      assert s[i..j][a..b][t] == s[i..j][a + t];
    }
  }

  lemma InfixOfSelf(s: string)
    ensures InfixOf(s, s)
  {
    assert s[0..|s|] == s;
    assert InfixAt(s, s, 0);
  }

  lemma InfixOfTransitive(a: string, b: string, c: string)
    requires InfixOf(a, b) && InfixOf(b, c)
    ensures InfixOf(a, c)
  {
    var i :| InfixAt(a, b, i);
    var j :| InfixAt(b, c, j);
    forall t | 0 <= t < |a| ensures c[j + i + t] == a[t] {
      assert b[i..i + |a|][t] == a[t];
      assert c[j..j + |b|][i + t] == b[i + t];
    }
    assert c[j + i..j + i + |a|] == a;
    assert InfixAt(a, c, j + i);
  }

  /** Where the retry name is cut from the name: strictly between the first `(` and the
      first `)`, else after the first comma, else nowhere. */
  function RetrySpan(locName: string): (r: Option<(nat, nat)>)
    ensures r.Some? ==> 0 < r.value.0 <= r.value.1 <= |locName|
  {
    var left := GoStrings.Index(locName, '(');
    var right := GoStrings.Index(locName, ')');
    if 0 <= left < right then Some((left + 1, right))
    else
      var comma := GoStrings.Index(locName, ',');
      if 0 <= comma then Some((comma + 1, |locName|)) else None
  }

  /** The narrower name the code retries with: the trimmed text of the span, which is
      strictly shorter than the name. */
  function Narrowed(locName: string): (r: Option<string>)
    ensures r.Some? ==> |r.value| < |locName|
  {
    var span := RetrySpan(locName);
    if span.None? then None
    else
      var piece := locName[span.value.0..span.value.1];
      assert |piece| < |locName|;
      Some(GoStrings.TrimSpace(piece))
  }

  /** A retry is a piece of the name. */
  lemma NarrowedInfix(locName: string)
    requires Narrowed(locName).Some?
    ensures InfixOf(Narrowed(locName).value, locName)
  {
    var (i, j) := RetrySpan(locName).value;
    InfixOfSlice(locName, i, j);
  }

  /** The lookup gives up exactly when the name has neither usable parentheses nor a
      comma. */
  lemma NarrowedNone(locName: string)
    ensures Narrowed(locName).None? <==> !HasParentheses(locName) && ',' !in locName
  {
    var comma := GoStrings.Index(locName, ',');
    assert 0 <= comma ==> comma < |locName|;
  }

  /** `strings.Index` finds the first occurrence. */
  lemma IndexAt(s: string, c: char, i: nat)
    requires i < |s| && s[i] == c && c !in s[..i]
    ensures GoStrings.Index(s, c) == i
  {
    assert s[i] in s;
  }

  /** With a `(` before any `)`, the retry is the trimmed text up to the next `)`,
      whatever follows (a comma included). */
  lemma NarrowedParenthesised(p: string, q: string, rest: string)
    requires '(' !in p && ')' !in p && ')' !in q
    ensures Narrowed(p + "(" + q + ")" + rest) == Some(GoStrings.TrimSpace(q))
  {
    var s := p + "(" + q + ")" + rest;
    var k := |p| + 1 + |q|;
    assert s[..|p|] == p;
    assert s[..k] == p + "(" + q;
    IndexAt(s, '(', |p|);
    IndexAt(s, ')', k);
    assert s[|p| + 1..k] == q;
  }

  /** Without usable parentheses, the retry is the trimmed text after the first comma. */
  lemma NarrowedAfterComma(p: string, rest: string)
    requires ',' !in p && !HasParentheses(p + "," + rest)
    ensures Narrowed(p + "," + rest) == Some(GoStrings.TrimSpace(rest))
  {
    var s := p + "," + rest;
    assert s[..|p|] == p;
    IndexAt(s, ',', |p|);
    assert RetrySpan(s) == Some((|p| + 1, |s|));
    assert s[|p| + 1..|s|] == rest;
  }

  /** A `)` before the first `(` sends the name to the comma rule. */
  lemma NarrowedCloseFirst(p: string, q: string, rest: string)
    requires '(' !in p && ')' !in p && ',' !in p + ")" + q
    ensures Narrowed(p + ")" + q + "," + rest) == Some(GoStrings.TrimSpace(rest))
  {
    var s := p + ")" + q + "," + rest;
    assert s == (p + ")" + q) + "," + rest;
    assert s[..|p|] == p;
    IndexAt(s, ')', |p|);
    assert !HasParentheses(s);
    NarrowedAfterComma(p + ")" + q, rest);
  }

  // ---------------------------------------------------------------------------
  // FetchLocationCoordinates
  // ---------------------------------------------------------------------------

  /** What the code makes of one answer of the geocoder. */
  datatype Verdict = Found(location: Types.Coordinates) | NotFound | Narrow | Broken(reason: string)

  function Judge(answer: Result<Response, string>): Verdict {
    match answer
    case Failure(e) => Broken(e)
    case Success(res) =>
      if |res.results| == 0 then NotFound
      else if res.status != "OK" || res.results[0].formattedAddress == GenericAddress then Narrow
      else Found(res.results[0].location)
  }

  /** `FetchLocationCoordinates(mapsApiKey, locName, ctx, logger)`; the request's URL,
      key and context are the geocoder's business. */
  function FetchLocationCoordinates(geocoder: Geocoder, locName: string): (r: Result<Types.Coordinates, GeoError>)
    decreases |locName|
  {
    match geocoder(locName)
    case Failure(e) => Failure(Transport(e))
    case Success(res) =>
      if |res.results| == 0 then Failure(AddressNotFound)
      else if res.status != "OK" || res.results[0].formattedAddress == GenericAddress then
        match Narrowed(locName)
        case Some(sub) => FetchLocationCoordinates(geocoder, sub)
        case None => Failure(AddressNotFound)
      else Success(res.results[0].location)
  }

  /** The names the narrowing would try, in order, whatever the geocoder answers. */
  function Chain(locName: string): (r: seq<string>)
    decreases |locName|
  {
    match Narrowed(locName)
    case Some(sub) => [locName] + Chain(sub)
    case None => [locName]
  }

  /** The chain starts at the name and every later name is strictly shorter than the
      one before it, so the chain is at most one longer than the name: the retries always
      come to an end. */
  lemma {:induction false} ChainShrinks(locName: string)
    ensures |Chain(locName)| >= 1 && Chain(locName)[0] == locName
    ensures forall k :: 0 < k < |Chain(locName)| ==> |Chain(locName)[k]| < |Chain(locName)[k - 1]|
    ensures |Chain(locName)| <= |locName| + 1
    decreases |locName|
  {
    match Narrowed(locName)
    case None =>
    case Some(sub) =>
      ChainShrinks(sub);
      ChainStep(locName, sub);
      ShrinkingCons(locName, Chain(sub));
  }

  lemma ShrinkingCons(name: string, rest: seq<string>)
    requires rest != [] && |rest[0]| < |name|
    requires forall k :: 0 < k < |rest| ==> |rest[k]| < |rest[k - 1]|
    ensures forall k :: 0 < k < |[name] + rest| ==> |([name] + rest)[k]| < |([name] + rest)[k - 1]|
  {
    forall k | 0 < k < |[name] + rest| ensures |([name] + rest)[k]| < |([name] + rest)[k - 1]| {
      assert ([name] + rest)[k] == rest[k - 1];
      if k > 1 {
        assert ([name] + rest)[k - 1] == rest[k - 2];
      }
    }
  }

  /** Every name of the chain is a piece of the name looked up. */
  lemma {:induction false} ChainPieces(locName: string)
    ensures forall k :: 0 <= k < |Chain(locName)| ==> InfixOf(Chain(locName)[k], locName)
    decreases |locName|
  {
    InfixOfSelf(locName);
    match Narrowed(locName)
    case None =>
      ChainEnds(locName);
    case Some(sub) =>
      ChainPieces(sub);
      NarrowedInfix(locName);
      ChainStep(locName, sub);
      var rest := Chain(sub);
      forall k | 0 <= k < |rest| ensures InfixOf(rest[k], locName) {
        InfixOfTransitive(rest[k], sub, locName);
      }
      PiecesCons(locName, rest);
  }

  lemma PiecesCons(locName: string, rest: seq<string>)
    requires forall k :: 0 <= k < |rest| ==> InfixOf(rest[k], locName)
    requires InfixOf(locName, locName)
    ensures forall k :: 0 <= k < |[locName] + rest| ==> InfixOf(([locName] + rest)[k], locName)
  {
    forall k | 0 < k < |[locName] + rest| ensures InfixOf(([locName] + rest)[k], locName) {
      assert ([locName] + rest)[k] == rest[k - 1];
    }
  }

  /** An independent reading of the narrowing: walk the chain and stop at the first name
      whose answer decides something. */
  function FirstDecisive(geocoder: Geocoder, names: seq<string>): Result<Types.Coordinates, GeoError>
  {
    if names == [] then Failure(AddressNotFound)
    else match Judge(geocoder(names[0]))
      case Found(c) => Success(c)
      case NotFound => Failure(AddressNotFound)
      case Broken(e) => Failure(Transport(e))
      case Narrow => FirstDecisive(geocoder, names[1..])
  }

  /** The lookup answers with the first name of the chain that the geocoder does not send
      back for narrowing: its first result when there is one, "Address not found" when
      it has no result or the chain runs out, and a transport error as it is. */
  lemma {:induction false} FetchIsFirstDecisive(geocoder: Geocoder, locName: string)
    ensures FetchLocationCoordinates(geocoder, locName) == FirstDecisive(geocoder, Chain(locName))
    decreases |locName|
  {
    var narrow := Judge(geocoder(locName)).Narrow?;
    match Narrowed(locName)
    case None =>
      ChainEnds(locName);
      if narrow {
        FetchNarrowEnds(geocoder, locName);
      } else {
        DecisiveHead(geocoder, [locName]);
      }
    case Some(sub) =>
      ChainStep(locName, sub);
      if narrow {
        FetchIsFirstDecisive(geocoder, sub);
        FetchNarrowStep(geocoder, locName, sub);
      } else {
        DecisiveHead(geocoder, [locName] + Chain(sub));
      }
  }

  /** A first name whose answer decides gives the lookup's answer for it. */
  lemma DecisiveHead(geocoder: Geocoder, names: seq<string>)
    requires names != [] && !Judge(geocoder(names[0])).Narrow?
    ensures FirstDecisive(geocoder, names) == FetchLocationCoordinates(geocoder, names[0])
  {
  }

  lemma FetchNarrowEnds(geocoder: Geocoder, locName: string)
    requires Judge(geocoder(locName)).Narrow? && Narrowed(locName).None?
    ensures FetchLocationCoordinates(geocoder, locName) == Failure(AddressNotFound)
    ensures FirstDecisive(geocoder, [locName]) == Failure(AddressNotFound)
  {
    LastNarrowFails(geocoder, locName);
  }

  lemma LastNarrowFails(geocoder: Geocoder, locName: string)
    requires Judge(geocoder(locName)).Narrow?
    ensures FirstDecisive(geocoder, [locName]) == Failure(AddressNotFound)
  {
    assert [locName][1..] == [];
  }

  lemma FetchNarrowStep(geocoder: Geocoder, locName: string, sub: string)
    requires Judge(geocoder(locName)).Narrow? && Narrowed(locName) == Some(sub)
    ensures FetchLocationCoordinates(geocoder, locName) == FetchLocationCoordinates(geocoder, sub)
    ensures FirstDecisive(geocoder, [locName] + Chain(sub)) == FirstDecisive(geocoder, Chain(sub))
  {
    var res := geocoder(locName).value;
    assert |res.results| > 0 && (res.status != "OK" || res.results[0].formattedAddress == GenericAddress);
    NarrowSkips(geocoder, locName, Chain(sub));
  }

  /** A name sent back for narrowing passes the decision to the names after it. */
  lemma NarrowSkips(geocoder: Geocoder, name: string, rest: seq<string>)
    requires Judge(geocoder(name)).Narrow?
    ensures FirstDecisive(geocoder, [name] + rest) == FirstDecisive(geocoder, rest)
  {
    assert ([name] + rest)[1..] == rest;
  }

  lemma ChainEnds(locName: string)
    requires Narrowed(locName).None?
    ensures Chain(locName) == [locName]
  {
  }

  lemma ChainStep(locName: string, sub: string)
    requires Narrowed(locName) == Some(sub)
    ensures Chain(locName) == [locName] + Chain(sub)
  {
  }

  /** A coordinate found is the first result of an accepted answer to a name of the
      chain. */
  lemma FoundInChain(geocoder: Geocoder, locName: string)
    ensures var r := FetchLocationCoordinates(geocoder, locName);
      r.Success? ==> exists k :: 0 <= k < |Chain(locName)| && Judge(geocoder(Chain(locName)[k])) == Found(r.value)
  {
    FetchIsFirstDecisive(geocoder, locName);
    FirstDecisiveFound(geocoder, Chain(locName));
  }

  lemma {:induction false} FirstDecisiveFound(geocoder: Geocoder, names: seq<string>)
    ensures var r := FirstDecisive(geocoder, names);
      r.Success? ==> exists k :: 0 <= k < |names| && Judge(geocoder(names[k])) == Found(r.value)
    decreases |names|
  {
    if names != [] && Judge(geocoder(names[0])).Narrow? {
      FirstDecisiveFound(geocoder, names[1..]);
      var r := FirstDecisive(geocoder, names);
      if r.Success? {
        var k :| 0 <= k < |names[1..]| && Judge(geocoder(names[1..][k])) == Found(r.value);
        assert names[1..][k] == names[k + 1];
      }
    }
  }

  /** An answer without results ends the lookup at once: no narrower name is tried. */
  lemma NoResultsNoRetry(geocoder: Geocoder, locName: string)
    requires geocoder(locName).Success? && geocoder(locName).value.results == []
    ensures FetchLocationCoordinates(geocoder, locName) == Failure(AddressNotFound)
    ensures FirstDecisive(geocoder, Chain(locName)) == Failure(AddressNotFound)
  {
    FetchIsFirstDecisive(geocoder, locName);
  }

  // ---------------------------------------------------------------------------
  // FetchMissingLocationNames
  // ---------------------------------------------------------------------------

  /** The `map[string]*types.Coordinates` the caller hands over; a Go map is shared, so
      the writes are seen by the caller. `None` is a nil pointer. */
  class CoordinateMap {
    var coords: map<string, Option<Types.Coordinates>>

    constructor (coords: map<string, Option<Types.Coordinates>>)
      ensures this.coords == coords
    {
      this.coords := coords;
    }
  }

  /** One name's value after its lookup: the coordinates found, or the value it had. */
  function Lookup(geocoder: Geocoder, name: string, before: Option<Types.Coordinates>): Option<Types.Coordinates> {
    var cs := FetchLocationCoordinates(geocoder, name);
    if cs.Success? then Some(cs.value) else before
  }

  /** The map after every name was looked up: a name keeps its value unless the lookup
      succeeded, and then holds the coordinates found; no name is added or removed. */
  function Refreshed(geocoder: Geocoder, coords: map<string, Option<Types.Coordinates>>)
    : (r: map<string, Option<Types.Coordinates>>)
    ensures r.Keys == coords.Keys
    ensures forall name :: name in coords && r[name] != coords[name] ==>
      r[name].Some? && FetchLocationCoordinates(geocoder, name) == Success(r[name].value)
    ensures forall name :: name in coords && FetchLocationCoordinates(geocoder, name).Success? ==>
      r[name] == Some(FetchLocationCoordinates(geocoder, name).value)
  {
    map name | name in coords :: Lookup(geocoder, name, coords[name])
  }

  /** `order` lists the keys, each once: the order a `range` over the map visits them. */
  ghost predicate Enumerates(order: seq<string>, keys: set<string>) {
    |order| == |keys| &&
    (forall k :: 0 <= k < |order| ==> order[k] in keys) &&
    (forall key :: key in keys ==> key in order) &&
    (forall i, j :: 0 <= i < j < |order| ==> order[i] != order[j])
  }

  lemma HasName(names: set<string>)
    requires names != {}
    ensures exists name :: name in names
  {
    if forall name :: name in names ==> false {
      assert false;
    }
  }

  /** The body of one routine after its sleep: look the name up and store the
      coordinates found, leaving the other names alone. */
  method Locate(m: CoordinateMap, geocoder: Geocoder, name: string)
    requires name in m.coords
    modifies m
    ensures m.coords == old(m.coords)[name := Lookup(geocoder, name, old(m.coords)[name])]
  {
    var cs := FetchLocationCoordinates(geocoder, name);
    if cs.Success? {
      m.coords := m.coords[name := Some(cs.value)];
    } else {
      assert m.coords[name := m.coords[name]] == m.coords;
    }
  }

  /** `FetchMissingLocationNames(coords, delay, ...)`, each goroutine run to completion in
      turn. `sleeps[k]` is the delay the `k`-th routine slept, `order[k]` the name it
      looked up, and `completions` the number of signals the final loop waited for. */
  method FetchMissingLocationNames(m: CoordinateMap, delay: int -> int, geocoder: Geocoder)
    returns (sleeps: seq<int>, completions: nat, ghost order: seq<string>)
    modifies m
    ensures m.coords == Refreshed(geocoder, old(m.coords))
    ensures Enumerates(order, old(m.coords).Keys)
    ensures |sleeps| == |order| && forall k :: 0 <= k < |sleeps| ==> sleeps[k] == delay(k)
    ensures completions == |old(m.coords)|
  {
    ghost var before := m.coords;
    var rest := m.coords.Keys;
    var count := 0;
    var signals := 0;
    sleeps, order := [], [];
    PartlyNone(geocoder, before);
    VisitStart(before.Keys);
    while rest != {}
      invariant rest <= before.Keys && m.coords == Partly(geocoder, before, rest)
      invariant Visiting(order, before.Keys, rest)
      invariant count == |order| == |sleeps| == signals
      invariant forall k :: 0 <= k < |sleeps| ==> sleeps[k] == delay(k)
      decreases |rest|
    {
      HasName(rest);
      var name :| name in rest;
      var d := delay(count);
      // the routine sleeps `d`, then looks the name up
      LocateStep(geocoder, before, rest, name);
      VisitStep(order, before.Keys, rest, name);
      Locate(m, geocoder, name);
      signals := signals + 1;
      sleeps, order := sleeps + [d], order + [name];
      rest := rest - {name};
      count := count + 1;
    }
    completions := 0;
    while completions < count
      invariant completions <= count
    {
      completions := completions + 1;
    }
    assert |before.Keys| == |before|;
    PartlyAll(geocoder, before);
    VisitDone(order, before.Keys);
  }

  /** `order` lists, each once, the keys no longer in `rest`. */
  ghost predicate Visiting(order: seq<string>, keys: set<string>, rest: set<string>) {
    rest <= keys && |order| + |rest| == |keys| &&
    (forall k :: 0 <= k < |order| ==> order[k] in keys && order[k] !in rest) &&
    (forall key :: key in keys && key !in rest ==> key in order) &&
    (forall i, j :: 0 <= i < j < |order| ==> order[i] != order[j])
  }

  lemma VisitStart(keys: set<string>)
    ensures Visiting([], keys, keys)
  {
  }

  lemma VisitStep(order: seq<string>, keys: set<string>, rest: set<string>, name: string)
    requires Visiting(order, keys, rest) && name in rest
    ensures Visiting(order + [name], keys, rest - {name})
  {
  }

  lemma VisitDone(order: seq<string>, keys: set<string>)
    requires Visiting(order, keys, {})
    ensures Enumerates(order, keys)
  {
  }

  /** The map while the routines run: the names of `rest` still hold their old value,
      the others their lookup's. */
  ghost function Partly(geocoder: Geocoder, before: map<string, Option<Types.Coordinates>>, rest: set<string>)
    : map<string, Option<Types.Coordinates>>
  {
    map n | n in before :: if n in rest then before[n] else Lookup(geocoder, n, before[n])
  }

  lemma PartlyNone(geocoder: Geocoder, before: map<string, Option<Types.Coordinates>>)
    ensures Partly(geocoder, before, before.Keys) == before
  {
  }

  lemma PartlyAll(geocoder: Geocoder, before: map<string, Option<Types.Coordinates>>)
    ensures Partly(geocoder, before, {}) == Refreshed(geocoder, before)
  {
  }

  /** Looking up one more name of `rest` moves it to the names looked up. */
  lemma LocateStep(geocoder: Geocoder, before: map<string, Option<Types.Coordinates>>,
                   rest: set<string>, name: string)
    requires name in rest && rest <= before.Keys
    ensures var now := Partly(geocoder, before, rest);
      now[name := Lookup(geocoder, name, now[name])] == Partly(geocoder, before, rest - {name})
  {
  }

}
