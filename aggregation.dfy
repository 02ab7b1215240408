/**
  The grouping performed by every generation of `entriesToMovies`: records are visited in
  order, records without a location are skipped, the first located record of each raw
  title creates that title's movie, and every located record (the first included) is then
  added to its title's movie. The three generations differ only in when a record counts as
  located and in how a movie is built and extended; `Rules` carries those three choices.
*/
module Aggregation {
  import opened Feed

  /** How one generation of the reader turns records into movies of type `M`. */
  datatype Rules<!M> = Rules(
    located: Entry -> bool,     // does the record carry a location?
    start: Entry -> M,          // the movie built from a title's first located record
    add: (M, Entry) -> M        // the movie after the record's location is appended
  )

  /** The state of the grouping loop: the title-keyed map, and the titles in the order in
      which they first appeared. */
  datatype Grouping<M> = Grouping(byTitle: map<string, M>, titles: seq<string>)

  predicate NoDuplicates<T(==)>(s: seq<T>) {
    forall i, j :: 0 <= i < j < |s| ==> s[i] != s[j]
  }

  ghost predicate WellFormed<M>(g: Grouping<M>) {
    NoDuplicates(g.titles) && forall t :: t in g.byTitle <==> t in g.titles
  }

  /** One iteration of the loop. */
  function Step<M>(g: Grouping<M>, e: Entry, r: Rules<M>): Grouping<M> {
    if !r.located(e) then g
    else if e.title in g.byTitle then Grouping(g.byTitle[e.title := r.add(g.byTitle[e.title], e)], g.titles)
    else Grouping(g.byTitle[e.title := r.add(r.start(e), e)], g.titles + [e.title])
  }

  /** The located records of `es` whose raw title is `t`, in feed order. */
  function WithTitle<M>(es: seq<Entry>, r: Rules<M>, t: string): seq<Entry> {
    if es == [] then []
    else
      var e := es[|es| - 1];
      var init := WithTitle(es[..|es| - 1], r, t);
      if r.located(e) && e.title == t then init + [e] else init
  }

  /** The located records of `es`, in feed order. */
  function Located<M>(es: seq<Entry>, r: Rules<M>): seq<Entry> {
    if es == [] then []
    else
      var e := es[|es| - 1];
      var init := Located(es[..|es| - 1], r);
      if r.located(e) then init + [e] else init
  }

  /** The grouping after the loop has visited all of `es`. */
  function Group<M>(es: seq<Entry>, r: Rules<M>): (g: Grouping<M>)
    ensures WellFormed(g)
  {
    if es == [] then Grouping(map[], [])
    else Step(Group(es[..|es| - 1], r), es[|es| - 1], r)
  }

  /** Every title of the grouping is the raw title of some located record, and every such
      title is one. */
  lemma {:induction false} GroupKeys<M>(es: seq<Entry>, r: Rules<M>, t: string)
    ensures t in Group(es, r).byTitle <==> WithTitle(es, r, t) != []
  {
    if es != [] {
      var init := es[..|es| - 1];
      GroupKeys(init, r, t);
      assert Group(es, r) == Step(Group(init, r), es[|es| - 1], r);
    }
  }

  /** The movies in title first-seen order (the Go code reads them out of a map, whose
      order is unspecified). */
  function Flatten<M>(g: Grouping<M>): (ms: seq<M>)
    requires WellFormed(g)
    ensures |ms| == |g.titles|
    ensures forall i :: 0 <= i < |ms| ==> ms[i] == g.byTitle[g.titles[i]]
  {
    Values(g.byTitle, g.titles)
  }

  /** The values of `m` under the keys `ts`, in the order of `ts`. */
  function Values<M>(m: map<string, M>, ts: seq<string>): (vs: seq<M>)
    requires forall t :: t in ts ==> t in m
    ensures |vs| == |ts|
    ensures forall i :: 0 <= i < |ts| ==> vs[i] == m[ts[i]]
  {
    seq(|ts|, i requires 0 <= i < |ts| => m[ts[i]])
  }

  /** Taking the key at position `k` out of `ts` takes its value out of the values. */
  lemma ValuesRemove<M>(m: map<string, M>, ts: seq<string>, k: nat)
    requires forall t :: t in ts ==> t in m
    requires k < |ts|
    ensures multiset(Values(m, ts)) == multiset{m[ts[k]]} + multiset(Values(m, ts[..k] + ts[k + 1..]))
  {
    var rest := ts[..k] + ts[k + 1..];
    assert Values(m, ts) == Values(m, ts[..k]) + [m[ts[k]]] + Values(m, ts[k + 1..]);
    assert Values(m, rest) == Values(m, ts[..k]) + Values(m, ts[k + 1..]);
  }

  lemma GroupSnoc<M>(es: seq<Entry>, i: nat, r: Rules<M>)
    requires i < |es|
    ensures Group(es[..i + 1], r) == Step(Group(es[..i], r), es[i], r)
  {
    assert es[..i + 1][..i] == es[..i];
  }

  /** Removing the element at `k` from a duplicate-free sequence removes exactly that
      element, and leaves the sequence duplicate-free. */
  lemma NoDuplicatesRemove<T>(s: seq<T>, k: nat)
    requires NoDuplicates(s) && k < |s|
    ensures NoDuplicates(s[..k] + s[k + 1..])
    ensures forall x :: x in s[..k] + s[k + 1..] <==> x in s && x != s[k]
  {
    var rest := s[..k] + s[k + 1..];
    forall x | x in s && x != s[k] ensures x in rest {
      var j :| 0 <= j < |s| && s[j] == x;
      if j < k { assert rest[j] == x; } else { assert rest[j - 1] == x; }
    }
  }

  /** The loop of `entriesToMovies`: every record is visited once, in feed order, and the
      title-keyed map is updated in place, then the movies are read out of the map. The
      result holds each title's movie exactly once, in an unspecified order. */
  method EntriesToMovies<M>(es: seq<Entry>, r: Rules<M>) returns (ms: seq<M>)
    ensures multiset(ms) == multiset(Flatten(Group(es, r)))
  {
    var byTitle, titles := GroupByTitle(es, r);
    ms := MapValues(byTitle, titles);
  }

  /** The first loop: fills the title-keyed map. `titles` is the order in which titles
      were first seen, which the Go map does not keep. */
  method GroupByTitle<M>(es: seq<Entry>, r: Rules<M>) returns (byTitle: map<string, M>, ghost titles: seq<string>)
    ensures Grouping(byTitle, titles) == Group(es, r)
  {
    byTitle := map[];
    titles := [];
    for i := 0 to |es|
      invariant Grouping(byTitle, titles) == Group(es[..i], r)
    {
      var e := es[i];
      GroupSnoc(es, i, r);
      if r.located(e) {
        if e.title in byTitle {
          byTitle := byTitle[e.title := r.add(byTitle[e.title], e)];
        } else {
          byTitle := byTitle[e.title := r.add(r.start(e), e)];
          titles := titles + [e.title];
        }
      }
    }
    assert es[..|es|] == es;
  }

  /** The second loop: the values of the map, in the order in which Go's map iteration
      yields the keys, modelled as an arbitrary choice of the next key. */
  method MapValues<M>(byTitle: map<string, M>, ghost titles: seq<string>) returns (ms: seq<M>)
    requires WellFormed(Grouping(byTitle, titles))
    ensures multiset(ms) == multiset(Values(byTitle, titles))
  {
    ms := [];
    var keys := byTitle.Keys;
    ghost var rest := titles;
    assert ms + Values(byTitle, rest) == Values(byTitle, titles);
    while keys != {}
      invariant ReadOutInv(byTitle, titles, keys, rest, ms)
      decreases |rest|
    {
      var t :| t in keys;
      rest := ReadOutStep(byTitle, titles, keys, rest, ms, t);
      ms := ms + [byTitle[t]];
      keys := keys - {t};
    }
  }

  /** The state of the read-out loop: `rest` lists, without repetition, the keys not yet
      visited, and what is collected so far together with their values is a permutation of
      all the values. */
  ghost predicate ReadOutInv<M>(byTitle: map<string, M>, titles: seq<string>, keys: set<string>, rest: seq<string>, ms: seq<M>) {
    (forall t :: t in titles ==> t in byTitle) &&
    (forall t :: t in keys <==> t in rest) &&
    NoDuplicates(rest) &&
    (forall t :: t in rest ==> t in byTitle) &&
    multiset(ms) + multiset(Values(byTitle, rest)) == multiset(Values(byTitle, titles))
  }

  lemma ReadOutStep<M>(byTitle: map<string, M>, titles: seq<string>, keys: set<string>, rest: seq<string>, ms: seq<M>, t: string)
    returns (rest': seq<string>)
    requires ReadOutInv(byTitle, titles, keys, rest, ms) && t in keys
    ensures ReadOutInv(byTitle, titles, keys - {t}, rest', ms + [byTitle[t]])
    ensures |rest'| < |rest|
  {
    var k :| 0 <= k < |rest| && rest[k] == t;
    ValuesRemove(byTitle, rest, k);
    NoDuplicatesRemove(rest, k);
    rest' := rest[..k] + rest[k + 1..];
    assert multiset(ms + [byTitle[t]]) == multiset(ms) + multiset{byTitle[t]};
  }

  /** Adds every record of `ws` to `m`, in order. */
  function AddAll<M>(m: M, ws: seq<Entry>, r: Rules<M>): M {
    if ws == [] then m else r.add(AddAll(m, ws[..|ws| - 1], r), ws[|ws| - 1])
  }

  /** A record without a location, wherever it stands in the feed, leaves the grouping as
      it would be without that record. */
  lemma {:induction false} SkipUnlocated<M>(es1: seq<Entry>, e: Entry, es2: seq<Entry>, r: Rules<M>)
    requires !r.located(e)
    ensures Group(es1 + [e] + es2, r) == Group(es1 + es2, r)
  {
    if es2 == [] {
      var a := es1 + [e];
      assert a[..|a| - 1] == es1 && a[|a| - 1] == e;
      assert Group(a, r) == Step(Group(es1, r), e, r);
      assert es1 + [e] + es2 == a && es1 + es2 == es1;
    } else {
      var init := es2[..|es2| - 1];
      var x := es2[|es2| - 1];
      SkipUnlocated(es1, e, init, r);
      var a := es1 + [e] + es2;
      var b := es1 + es2;
      assert a[..|a| - 1] == es1 + [e] + init && a[|a| - 1] == x;
      assert b[..|b| - 1] == es1 + init && b[|b| - 1] == x;
      assert Group(a, r) == Step(Group(es1 + [e] + init, r), x, r);
      assert Group(b, r) == Step(Group(es1 + init, r), x, r);
    }
  }

  /** Each title's movie is the one built from its first located record, with every
      located record of that title added in feed order. Later records therefore contribute
      nothing but what `add` takes from them. */
  lemma {:induction false} GroupValue<M>(es: seq<Entry>, r: Rules<M>, t: string)
    requires t in Group(es, r).byTitle
    ensures WithTitle(es, r, t) != []
    ensures Group(es, r).byTitle[t] == AddAll(r.start(WithTitle(es, r, t)[0]), WithTitle(es, r, t), r)
  {
    assert es != [];
    var init := es[..|es| - 1];
    var e := es[|es| - 1];
    var g0 := Group(init, r);
    var g := Group(es, r);
    assert g == Step(g0, e, r);
    var w0 := WithTitle(init, r, t);
    var w := WithTitle(es, r, t);
    GroupKeys(init, r, t);
    if r.located(e) && e.title == t {
      assert w == w0 + [e];
      if t in g0.byTitle {
        GroupValue(init, r, t);
        assert g.byTitle[t] == r.add(g0.byTitle[t], e);
        assert w[..|w| - 1] == w0 && w[0] == w0[0];
      } else {
        assert w0 == [];
        assert g.byTitle[t] == r.add(r.start(e), e);
        assert w == [e] && w[..0] == [];
      }
    } else {
      assert w == w0;
      assert g.byTitle[t] == g0.byTitle[t];
      GroupValue(init, r, t);
    }
  }

  // ---------------------------------------------------------------------------
  // Counting
  // ---------------------------------------------------------------------------

  /** The raw titles of the located records. */
  ghost function LocatedTitles<M>(es: seq<Entry>, r: Rules<M>): set<string> {
    set e | e in es && r.located(e) :: e.title
  }

  lemma {:induction false} DistinctCardinality(s: seq<string>)
    requires NoDuplicates(s)
    ensures |set x | x in s| == |s|
  {
    if s != [] {
      var n := |s| - 1;
      DistinctCardinality(s[..n]);
      assert (set x | x in s) == (set x | x in s[..n]) + {s[n]};
      assert s[n] !in (set x | x in s[..n]);
    }
  }

  /** One movie per distinct raw title among the located records. */
  lemma CountMovies<M>(es: seq<Entry>, r: Rules<M>)
    ensures |Group(es, r).titles| == |LocatedTitles(es, r)|
  {
    var g := Group(es, r);
    assert (set x | x in g.titles) == LocatedTitles(es, r) by {
      forall t ensures t in g.titles <==> t in LocatedTitles(es, r) {
        GroupKeys(es, r, t);
        if t in g.titles {
          var w := WithTitle(es, r, t);
          assert w[0] in w;
          WithTitleIn(es, r, t, w[0]);
        } else if t in LocatedTitles(es, r) {
          var e :| e in es && r.located(e) && e.title == t;
          InWithTitle(es, r, e);
        }
      }
    }
    DistinctCardinality(g.titles);
  }

  /** `WithTitle` holds located records of `es` with title `t` only. */
  lemma {:induction false} WithTitleIn<M>(es: seq<Entry>, r: Rules<M>, t: string, e: Entry)
    requires e in WithTitle(es, r, t)
    ensures e in es && r.located(e) && e.title == t
  {
    var n := |es| - 1;
    if e != es[n] || !(r.located(es[n]) && es[n].title == t) {
      WithTitleIn(es[..n], r, t, e);
    }
  }

  lemma {:induction false} InWithTitle<M>(es: seq<Entry>, r: Rules<M>, e: Entry)
    requires e in es && r.located(e)
    ensures e in WithTitle(es, r, e.title)
  {
    var n := |es| - 1;
    if e != es[n] {
      assert e in es[..n];
      InWithTitle(es[..n], r, e);
    }
  }

  /** Sum of `size` over `ms`. */
  function SumSizes<M>(ms: seq<M>, size: M -> nat): nat {
    if ms == [] then 0 else size(ms[0]) + SumSizes(ms[1..], size)
  }

  lemma {:induction false} SumSizesConcat<M>(a: seq<M>, b: seq<M>, size: M -> nat)
    ensures SumSizes(a + b, size) == SumSizes(a, size) + SumSizes(b, size)
  {
    if a != [] {
      assert (a + b)[1..] == a[1..] + b;
      SumSizesConcat(a[1..], b, size);
    } else {
      assert a + b == b;
    }
  }

  /** A sum does not depend on the order of its terms. */
  lemma {:induction false} SumSizesPermutation<M>(a: seq<M>, b: seq<M>, size: M -> nat)
    requires multiset(a) == multiset(b)
    ensures SumSizes(a, size) == SumSizes(b, size)
    decreases |a|
  {
    if a != [] {
      assert a[0] in multiset(b);
      var k :| 0 <= k < |b| && b[k] == a[0];
      var b' := b[..k] + b[k + 1..];
      MultisetRemove(a, b, k);
      SumSizesPermutation(a[1..], b', size);
      SumSizesRemove(b, k, size);
    }
  }

  lemma MultisetRemove<M>(a: seq<M>, b: seq<M>, k: nat)
    requires multiset(a) == multiset(b) && a != [] && k < |b| && b[k] == a[0]
    ensures multiset(a[1..]) == multiset(b[..k] + b[k + 1..])
  {
    assert a == [a[0]] + a[1..];
    assert b == b[..k] + [b[k]] + b[k + 1..];
    assert multiset(a[1..]) == multiset(a) - multiset{a[0]};
    assert multiset(b[..k] + b[k + 1..]) == multiset(b) - multiset{b[k]};
  }

  lemma SumSizesRemove<M>(b: seq<M>, k: nat, size: M -> nat)
    requires k < |b|
    ensures SumSizes(b, size) == size(b[k]) + SumSizes(b[..k] + b[k + 1..], size)
  {
    var pre, post := b[..k], b[k + 1..];
    var tail := [b[k]] + post;
    assert b == pre + tail;
    assert tail[0] == b[k] && tail[1..] == post;
    assert SumSizes(tail, size) == size(b[k]) + SumSizes(post, size);
    SumSizesConcat(pre, tail, size);
    SumSizesConcat(pre, post, size);
  }

  /** Total number of records grouped under the titles `ts`. */
  function Sizes<M>(ts: seq<string>, es: seq<Entry>, r: Rules<M>): nat {
    if ts == [] then 0 else |WithTitle(es, r, ts[0])| + Sizes(ts[1..], es, r)
  }

  lemma {:induction false} SizesSnocEntry<M>(ts: seq<string>, es: seq<Entry>, e: Entry, r: Rules<M>)
    requires NoDuplicates(ts)
    ensures Sizes(ts, es + [e], r) == Sizes(ts, es, r) + (if r.located(e) && e.title in ts then 1 else 0)
  {
    var es' := es + [e];
    assert es'[..|es|] == es;
    if ts != [] {
      assert NoDuplicates(ts[1..]);
      SizesSnocEntry(ts[1..], es, e, r);
      assert e.title in ts <==> e.title == ts[0] || e.title in ts[1..];
      assert e.title == ts[0] ==> e.title !in ts[1..];
    }
  }

  lemma {:induction false} SizesSnocTitle<M>(ts: seq<string>, t: string, es: seq<Entry>, r: Rules<M>)
    ensures Sizes(ts + [t], es, r) == Sizes(ts, es, r) + |WithTitle(es, r, t)|
  {
    if ts != [] {
      assert (ts + [t])[1..] == ts[1..] + [t];
      SizesSnocTitle(ts[1..], t, es, r);
    }
  }

  /** Every located record is grouped under exactly one title: the groups together hold
      as many records as there are located records. */
  lemma {:induction false} SizesOfGroup<M>(es: seq<Entry>, r: Rules<M>)
    ensures Sizes(Group(es, r).titles, es, r) == |Located(es, r)|
  {
    if es != [] {
      var init := es[..|es| - 1];
      var e := es[|es| - 1];
      assert es == init + [e];
      var g0 := Group(init, r);
      SizesOfGroup(init, r);
      SizesSnocEntry(g0.titles, init, e, r);
      if r.located(e) && e.title !in g0.titles {
        GroupKeys(init, r, e.title);
        SizesSnocTitle(g0.titles, e.title, es, r);
        assert WithTitle(init, r, e.title) == [];
        assert WithTitle(es, r, e.title) == [e];
      }
    }
  }

  /** Adding every record of `ws` grows a movie by `|ws|` when each `add` grows it by one. */
  lemma {:induction false} AddAllSize<M>(m: M, ws: seq<Entry>, r: Rules<M>, size: M -> nat)
    requires forall m', e :: size(r.add(m', e)) == size(m') + 1
    ensures size(AddAll(m, ws, r)) == size(m) + |ws|
  {
    if ws != [] {
      AddAllSize(m, ws[..|ws| - 1], r, size);
    }
  }

  lemma {:induction false} SumSizesOfValues<M>(ts: seq<string>, es: seq<Entry>, r: Rules<M>, size: M -> nat)
    requires forall e :: size(r.start(e)) == 0
    requires forall m', e :: size(r.add(m', e)) == size(m') + 1
    requires forall t :: t in ts ==> t in Group(es, r).byTitle
    ensures SumSizes(Values(Group(es, r).byTitle, ts), size) == Sizes(ts, es, r)
  {
    if ts != [] {
      var g := Group(es, r);
      assert Values(g.byTitle, ts)[1..] == Values(g.byTitle, ts[1..]);
      SumSizesOfValues(ts[1..], es, r, size);
      GroupValue(es, r, ts[0]);
      var w := WithTitle(es, r, ts[0]);
      AddAllSize(r.start(w[0]), w, r, size);
    }
  }

  /** When a movie's size is its number of locations (a new movie has none, each record
      adds one), every movie of the grouping has at least one location, and the movies
      together hold exactly one location per located record. */
  lemma TotalSize<M>(es: seq<Entry>, r: Rules<M>, size: M -> nat)
    requires forall e :: size(r.start(e)) == 0
    requires forall m', e :: size(r.add(m', e)) == size(m') + 1
    ensures forall m :: m in Flatten(Group(es, r)) ==> size(m) >= 1
    ensures SumSizes(Flatten(Group(es, r)), size) == |Located(es, r)|
  {
    var g := Group(es, r);
    forall m | m in Flatten(g) ensures size(m) >= 1 {
      var i :| 0 <= i < |g.titles| && Flatten(g)[i] == m;
      GroupValue(es, r, g.titles[i]);
      var w := WithTitle(es, r, g.titles[i]);
      AddAllSize(r.start(w[0]), w, r, size);
    }
    SumSizesOfValues(g.titles, es, r, size);
    SizesOfGroup(es, r);
  }

  lemma AppendAssoc<T>(a: seq<T>, b: seq<T>, c: seq<T>)
    ensures a + b + c == a + (b + c)
  {
  }

  lemma AppendEmpty<T>(s: seq<T>)
    ensures [] + s == s
  {
  }
}
