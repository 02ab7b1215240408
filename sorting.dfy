/**
  `sort.Sort` with a comparator that compares one string key by Go's `<` (every `ByTitle`
  of the code base is such a comparator). The library's algorithm is not modelled: a
  reference insertion sort stands for it, with the two properties the callers rely on,
  that the result is a permutation of the input and that keys never decrease along it.
  Go's sort is not stable, so the order among equal keys is unspecified in the source.
*/
module Sorting {
  import GoStrings

  /** Keys never decrease along `ms`. */
  ghost predicate SortedBy<T>(ms: seq<T>, key: T -> string) {
    forall i, j :: 0 <= i < j < |ms| ==> !GoStrings.Less(key(ms[j]), key(ms[i]))
  }

  /** No key in `ms` is smaller than `t`. */
  ghost predicate AtLeast<T>(ms: seq<T>, key: T -> string, t: string) {
    forall i :: 0 <= i < |ms| ==> !GoStrings.Less(key(ms[i]), t)
  }

  lemma SortedCons<T>(p: T, ms: seq<T>, key: T -> string)
    requires SortedBy(ms, key) && AtLeast(ms, key, key(p))
    ensures SortedBy([p] + ms, key)
  {
    var r := [p] + ms;
    forall i, j | 0 <= i < j < |r|
      ensures !GoStrings.Less(key(r[j]), key(r[i]))
    {
      if i > 0 {
        assert r[i] == ms[i - 1] && r[j] == ms[j - 1];
      } else {
        assert r[j] == ms[j - 1];
      }
    }
  }

  /** Inserts `p` before the first element whose key is not smaller. */
  function InsertBy<T>(p: T, ms: seq<T>, key: T -> string): (r: seq<T>)
    requires SortedBy(ms, key)
    ensures multiset(r) == multiset(ms) + multiset{p}
    ensures forall i :: 0 <= i < |r| ==> r[i] == p || r[i] in ms
    ensures SortedBy(r, key)
  {
    if ms == [] then [p]
    else if !GoStrings.Less(key(ms[0]), key(p)) then
      assert AtLeast(ms, key, key(p)) by {
        forall i | 0 < i < |ms| ensures !GoStrings.Less(key(ms[i]), key(p)) {
          GoStrings.NotLessTransitive(key(p), key(ms[0]), key(ms[i]));
        }
      }
      SortedCons(p, ms, key);
      [p] + ms
    else
      var rest := InsertBy(p, ms[1..], key);
      assert AtLeast(rest, key, key(ms[0])) by {
        forall i | 0 <= i < |rest| ensures !GoStrings.Less(key(rest[i]), key(ms[0])) {
          if rest[i] == p {
            GoStrings.LessAsymmetric(key(ms[0]), key(p));
          } else {
            var k :| 0 <= k < |ms[1..]| && ms[1..][k] == rest[i];
            assert ms[k + 1] == rest[i];
          }
        }
      }
      SortedCons(ms[0], rest, key);
      assert ms == [ms[0]] + ms[1..];
      [ms[0]] + rest
  }

  /** The result of `sort.Sort` on `ms`: the same elements, keys non-decreasing. */
  function SortBy<T>(ms: seq<T>, key: T -> string): (r: seq<T>)
    ensures multiset(r) == multiset(ms)
    ensures SortedBy(r, key)
  {
    if ms == [] then []
    else
      assert ms == ms[..|ms| - 1] + [ms[|ms| - 1]];
      InsertBy(ms[|ms| - 1], SortBy(ms[..|ms| - 1], key), key)
  }
}
