/**
  One record of the San Francisco film-locations feed, already decoded from JSON. The three
  generations of the feed reader (src/data/fetch/movie.go, src/data/fetch/fetch.go and
  data/load.go) declare the same struct; it is declared once here.
*/
module Feed {

  datatype Entry = Entry(
    actor1: string,
    actor2: string,
    actor3: string,
    director: string,
    locations: string,
    funFacts: string,
    productionCompany: string,
    releaseYear: string,
    title: string,
    writer: string
  )

  /** The feed's marker for a missing value. */
  const NA := "N/A"

  /** `s == "N/A"`, spelt out character by character. */
  predicate IsNA(s: string) {
    |s| == 3 && s[0] == 'N' && s[1] == '/' && s[2] == 'A'
  }

  lemma IsNAIff(s: string)
    ensures IsNA(s) <==> s == NA
  {
    if IsNA(s) {
      assert s == [s[0], s[1], s[2]];
    }
  }

  /** `defined` of the two older readers: a value is missing when it is empty or exactly
      the sentinel "N/A"; nothing is trimmed. */
  predicate Defined(s: string) {
    |s| != 0 && !IsNA(s)
  }

  lemma DefinedIff(s: string)
    ensures Defined(s) <==> s != "" && s != NA
  {
    IsNAIff(s);
  }

  /** The three actor slots, in slot order. */
  function ActorSlots(e: Entry): seq<string> {
    [e.actor1, e.actor2, e.actor3]
  }

  /** The elements of `ss` that `keep` accepts, in order. */
  function KeepIf(ss: seq<string>, keep: string -> bool): seq<string> {
    if ss == [] then []
    else (if keep(ss[0]) then [ss[0]] else []) + KeepIf(ss[1..], keep)
  }

  /** `KeepIf` keeps exactly the accepted elements, and never more of them than there are. */
  lemma {:induction false} KeepIfMembers(ss: seq<string>, keep: string -> bool)
    ensures |KeepIf(ss, keep)| <= |ss|
    ensures forall x :: x in KeepIf(ss, keep) <==> x in ss && keep(x)
  {
    if ss != [] {
      KeepIfMembers(ss[1..], keep);
      assert ss == [ss[0]] + ss[1..];
    }
  }

  lemma KeepIfThree(a: string, b: string, c: string, keep: string -> bool)
    ensures KeepIf([a, b, c], keep) ==
      (if keep(a) then [a] else []) + (if keep(b) then [b] else []) + (if keep(c) then [c] else [])
  {
    assert [a, b, c][1..] == [b, c] && [b, c][1..] == [c] && [c][1..] == [];
    assert KeepIf([c], keep) == (if keep(c) then [c] else []) + KeepIf([], keep);
    assert KeepIf([b, c], keep) == (if keep(b) then [b] else []) + KeepIf([c], keep);
    assert KeepIf([a, b, c], keep) == (if keep(a) then [a] else []) + KeepIf([b, c], keep);
  }
}
