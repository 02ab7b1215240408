/**
  The helper functions the page templates call (src/tpl/tpl.go): `join` lists actor
  names in English ("A", "A and B", "A, B, and C"), `parenthesize` wraps a string in
  parentheses, and `field` shows a movie's field, or an italic "N/A" when the feed left
  it empty. `template.HTMLEscapeString` is a parameter of `field`.
*/
module Templates {
  import GoStrings
  import Feed

  // ---------------------------------------------------------------------------
  // join
  // ---------------------------------------------------------------------------

  /** The `join` helper. */
  function Join(ss: seq<string>): (r: string)
    ensures ss == [] ==> r == ""
    ensures |ss| == 1 ==> r == ss[0]
  {
    match |ss|
    case 0 => ""
    case 1 => ss[0]
    case 2 => ss[0] + " and " + ss[1]
    case _ => GoStrings.Join(ss[..|ss| - 1], ", ") + ", and " + ss[|ss| - 1]
  }

  /** `n` copies of `s`. */
  function Repeat(s: string, n: nat): (r: seq<string>)
    ensures |r| == n && forall i :: 0 <= i < n ==> r[i] == s
  {
    if n == 0 then [] else [s] + Repeat(s, n - 1)
  }

  /** What goes between neighbouring items of an English list of `n` items: " and "
      between two, otherwise ", " and, before the last, ", and ". */
  function Separators(n: nat): (r: seq<string>)
    requires n >= 1
    ensures |r| == n - 1
  {
    if n <= 1 then []
    else if n == 2 then [" and "]
    else Repeat(", ", n - 2) + [", and "]
  }

  /** The items in order with `seps[i]` between `items[i]` and `items[i + 1]`. */
  function Interleave(items: seq<string>, seps: seq<string>): string
    requires items != [] && |seps| == |items| - 1
  {
    if |items| == 1 then items[0]
    else items[0] + seps[0] + Interleave(items[1..], seps[1..])
  }

  lemma {:induction false} InterleaveSnoc(items: seq<string>, seps: seq<string>, x: string, sep: string)
    requires items != [] && |seps| == |items| - 1
    ensures Interleave(items + [x], seps + [sep]) == Interleave(items, seps) + sep + x
  {
    if |items| == 1 {
      assert (items + [x])[1..] == [x];
      assert (seps + [sep])[1..] == [];
    } else {
      assert (items + [x])[1..] == items[1..] + [x];
      assert (seps + [sep])[1..] == seps[1..] + [sep];
      InterleaveSnoc(items[1..], seps[1..], x, sep);
    }
  }

  /** `strings.Join` puts the one separator between all neighbours. */
  lemma {:induction false} JoinInterleaves(ss: seq<string>, sep: string)
    requires ss != []
    ensures GoStrings.Join(ss, sep) == Interleave(ss, Repeat(sep, |ss| - 1))
  {
    if |ss| > 1 {
      JoinInterleaves(ss[1..], sep);
      assert Repeat(sep, |ss| - 1)[1..] == Repeat(sep, |ss| - 2);
    }
  }

  /** `join` lists the items in order, separated as English lists are, with the serial
      comma before "and" from three items on. */
  lemma JoinIsEnglishList(ss: seq<string>)
    requires ss != []
    ensures Join(ss) == Interleave(ss, Separators(|ss|))
  {
    var n := |ss|;
    if n == 2 {
      assert ss[1..] == [ss[1]];
    } else if n >= 3 {
      EnglishListLong(ss);
    }
  }

  lemma EnglishListLong(ss: seq<string>)
    requires |ss| >= 3
    ensures Join(ss) == Interleave(ss, Separators(|ss|))
  {
    var init, last := ss[..|ss| - 1], ss[|ss| - 1];
    InitLast(ss);
    var reps := Repeat(", ", |init| - 1);
    assert Separators(|ss|) == reps + [", and "];
    JoinInterleaves(init, ", ");
    InterleaveSnoc(init, reps, last, ", and ");
  }

  lemma InitLast<T>(s: seq<T>)
    requires s != []
    ensures s == s[..|s| - 1] + [s[|s| - 1]]
  {
  }

  /** `join`'s length: the items' lengths and those of the separators. */
  lemma JoinLength(ss: seq<string>)
    ensures |Join(ss)| == GoStrings.TotalLength(ss) +
      (if |ss| <= 1 then 0 else if |ss| == 2 then 5 else 2 * (|ss| - 2) + 6)
  {
    var n := |ss|;
    if n == 2 {
      assert ss[1..][1..] == [];
    } else if n >= 3 {
      TotalLengthSnoc(ss[..n - 1], ss[n - 1]);
      InitLast(ss);
    }
  }

  lemma {:induction false} TotalLengthSnoc(ss: seq<string>, x: string)
    ensures GoStrings.TotalLength(ss + [x]) == GoStrings.TotalLength(ss) + |x|
  {
    if ss != [] {
      assert (ss + [x])[1..] == ss[1..] + [x];
      TotalLengthSnoc(ss[1..], x);
    }
  }

  // ---------------------------------------------------------------------------
  // parenthesize
  // ---------------------------------------------------------------------------

  /** The `parenthesize` helper: the string comes back out from between the parentheses. */
  function Parenthesize(s: string): (r: string)
    ensures |r| == |s| + 2 && r[0] == '(' && r[|r| - 1] == ')' && r[1..|r| - 1] == s
  {
    "(" + s + ")"
  }

  // ---------------------------------------------------------------------------
  // field
  // ---------------------------------------------------------------------------

  /** What an undefined field shows. */
  const NotAvailable := "<i>N/A</i>"

  /** The `field` helper; `escape` is `template.HTMLEscapeString`. */
  function Field(field: string, escape: string -> string): (r: string)
  {
    if field == "" || field == "N/A" then NotAvailable else escape(field)
  }

  /** A field shows "N/A" in italics exactly for the values the feed treats as missing,
      and the escaped text for every other value. */
  lemma FieldShowsDefined(field: string, escape: string -> string)
    ensures !Feed.Defined(field) ==> Field(field, escape) == NotAvailable
    ensures Feed.Defined(field) ==> Field(field, escape) == escape(field)
  {
    Feed.DefinedIff(field);
  }
}
