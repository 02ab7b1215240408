/**
  The title clean-up of `FetchMovieInfo` (src/data/fetch/movie_info.go): before asking
  OMDb for a movie, the code deletes every match of the regular expression
  `(?i)\s*(-|,|season).*` from the title, so that "Ant-Man" or "Looking, Season 2"
  are looked up as "Ant" and "Looking". The request itself is not part of this model.

  Reading of the expression under RE2's rules: `\s` is one of tab, newline, form feed,
  carriage return and space; `.` is any character but a newline; `(?i)` makes "season"
  match in any letter case (ASCII case only here); matches are found leftmost first,
  `.*` takes as much as it can, and `ReplaceAllString` resumes the search where the
  previous match ended.
*/
module MovieInfo {

  // ---------------------------------------------------------------------------
  // The pieces of the expression
  // ---------------------------------------------------------------------------

  /** RE2's `\s`. */
  predicate IsRegexSpace(c: char) {
    c == '\t' || c == '\n' || c == '\U{C}' || c == '\r' || c == ' '
  }

  /** ASCII lower case, as `(?i)` compares letters. */
  function Lower(c: char): char {
    if 'A' <= c <= 'Z' then (c as int + 32) as char else c
  }

  /** "season", in any letter case, starts at `q`. */
  predicate SeasonAt(s: string, q: int) {
    0 <= q && q + 6 <= |s| && forall k :: 0 <= k < 6 ==> Lower(s[q + k]) == "season"[k]
  }

  /** One of the three alternatives `-`, `,` and `season` starts at `q`. */
  predicate DelimiterAt(s: string, q: int) {
    0 <= q < |s| && (s[q] == '-' || s[q] == ',' || SeasonAt(s, q))
  }

  /** The length of the alternative that matches at `q`. */
  function DelimiterLength(s: string, q: int): (n: nat)
    requires DelimiterAt(s, q)
    ensures 1 <= n && q + n <= |s|
  {
    if s[q] == '-' || s[q] == ',' then 1 else 6
  }

  /** The regular expression matches `s[p..e]`, its `\s*` covering `s[p..q]` and its
      alternative starting at `q`. */
  predicate Match(s: string, p: int, q: int, e: int) {
    0 <= p <= q && DelimiterAt(s, q) && q + DelimiterLength(s, q) <= e <= |s| &&
    (forall k :: p <= k < q ==> IsRegexSpace(s[k])) &&
    (forall k :: q + DelimiterLength(s, q) <= k < e ==> s[k] != '\n')
  }

  // ---------------------------------------------------------------------------
  // Finding the leftmost match
  // ---------------------------------------------------------------------------

  /** The first position from `from` on where an alternative starts, `|s|` if none. */
  function FindDelimiter(s: string, from: nat): (d: nat)
    requires from <= |s|
    ensures from <= d <= |s| && (d < |s| ==> DelimiterAt(s, d))
    ensures forall q :: from <= q < d ==> !DelimiterAt(s, q)
    decreases |s| - from
  {
    if from == |s| || DelimiterAt(s, from) then from else FindDelimiter(s, from + 1)
  }

  /** Where the run of `\s` that ends at `d` starts. */
  function RunStart(s: string, d: nat): (p: nat)
    requires d <= |s|
    ensures p <= d && forall k :: p <= k < d ==> IsRegexSpace(s[k])
    ensures p == 0 || !IsRegexSpace(s[p - 1])
  {
    if d > 0 && IsRegexSpace(s[d - 1]) then RunStart(s, d - 1) else d
  }

  /** The end of the line that `q` is on: the first newline from `q` on, or `|s|`. */
  function LineEnd(s: string, q: nat): (e: nat)
    requires q <= |s|
    ensures q <= e <= |s| && (e == |s| || s[e] == '\n')
    ensures forall k :: q <= k < e ==> s[k] != '\n'
    decreases |s| - q
  {
    if q == |s| || s[q] == '\n' then q else LineEnd(s, q + 1)
  }

  /** The leftmost match of the expression is the one the code deletes first: it starts
      where the white space before the first alternative starts and runs to the end of
      that line; a match starts nowhere earlier, and none from that start reaches
      further. Without an alternative, nothing matches. */
  lemma LeftmostMatch(s: string)
    ensures var d := FindDelimiter(s, 0);
      d == |s| ==> forall p, q, e :: !Match(s, p, q, e)
    ensures var d := FindDelimiter(s, 0);
      d < |s| ==>
        var p0, e0 := RunStart(s, d), LineEnd(s, d + DelimiterLength(s, d));
        Match(s, p0, d, e0) &&
        (forall p, q, e :: Match(s, p, q, e) ==> p0 <= p) &&
        (forall q, e :: Match(s, p0, q, e) ==> q == d && e <= e0)
  {
    var d := FindDelimiter(s, 0);
    forall p, q, e | Match(s, p, q, e) ensures d <= q {
    }
    if d < |s| {
      var p0, e0 := RunStart(s, d), LineEnd(s, d + DelimiterLength(s, d));
      if p0 > 0 {
        assert !IsRegexSpace(s[p0 - 1]);
      }
      DelimiterNotSpace(s, d);
      if e0 < |s| {
        assert s[e0] == '\n';
      }
    }
  }

  /** No alternative starts with white space. */
  lemma DelimiterNotSpace(s: string, q: int)
    requires DelimiterAt(s, q)
    ensures !IsRegexSpace(s[q])
  {
    if SeasonAt(s, q) {
      assert Lower(s[q + 0]) == "season"[0];
    }
  }

  /** "season" holds no newline. */
  lemma SeasonNoNewline(s: string, q: int)
    requires SeasonAt(s, q)
    ensures forall k :: q <= k < q + 6 ==> s[k] != '\n'
  {
    forall k | q <= k < q + 6 ensures s[k] != '\n' {
      assert Lower(s[q + (k - q)]) == "season"[k - q];
    }
  }

  // ---------------------------------------------------------------------------
  // ReplaceAllString(title, "")
  // ---------------------------------------------------------------------------

  /** `regex.ReplaceAllString(title, "")`: keep the text before the leftmost match, drop
      the match and go on after it. */
  function Sanitize(title: string): (r: string)
    ensures |r| <= |title|
    decreases |title|
  {
    var d := FindDelimiter(title, 0);
    if d == |title| then title
    else
      var e := LineEnd(title, d + DelimiterLength(title, d));
      title[..RunStart(title, d)] + Sanitize(title[e..])
  }

  /** A title is left as it is exactly when it has no `-`, no `,` and no "season" in any
      letter case; otherwise it gets strictly shorter. */
  lemma SanitizeUnchanged(title: string)
    ensures Sanitize(title) == title <==> forall q :: !DelimiterAt(title, q)
    ensures (exists q :: DelimiterAt(title, q)) ==> |Sanitize(title)| < |title|
  {
    var d := FindDelimiter(title, 0);
    if d < |title| {
      var e := LineEnd(title, d + DelimiterLength(title, d));
      assert |Sanitize(title[e..])| <= |title| - e;
    }
  }

  /** On a title of one line the result is the title cut where the white space before
      the first `-`, `,` or "season" starts. */
  lemma SanitizeSingleLine(title: string)
    requires '\n' !in title
    ensures var d := FindDelimiter(title, 0);
      Sanitize(title) == if d == |title| then title else title[..RunStart(title, d)]
  {
    var d := FindDelimiter(title, 0);
    if d < |title| {
      var e := LineEnd(title, d + DelimiterLength(title, d));
      OneLine(title, d + DelimiterLength(title, d));
      assert title[e..] == [];
    }
  }

  /** On a string without newline, the line runs to the end. */
  lemma {:induction false} OneLine(s: string, q: nat)
    requires q <= |s| && '\n' !in s
    ensures LineEnd(s, q) == |s|
    decreases |s| - q
  {
    if q < |s| {
      assert s[q] in s;
      OneLine(s, q + 1);
    }
  }

  /** On a title of one line the result is a prefix of the title, and the cut is at the
      start of the run of `\s` just before the leftmost delimiter. */
  lemma SanitizeCut(title: string)
    requires '\n' !in title
    ensures var r := Sanitize(title);
      r == title[..|r|] &&
      (r == title ||
        exists d :: |r| <= d < |title| && DelimiterAt(title, d) &&
          (forall q :: 0 <= q < d ==> !DelimiterAt(title, q)) &&
          (forall k :: |r| <= k < d ==> IsRegexSpace(title[k])) &&
          (|r| == 0 || !IsRegexSpace(title[|r| - 1])))
  {
    SanitizeSingleLine(title);
    var d := FindDelimiter(title, 0);
    if d < |title| {
      assert |Sanitize(title)| == RunStart(title, d);
    }
  }

  /** What is left of the title holds no `-`, no `,` and no "season" in any letter
      case: every line lost its delimiters and what follows them. */
  lemma {:induction false} SanitizeNoDelimiter(title: string)
    ensures forall q :: !DelimiterAt(Sanitize(title), q)
    decreases |title|
  {
    var d := FindDelimiter(title, 0);
    if d < |title| {
      var e := LineEnd(title, d + DelimiterLength(title, d));
      var p := RunStart(title, d);
      var rest := Sanitize(title[e..]);
      SanitizeNoDelimiter(title[e..]);
      SanitizeStartsLine(title[e..]);
      forall q | 0 <= q < p ensures !DelimiterAt(title[..p], q) {
        DelimiterOfPrefix(title, p, q);
      }
      NoDelimiterAcross(title[..p], rest);
    }
  }

  /** A delimiter found in a prefix is one of the whole string. */
  lemma DelimiterOfPrefix(s: string, n: nat, q: int)
    requires n <= |s|
    ensures DelimiterAt(s[..n], q) ==> DelimiterAt(s, q)
  {
    if DelimiterAt(s[..n], q) {
      assert s[..n][q] == s[q];
      if SeasonAt(s[..n], q) {
        forall k | 0 <= k < 6 ensures Lower(s[q + k]) == "season"[k] {
          assert s[..n][q + k] == s[q + k];
        }
      }
    }
  }

  /** A delimiter of `a + b` inside `a` is one of `a` when `b` starts a new line. */
  lemma DelimiterOfLeft(a: string, b: string, q: int)
    requires 0 <= q < |a| && (b == [] || b[0] == '\n')
    ensures DelimiterAt(a + b, q) ==> DelimiterAt(a, q)
  {
    var s := a + b;
    assert s[q] == a[q];
    if SeasonAt(s, q) {
      SeasonNoNewline(s, q);
      if b != [] {
        assert s[|a|] == '\n';
      }
      forall k | 0 <= k < 6 ensures Lower(a[q + k]) == "season"[k] {
        assert a[q + k] == s[q + k];
      }
    }
  }

  /** A delimiter of `a + b` past `a` is one of `b`. */
  lemma DelimiterOfRight(a: string, b: string, j: int)
    requires 0 <= j < |b|
    ensures DelimiterAt(a + b, |a| + j) ==> DelimiterAt(b, j)
  {
    var s := a + b;
    assert s[|a| + j] == b[j];
    if SeasonAt(s, |a| + j) {
      forall k | 0 <= k < 6 ensures Lower(b[j + k]) == "season"[k] {
        assert b[j + k] == s[|a| + j + k];
      }
    }
  }

  /** Two strings without a delimiter, the second empty or starting a new line, have none
      together. */
  lemma NoDelimiterAcross(a: string, b: string)
    requires forall q :: !DelimiterAt(b, q)
    requires b == [] || b[0] == '\n'
    requires forall q :: 0 <= q < |a| ==> !DelimiterAt(a, q)
    ensures forall q :: !DelimiterAt(a + b, q)
  {
    forall q ensures !DelimiterAt(a + b, q) {
      if 0 <= q < |a| {
        DelimiterOfLeft(a, b, q);
      } else if |a| <= q < |a| + |b| {
        DelimiterOfRight(a, b, q - |a|);
      }
    }
  }

  /** What the code keeps of the text after a match starts a new line, if anything. */
  lemma {:induction false} SanitizeStartsLine(s: string)
    requires s == [] || s[0] == '\n'
    ensures var r := Sanitize(s); r == [] || r[0] == '\n'
    decreases |s|
  {
    var d := FindDelimiter(s, 0);
    if d < |s| {
      var e := LineEnd(s, d + DelimiterLength(s, d));
      var p := RunStart(s, d);
      if p == 0 {
        SanitizeStartsLine(s[e..]);
        assert Sanitize(s) == s[..0] + Sanitize(s[e..]);
      } else {
        assert Sanitize(s)[0] == s[..p][0] == s[0];
      }
    }
  }

  /** Cleaning a clean title changes nothing. */
  lemma SanitizeIdempotent(title: string)
    ensures Sanitize(Sanitize(title)) == Sanitize(title)
  {
    SanitizeNoDelimiter(title);
    SanitizeUnchanged(Sanitize(title));
  }
}
