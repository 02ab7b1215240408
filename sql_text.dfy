/**
  The SQL text the bulk writers build by hand: string values quoted with `'` after
  `escapeSingleQuotes`, integers with `%d`, NULL for an auto-increment id, a tuple as the
  comma-separated values in parentheses after a leading separator, and a multi-row INSERT
  as its head followed by the tuples joined by a separator. `ReadLiteral` is how MySQL
  reads such a literal back.
*/
module SqlText {
  import opened Wrappers
  import GoStrings
  import opened Database

  /** `escapeSingleQuotes(s)`: every `'` becomes `\'`; every other character, a backslash
      included, is copied. */
  function EscapeSingleQuotes(s: string): (r: string)
    ensures |r| == |s| + Count(s, '\'')
  {
    if s == [] then []
    else (if s[0] == '\'' then "\\'" else [s[0]]) + EscapeSingleQuotes(s[1..])
  }

  /** The number of occurrences of `c` in `s`. */
  function Count(s: string, c: char): nat {
    if s == [] then 0 else (if s[0] == c then 1 else 0) + Count(s[1..], c)
  }

  /** A text without a backslash: the only kind `escapeSingleQuotes` protects. */
  predicate Plain(s: string) {
    '\\' !in s
  }

  /** The character sequence MySQL reads for the escape `\c` in a string literal (default
      SQL mode): `\0`, `\b`, `\n`, `\r`, `\t` and `\Z` name control characters, `\%` and
      `\_` keep their backslash, and any other escaped character stands for itself. */
  function EscapedChar(c: char): string {
    if c == '0' then "\0"
    else if c == 'b' then "\U{0008}"
    else if c == 'n' then "\n"
    else if c == 'r' then "\r"
    else if c == 't' then "\t"
    else if c == 'Z' then "\U{001A}"
    else if c == '%' || c == '_' then ['\\', c]
    else [c]
  }

  /** How MySQL reads the text after the opening `'` of a string literal: escapes as
      `EscapedChar` says, `''` as one quote, and a lone `'` closes the literal. The result
      is the value read and the text after the closing quote, or `None` when the literal
      never closes. */
  function ReadLiteral(t: string): Option<(string, string)>
    decreases |t|
  {
    if t == [] then None
    else if t[0] == '\\' then
      if |t| < 2 then None
      else match ReadLiteral(t[2..])
        case None => None
        case Some(p) => Some((EscapedChar(t[1]) + p.0, p.1))
    else if t[0] == '\'' then
      if |t| >= 2 && t[1] == '\'' then
        match ReadLiteral(t[2..])
        case None => None
        case Some(p) => Some(("'" + p.0, p.1))
      else Some(([], t[1..]))
    else match ReadLiteral(t[1..])
      case None => None
      case Some(p) => Some(([t[0]] + p.0, p.1))
  }

  /** For a text without a backslash, the literal the code writes, `'` + escaped text +
      `'`, closes at the code's own closing quote (no quote of the text ends it) and reads
      back as the text itself. (What follows the closing quote in the code's statements is
      `, ` or `)`, never another quote.) */
  lemma ReadEscaped(s: string, rest: string)
    requires Plain(s) && (rest == [] || rest[0] != '\'')
    ensures ReadLiteral(EscapeSingleQuotes(s) + "'" + rest) == Some((s, rest))
  {
    ReadClose(rest);
    ReadEscapedPrefix(s, "'" + rest);
    assert EscapeSingleQuotes(s) + "'" + rest == EscapeSingleQuotes(s) + ("'" + rest);
    assert s + [] == s;
  }

  /** A text without a backslash, escaped, is read as itself, and the reading then goes
      on into whatever follows. */
  lemma {:induction false} ReadEscapedPrefix(s: string, t: string)
    requires Plain(s) && ReadLiteral(t).Some?
    ensures ReadLiteral(EscapeSingleQuotes(s) + t) == Some((s + ReadLiteral(t).value.0, ReadLiteral(t).value.1))
  {
    var v := ReadLiteral(t).value.0;
    if s == [] {
      assert EscapeSingleQuotes(s) + t == t;
      assert s + v == v;
    } else {
      var c, tail := s[0], EscapeSingleQuotes(s[1..]) + t;
      PlainTail(s);
      ReadEscapedPrefix(s[1..], t);
      EscapeCons(s, t);
      if c == '\'' {
        ReadEscapeChar(c, tail);
      } else {
        ReadPlainChar(c, tail);
      }
      assert [c] + (s[1..] + v) == s + v;
    }
  }

  lemma PlainTail(s: string)
    requires Plain(s) && s != []
    ensures Plain(s[1..]) && s[0] != '\\'
  {
    assert forall i :: 0 <= i < |s[1..]| ==> s[1..][i] == s[i + 1];
  }

  /** The first character of an escaped text, then the rest. */
  lemma EscapeCons(s: string, t: string)
    requires s != []
    ensures EscapeSingleQuotes(s) + t ==
      (if s[0] == '\'' then ['\\', '\''] else [s[0]]) + (EscapeSingleQuotes(s[1..]) + t)
  {
  }

  /** A character other than `\` and `'` is read as itself. */
  lemma ReadPlainChar(c: char, t: string)
    requires c != '\\' && c != '\'' && ReadLiteral(t).Some?
    ensures ReadLiteral([c] + t) == Some(([c] + ReadLiteral(t).value.0, ReadLiteral(t).value.1))
  {
    assert ([c] + t)[1..] == t;
  }

  /** An escape is read as the characters `EscapedChar` gives. */
  lemma ReadEscapeChar(c: char, t: string)
    requires ReadLiteral(t).Some?
    ensures ReadLiteral(['\\', c] + t) == Some((EscapedChar(c) + ReadLiteral(t).value.0, ReadLiteral(t).value.1))
  {
    assert (['\\', c] + t)[2..] == t;
  }

  /** A quote not followed by another closes the literal. */
  lemma ReadClose(t: string)
    requires t == [] || t[0] != '\''
    ensures ReadLiteral("'" + t) == Some(([], t))
  {
    assert ("'" + t)[1..] == t;
  }

  /** As written, a backslash in a value is sent unescaped and MySQL reads it as an
      escape: before a character `c` that it reads as itself, the backslash is dropped,
      so the title `AC\DC` (`x = "AC"`, `c = 'D'`, `y = "C"`) is stored as `ACDC`. */
  lemma BackslashAltered(x: string, c: char, y: string, rest: string)
    requires Plain(x) && Plain(y) && c != '\'' && EscapedChar(c) == [c]
    requires rest == [] || rest[0] != '\''
    ensures ReadLiteral(EscapeSingleQuotes(x + ['\\', c] + y) + "'" + rest) == Some((x + [c] + y, rest))
  {
    EscapeBackslashed(x, c, y, rest);
    ReadBackslashed(x, c, y, rest);
  }

  /** The escaped text of `x\cy`, quoted: `x` escaped, the backslash pair as it is, then
      `y` escaped and the closing quote. */
  lemma EscapeBackslashed(x: string, c: char, y: string, rest: string)
    requires c != '\''
    ensures EscapeSingleQuotes(x + ['\\', c] + y) + "'" + rest ==
      EscapeSingleQuotes(x) + (['\\', c] + (EscapeSingleQuotes(y) + "'" + rest))
  {
    var ex, ey := EscapeSingleQuotes(x), EscapeSingleQuotes(y);
    EscapeAppend(x + ['\\', c], y);
    EscapeAppend(x, ['\\', c]);
    assert EscapeSingleQuotes(['\\', c]) == ['\\', c] by { EscapeCons(['\\', c], []); }
    Regroup(ex + ['\\', c], ey, "'", rest);
    Regroup(ex, ['\\', c], ey, "'" + rest);
    assert ey + ("'" + rest) == ey + "'" + rest;
  }

  /** How MySQL reads that text: `x`, then `c` without its backslash, then `y`. */
  lemma ReadBackslashed(x: string, c: char, y: string, rest: string)
    requires Plain(x) && Plain(y) && EscapedChar(c) == [c]
    requires rest == [] || rest[0] != '\''
    ensures ReadLiteral(EscapeSingleQuotes(x) + (['\\', c] + (EscapeSingleQuotes(y) + "'" + rest))) ==
      Some((x + [c] + y, rest))
  {
    var after := ['\\', c] + (EscapeSingleQuotes(y) + "'" + rest);
    ReadEscaped(y, rest);
    ReadEscapeChar(c, EscapeSingleQuotes(y) + "'" + rest);
    ReadEscapedPrefix(x, after);
    assert x + ([c] + y) == x + [c] + y;
  }

  /** As written, a value ending in a backslash escapes its own closing quote: for any
      backslash-free `v` and any non-empty next value `b`, the tuple text `('v\', 'b')`
      reads the first value as `v', ` and leaves the literal at the opening quote of `b`. */
  lemma TrailingBackslashSwallows(v: string, b: string)
    requires Plain(v) && b != []
    ensures ReadLiteral(EscapeSingleQuotes(v + "\\") + "', '" + EscapeSingleQuotes(b) + "')") ==
      Some((v + "', ", EscapeSingleQuotes(b) + "')"))
  {
    var e := EscapeSingleQuotes(b);
    var t0, q := e + "')", "', '";
    var after := "\\', '" + t0;
    assert EscapeSingleQuotes(v + "\\") + q + e + "')" == EscapeSingleQuotes(v) + after by {
      EscapeAppend(v, "\\");
      assert EscapeSingleQuotes("\\") == "\\";
      var x := EscapeSingleQuotes(v);
      Regroup(x + "\\", q, e, "')");
      Regroup(x, "\\", q, t0);
      assert "\\" + (q + t0) == after;
    }
    assert ReadLiteral(after) == Some(("', ", t0)) by {
      assert t0[0] != '\'' by { EscapeCons(b, "')"); }
      ReadEscapedQuote(t0);
    }
    ReadEscapedPrefix(v, after);
  }

  /** Two ways of grouping the same text. */
  lemma Regroup(a: string, b: string, c: string, d: string)
    ensures a + b + c + d == a + (b + (c + d)) && (a + b) + (c + d) == a + (b + (c + d))
  {
  }

  /** `\', '` read up to a closing quote: the escaped quote, a comma and a space. */
  lemma ReadEscapedQuote(t0: string)
    requires t0 == [] || t0[0] != '\''
    ensures ReadLiteral("\\', '" + t0) == Some(("', ", t0))
  {
    var t1 := "'" + t0;
    ReadClose(t0);
    var t2 := [' '] + t1;
    ReadPlainChar(' ', t1);
    assert [' '] + [] == " ";
    var t3 := [','] + t2;
    ReadPlainChar(',', t2);
    assert [','] + " " == ", ";
    var t4 := ['\\', '\''] + t3;
    ReadEscapeChar('\'', t3);
    assert EscapedChar('\'') + ", " == "', ";
    assert "\\', '" + t0 == t4;
  }

  /** Escaping distributes over concatenation. */
  lemma {:induction false} EscapeAppend(a: string, b: string)
    ensures EscapeSingleQuotes(a + b) == EscapeSingleQuotes(a) + EscapeSingleQuotes(b)
  {
    if a == [] {
      assert a + b == b;
    } else {
      assert (a + b)[0] == a[0] && (a + b)[1..] == a[1..] + b;
      EscapeAppend(a[1..], b);
    }
  }

  /** The escaping the code needs for MySQL's literals: a backslash becomes `\\` and a
      quote `\'`. */
  function EscapeLiteral(s: string): (r: string)
    ensures |r| == |s| + Count(s, '\'') + Count(s, '\\')
  {
    if s == [] then []
    else (if s[0] == '\'' then "\\'" else if s[0] == '\\' then "\\\\" else [s[0]]) + EscapeLiteral(s[1..])
  }

  /** With both characters escaped, every text reads back as itself from its literal. */
  lemma {:induction false} ReadEscapedLiteral(s: string, rest: string)
    requires rest == [] || rest[0] != '\''
    ensures ReadLiteral(EscapeLiteral(s) + "'" + rest) == Some((s, rest))
  {
    if s == [] {
      ReadClose(rest);
      assert EscapeLiteral(s) + "'" + rest == "'" + rest;
    } else {
      var c, tail := s[0], EscapeLiteral(s[1..]) + "'" + rest;
      ReadEscapedLiteral(s[1..], rest);
      EscapeLiteralCons(s, rest);
      if c == '\'' || c == '\\' {
        ReadEscapeChar(c, tail);
      } else {
        ReadPlainChar(c, tail);
      }
      assert [c] + s[1..] == s;
    }
  }

  lemma EscapeLiteralCons(s: string, rest: string)
    requires s != []
    ensures EscapeLiteral(s) + "'" + rest ==
      (if s[0] == '\'' || s[0] == '\\' then ['\\', s[0]] else [s[0]]) + (EscapeLiteral(s[1..]) + "'" + rest)
  {
  }

  /** On text without a backslash the code's escaping is the corrected one, so what is
      proved of `Plain` texts holds for both. */
  lemma {:induction false} EscapeAgreesOnPlain(s: string)
    requires Plain(s)
    ensures EscapeSingleQuotes(s) == EscapeLiteral(s)
  {
    if s != [] {
      assert s == [s[0]] + s[1..];
      EscapeAgreesOnPlain(s[1..]);
    }
  }

  /** A string without quotes is copied unchanged. */
  lemma {:induction false} EscapeNoQuotes(s: string)
    requires '\'' !in s
    ensures EscapeSingleQuotes(s) == s
  {
    if s != [] {
      assert '\'' !in s[1..] by {
        forall i | 0 <= i < |s[1..]| ensures s[1..][i] != '\'' { assert s[1..][i] == s[i + 1]; }
      }
      EscapeNoQuotes(s[1..]);
      assert [s[0]] + s[1..] == s;
    }
  }

  /** How a value is written into the statement: `NULL`, `%d`, or `'%s'` with the string
      escaped. */
  function Literal(v: Value): string {
    match v
    case Null => "NULL"
    case Int(n) => GoStrings.Itoa(n)
    case Text(s) => "'" + EscapeSingleQuotes(s) + "'"
  }

  function Literals(row: Row): (r: seq<string>)
    ensures |r| == |row|
  {
    if row == [] then [] else [Literal(row[0])] + Literals(row[1..])
  }

  /** One tuple of a VALUES list: `lead` (the code's `\n` or space) then the values in
      parentheses, separated by `, `. */
  function Tuple(lead: string, row: Row): string {
    lead + "(" + GoStrings.Join(Literals(row), ", ") + ")"
  }

  function Tuples(lead: string, rows: seq<Row>): (r: seq<string>)
    ensures |r| == |rows|
  {
    if rows == [] then [] else [Tuple(lead, rows[0])] + Tuples(lead, rows[1..])
  }

  lemma {:induction false} TuplesSnoc(lead: string, rows: seq<Row>, row: Row)
    ensures Tuples(lead, rows + [row]) == Tuples(lead, rows) + [Tuple(lead, row)]
  {
    if rows != [] {
      assert (rows + [row])[1..] == rows[1..] + [row];
      TuplesSnoc(lead, rows[1..], row);
    }
  }

  /** A multi-row INSERT: `head` (the code's `INSERT INTO t VALUES`) then the tuples
      joined by `sep`. */
  function BulkText(head: string, lead: string, sep: string, rows: seq<Row>): string {
    head + GoStrings.Join(Tuples(lead, rows), sep)
  }

  /** The code's `if len(vals) > 0 { vals += sep }; vals += val`: appending one tuple to a
      value list keeps it the join of all tuples so far. */
  lemma AppendTuple(lead: string, sep: string, rows: seq<Row>, row: Row, vals: string)
    requires vals == GoStrings.Join(Tuples(lead, rows), sep)
    ensures (if |vals| > 0 then vals + sep else vals) + Tuple(lead, row)
            == GoStrings.Join(Tuples(lead, rows + [row]), sep)
  {
    TuplesSnoc(lead, rows, row);
    if rows == [] {
      assert Tuples(lead, rows + [row]) == [Tuple(lead, row)];
    } else {
      assert |vals| >= |Tuple(lead, rows[0])| > 0;
      GoStrings.JoinSnoc(Tuples(lead, rows), Tuple(lead, row), sep);
    }
  }
}
