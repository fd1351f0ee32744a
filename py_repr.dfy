/**
 * Python's `repr` of strings, and `str` of lists and dicts of strings, as
 * Python 3 prints them. Only ASCII is escaped here: tabs, newlines and
 * carriage returns by name, other control characters as `\xhh`, the
 * backslash, and the quote in use.
 */
module PyRepr {
  import opened PyCore
  import opened PyInt

  /** The quote `repr(s)` uses: `"` when `s` holds a `'` and no `"`, else `'`. */
  function QuoteFor(s: string): (q: char)
    ensures q == '"' <==> ('\'' in s && '"' !in s)
    ensures q == '\'' || q == '"'
  {
    if '\'' in s && '"' !in s then '"' else '\''
  }

  /** An ASCII control character: printed as a `\xhh` escape unless it has a name. */
  predicate Control(c: char)
  {
    c < ' ' || c as int == 0x7f
  }

  /** How `repr` writes one character inside quotes `q`. */
  function Escape(c: char, q: char): (r: string)
    ensures r != [] && (r[0] == '\\' <==> |r| > 1)
  {
    if c == q || c == '\\' then ['\\', c]
    else if c == '\t' then "\\t"
    else if c == '\n' then "\\n"
    else if c == '\r' then "\\r"
    else if Control(c) then "\\x" + [HexChar(c as int / 16), HexChar(c as int % 16)]
    else [c]
  }

  function EscapeAll(s: string, q: char): string
  {
    if s == [] then [] else Escape(s[0], q) + EscapeAll(s[1..], q)
  }

  /** `repr(s)`. */
  function Repr(s: string): (r: string)
    ensures |r| >= 2 && r[0] == QuoteFor(s) && r[|r| - 1] == QuoteFor(s)
  {
    [QuoteFor(s)] + EscapeAll(s, QuoteFor(s)) + [QuoteFor(s)]
  }

  /** Reading the text between the quotes back, as Python's parser reads a string literal. */
  function Unescape(t: string, q: char): Option<string>
    decreases |t|
  {
    if t == [] then Some([])
    else if t[0] == q then None
    else if t[0] != '\\' then
      var rest :- Unescape(t[1..], q);
      Some([t[0]] + rest)
    else if |t| < 2 then None
    else if t[1] == '\\' || t[1] == q || t[1] == 't' || t[1] == 'n' || t[1] == 'r' then
      var rest :- Unescape(t[2..], q);
      Some([Named(t[1])] + rest)
    else if t[1] == 'x' && |t| >= 4 && IsDigitIn(t[2], 16) && IsDigitIn(t[3], 16) then
      var rest :- Unescape(t[4..], q);
      Some([(DigitValue(t[2]).value * 16 + DigitValue(t[3]).value) as char] + rest)
    else None
  }

  /** The character an escape `\c` with a one-letter name stands for. */
  function Named(c: char): char
  {
    if c == 't' then '\t' else if c == 'n' then '\n' else if c == 'r' then '\r' else c
  }

  /** `'[' + ', '.join(repr(x) for x in xs) + ']'`: `str` of a list of strings. */
  function ListRepr(xs: seq<string>): string
  {
    "[" + Join(", ", ReprAll(xs)) + "]"
  }

  function ReprAll(xs: seq<string>): (r: seq<string>)
    ensures |r| == |xs|
    ensures forall i :: 0 <= i < |xs| ==> r[i] == Repr(xs[i])
  {
    if xs == [] then [] else [Repr(xs[0])] + ReprAll(xs[1..])
  }

  /** `str` of a dict of strings, its keys in insertion order. */
  function DictRepr(keys: seq<string>, values: map<string, string>): string
    requires forall i :: 0 <= i < |keys| ==> keys[i] in values
  {
    "{" + Join(", ", Items(keys, values)) + "}"
  }

  function Items(keys: seq<string>, values: map<string, string>): (r: seq<string>)
    requires forall i :: 0 <= i < |keys| ==> keys[i] in values
    ensures |r| == |keys|
    ensures forall i :: 0 <= i < |keys| ==> r[i] == Repr(keys[i]) + ": " + Repr(values[keys[i]])
  {
    if keys == [] then [] else [Repr(keys[0]) + ": " + Repr(values[keys[0]])] + Items(keys[1..], values)
  }

  // ------------------------------------------------------------ lemmas

  /** Each escape reads back as the character it stands for. */
  lemma EscapeReadsBack(c: char, q: char, rest: string)
    requires q == '\'' || q == '"'
    requires Unescape(rest, q).Some?
    ensures Unescape(Escape(c, q) + rest, q) == Some([c] + Unescape(rest, q).value)
  {
    var e := Escape(c, q);
    var t := e + rest;
    if c == q || c == '\\' {
      assert t[2..] == rest;
    } else if c == '\t' || c == '\n' || c == '\r' {
      assert t[2..] == rest;
    } else if Control(c) {
      var hi, lo := c as int / 16, c as int % 16;
      assert t[2] == HexChar(hi) && t[3] == HexChar(lo);
      assert t[4..] == rest;
      assert (hi * 16 + lo) as char == c;
    } else {
      assert t[1..] == rest;
    }
  }

  /** The text `repr` writes between the quotes reads back as the string itself. */
  lemma {:induction false} EscapeAllReadsBack(s: string, q: char)
    requires q == '\'' || q == '"'
    ensures Unescape(EscapeAll(s, q), q) == Some(s)
  {
    if s != [] {
      EscapeAllReadsBack(s[1..], q);
      EscapeReadsBack(s[0], q, EscapeAll(s[1..], q));
      assert [s[0]] + s[1..] == s;
    }
  }

  /** `repr` round-trips: the quotes at both ends, and a body that reads back as `s`. */
  lemma ReprRoundTrip(s: string)
    ensures var r := Repr(s);
      r[0] == r[|r| - 1] && Unescape(r[1..|r| - 1], r[0]) == Some(s)
  {
    var r := Repr(s);
    assert r[1..|r| - 1] == EscapeAll(s, QuoteFor(s));
    EscapeAllReadsBack(s, QuoteFor(s));
  }

  /** A string with no quote, backslash or control character is printed as is, between single quotes. */
  lemma {:induction false} ReprPlain(s: string)
    requires forall i :: 0 <= i < |s| ==> s[i] != '\'' && s[i] != '"' && s[i] != '\\' && !Control(s[i])
    ensures Repr(s) == "'" + s + "'"
  {
    assert QuoteFor(s) == '\'';
    EscapeAllPlain(s, '\'');
  }

  lemma {:induction false} EscapeAllPlain(s: string, q: char)
    requires forall i :: 0 <= i < |s| ==> s[i] != q && s[i] != '\\' && !Control(s[i])
    ensures EscapeAll(s, q) == s
  {
    if s != [] {
      EscapeAllPlain(s[1..], q);
      assert [s[0]] + s[1..] == s;
    }
  }
}
