/**
 * The Python built-in behaviour the Silk sources rely on: exceptions as
 * values, sequence slicing with negative and out-of-range bounds, and the
 * `str` methods used by the table parsers, the address helpers and the
 * command builders (`split`, `split()`, `strip`, `replace`, `join`, `in`,
 * `startswith`, `upper`).
 */
module PyCore {

  datatype Option<T> = None | Some(value: T)
  {
    predicate IsFailure() { None? }
    function PropagateFailure<U>(): Option<U> requires None? { None }
    function Extract(): T requires Some? { value }
  }

  /** The Python exception classes raised along the modelled paths. */
  datatype Exc =
    | ValueError
    | KeyError
    | IndexError
    | AttributeError
    | TypeError
    | RuntimeError
    | StructError
    | UnicodeEncodeError
    | VerifyError
    | HardwareNotFound
    | NoSectionError
    | OverflowError

  datatype Result<T> = Ok(value: T) | Err(error: Exc)
  {
    predicate IsFailure() { Err? }
    function PropagateFailure<U>(): Result<U> requires Err? { Err(error) }
    function Extract(): T requires Ok? { value }
  }

  /** `str.isspace()` for a single character. */
  predicate IsSpace(c: char)
  {
    c == ' ' || ('\t' <= c <= '\r') || ('\U{1c}' <= c <= '\U{1f}') || c == '\U{85}' || c == '\U{a0}'
    || c == '\U{1680}' || ('\U{2000}' <= c <= '\U{200a}') || c == '\U{2028}' || c == '\U{2029}'
    || c == '\U{202f}' || c == '\U{205f}' || c == '\U{3000}'
  }

  /** A non-empty run of non-whitespace characters: what `str.split()` yields. */
  predicate IsWord(s: string)
  {
    s != [] && forall i :: 0 <= i < |s| ==> !IsSpace(s[i])
  }

  predicate NoSpace(s: string)
  {
    forall i :: 0 <= i < |s| ==> !IsSpace(s[i])
  }

  // ---------------------------------------------------------------- slicing

  /** How Python clamps a slice bound `i` against a sequence of length `n`. */
  function SliceBound(i: int, n: nat): (k: nat)
    ensures k <= n
    ensures 0 <= i <= n ==> k == i
    ensures i < 0 && 0 <= i + n ==> k == i + n
  {
    if i < 0 then (if i + n < 0 then 0 else i + n) else if i > n then n else i
  }

  /** `s[i:j]`. */
  function Slice<T>(s: seq<T>, i: int, j: int): (r: seq<T>)
    ensures |r| <= |s|
  {
    var a, b := SliceBound(i, |s|), SliceBound(j, |s|);
    if a < b then s[a..b] else []
  }

  /** `s[i:]`. */
  function From<T>(s: seq<T>, i: int): (r: seq<T>)
    ensures |r| <= |s|
  {
    Slice(s, i, |s|)
  }

  /** An in-range `s[i:]` is the plain suffix. */
  lemma FromIn<T>(s: seq<T>, i: nat)
    requires i <= |s|
    ensures From(s, i) == s[i..]
  {
  }

  /** `s[1:-1]` keeps everything but the first and the last element. */
  lemma SliceInner<T>(s: seq<T>)
    ensures |s| >= 2 ==> Slice(s, 1, -1) == s[1..|s| - 1]
    ensures |s| < 2 ==> Slice(s, 1, -1) == []
  {
  }

  /** `s[2:-1]` keeps everything but the first two and the last element. */
  lemma SliceTwoOne<T>(s: seq<T>)
    ensures |s| >= 3 ==> Slice(s, 2, -1) == s[2..|s| - 1]
    ensures |s| < 3 ==> Slice(s, 2, -1) == []
  {
  }

  /** A line `\t"<body>"` loses exactly its decoration under `[2:-1]`. */
  lemma SliceQuoted(body: string)
    ensures Slice("\t\"" + body + "\"", 2, -1) == body
  {
    var s := "\t\"" + body + "\"";
    assert s[2..|s| - 1] == body;
  }

  // ----------------------------------------------------------- whitespace

  /** Length of the whitespace run at the head of `s`. */
  function SpaceRun(s: string): (n: nat)
    ensures n <= |s|
    ensures forall i :: 0 <= i < n ==> IsSpace(s[i])
    ensures n < |s| ==> !IsSpace(s[n])
  {
    if s != [] && IsSpace(s[0]) then 1 + SpaceRun(s[1..]) else 0
  }

  /** Length of the non-whitespace run at the head of `s`. */
  function WordRun(s: string): (n: nat)
    ensures n <= |s|
    ensures forall i :: 0 <= i < n ==> !IsSpace(s[i])
    ensures n < |s| ==> IsSpace(s[n])
  {
    if s != [] && !IsSpace(s[0]) then 1 + WordRun(s[1..]) else 0
  }

  /** `s.lstrip()`. */
  function LStrip(s: string): string
  {
    s[SpaceRun(s)..]
  }

  /** `s.rstrip()`. */
  function RStrip(s: string): (r: string)
    ensures |r| <= |s|
    ensures r != [] ==> !IsSpace(r[|r| - 1])
    ensures r == s[..|r|]
    ensures forall i :: |r| <= i < |s| ==> IsSpace(s[i])
  {
    if s != [] && IsSpace(s[|s| - 1]) then RStrip(s[..|s| - 1]) else s
  }

  /** `s.strip()`. */
  function Strip(s: string): string
  {
    RStrip(LStrip(s))
  }

  /** A string without surrounding whitespace is left alone by `strip()`, whatever padding is added. */
  lemma {:induction false} StripPadded(pre: string, s: string, post: string)
    requires forall i :: 0 <= i < |pre| ==> IsSpace(pre[i])
    requires forall i :: 0 <= i < |post| ==> IsSpace(post[i])
    requires s == [] || (!IsSpace(s[0]) && !IsSpace(s[|s| - 1]))
    ensures Strip(pre + s + post) == s
  {
    var t := pre + s + post;
    if s == [] {
      assert forall i :: 0 <= i < |t| ==> IsSpace(t[i]);
      SpaceRunAll(t);
      assert LStrip(t) == [];
    } else {
      SpaceRunPrefix(pre, s + post);
      assert t == pre + (s + post);
      assert LStrip(t) == s + post;
      RStripSuffix(s, post);
    }
  }

  lemma {:induction false} SpaceRunAll(t: string)
    requires forall i :: 0 <= i < |t| ==> IsSpace(t[i])
    ensures SpaceRun(t) == |t|
  {
    if t != [] {
      SpaceRunAll(t[1..]);
    }
  }

  lemma {:induction false} SpaceRunPrefix(pre: string, rest: string)
    requires forall i :: 0 <= i < |pre| ==> IsSpace(pre[i])
    requires rest != [] && !IsSpace(rest[0])
    ensures SpaceRun(pre + rest) == |pre|
  {
    if pre != [] {
      assert (pre + rest)[1..] == pre[1..] + rest;
      SpaceRunPrefix(pre[1..], rest);
    } else {
      assert pre + rest == rest;
    }
  }

  /** Text after a non-blank prefix is untouched by `lstrip()`. */
  lemma {:induction false} LStripConcat(a: string, b: string)
    requires SpaceRun(a) < |a|
    ensures LStrip(a + b) == LStrip(a) + b
  {
    if IsSpace(a[0]) {
      assert (a + b)[1..] == a[1..] + b;
      LStripConcat(a[1..], b);
    }
  }

  lemma {:induction false} RStripSuffix(s: string, post: string)
    requires forall i :: 0 <= i < |post| ==> IsSpace(post[i])
    requires s != [] && !IsSpace(s[|s| - 1])
    ensures RStrip(s + post) == s
  {
    if post == [] {
      assert s + post == s;
    } else {
      var t := s + post;
      assert t[..|t| - 1] == s + post[..|post| - 1];
      RStripSuffix(s, post[..|post| - 1]);
    }
  }

  /** Python's `s.split()`: the maximal runs of non-whitespace characters, in order. */
  function SplitWs(s: string): (r: seq<string>)
    ensures forall k :: 0 <= k < |r| ==> IsWord(r[k])
    decreases |s|
  {
    var t := s[SpaceRun(s)..];
    if t == [] then []
    else
      var w := WordRun(t);
      [t[..w]] + SplitWs(t[w..])
  }

  /** `" ".join(words)` splits back into the same words. */
  lemma {:induction false} SplitWsJoin(words: seq<string>)
    requires forall k :: 0 <= k < |words| ==> IsWord(words[k])
    ensures SplitWs(Join(" ", words)) == words
    decreases |words|
  {
    if words == [] {
    } else {
      var w := words[0];
      assert WordRun(w) == |w| by { WordRunWord(w, []); }
      if |words| == 1 {
        assert SpaceRun(w) == 0;
        assert w[..WordRun(w)] == w;
        assert w[WordRun(w)..] == [];
        assert SplitWs([]) == [];
      } else {
        var rest := Join(" ", words[1..]);
        var s := w + " " + rest;
        assert SpaceRun(s) == 0;
        assert s[..|w|] == w;
        WordRunWord(w, " " + rest);
        assert s == w + (" " + rest);
        assert s[|w|..] == " " + rest;
        SplitWsLeadingSpace(rest);
        SplitWsJoin(words[1..]);
      }
    }
  }

  lemma {:induction false} WordRunWord(w: string, rest: string)
    requires IsWord(w)
    requires rest == [] || IsSpace(rest[0])
    ensures WordRun(w + rest) == |w|
    decreases |w|
  {
    if |w| == 1 {
      assert (w + rest)[1..] == rest;
    } else {
      assert (w + rest)[1..] == w[1..] + rest;
      WordRunWord(w[1..], rest);
    }
  }

  /** Leading whitespace does not change `split()`. */
  lemma SplitWsLeadingSpace(rest: string)
    ensures SplitWs(" " + rest) == SplitWs(rest)
  {
    var s := " " + rest;
    assert s[1..] == rest;
    assert SpaceRun(s) == 1 + SpaceRun(rest);
    assert s[SpaceRun(s)..] == rest[SpaceRun(rest)..];
  }

  // --------------------------------------------------- search and split

  /** `t` occurs in `s` at position `i`. */
  predicate At(s: string, i: nat, t: string)
  {
    i + |t| <= |s| && s[i..i + |t|] == t
  }

  /** The first position at or after `from` where `t` occurs in `s`. */
  function FindFrom(s: string, t: string, from: nat): (r: Option<nat>)
    requires from <= |s|
    ensures r.Some? ==> from <= r.value && At(s, r.value, t)
    ensures r.Some? ==> forall i :: from <= i < r.value ==> !At(s, i, t)
    ensures r.None? ==> forall i :: from <= i <= |s| ==> !At(s, i, t)
    decreases |s| - from
  {
    if At(s, from, t) then Some(from)
    else if from == |s| then None
    else FindFrom(s, t, from + 1)
  }

  /** `s.find(t)`, as an option. */
  function Find(s: string, t: string): (r: Option<nat>)
    ensures r.Some? ==> At(s, r.value, t) && forall i :: 0 <= i < r.value ==> !At(s, i, t)
    ensures r.None? ==> forall i :: 0 <= i <= |s| ==> !At(s, i, t)
  {
    FindFrom(s, t, 0)
  }

  /** The first occurrence is where `t` occurs with no earlier occurrence. */
  lemma FindAt(s: string, t: string, p: nat)
    requires At(s, p, t) && forall i :: 0 <= i < p ==> !At(s, i, t)
    ensures Find(s, t) == Some(p)
  {
  }

  /** Python's `t in s` on strings. */
  predicate Contains(s: string, t: string)
  {
    Find(s, t).Some?
  }

  /** `s.startswith(p)`. */
  predicate StartsWith(s: string, p: string)
  {
    |p| <= |s| && s[..|p|] == p
  }

  /** `sep.join(parts)`. */
  function Join(sep: string, parts: seq<string>): string
  {
    if parts == [] then []
    else if |parts| == 1 then parts[0]
    else parts[0] + sep + Join(sep, parts[1..])
  }

  /** `s.split(sep, maxsplit)`; a negative `maxsplit` means no limit. */
  function Split(s: string, sep: string, maxsplit: int): (r: seq<string>)
    requires sep != []
    ensures 1 <= |r|
    ensures Join(sep, r) == s
    ensures maxsplit >= 0 ==> |r| <= maxsplit + 1
    decreases |s|
  {
    if maxsplit == 0 then [s]
    else
      match Find(s, sep)
      case None => [s]
      case Some(p) =>
        var rest := Split(s[p + |sep|..], sep, if maxsplit < 0 then maxsplit else maxsplit - 1);
        assert s == s[..p] + sep + s[p + |sep|..];
        [s[..p]] + rest
  }

  /** `s.split(sep)` with a one-character separator. */
  function SplitOn(s: string, sep: char): (r: seq<string>)
    ensures 1 <= |r| && Join([sep], r) == s
  {
    Split(s, [sep], -1)
  }

  /** A string that does not hold the character `c`. */
  predicate Free(s: string, c: char)
  {
    forall i :: 0 <= i < |s| ==> s[i] != c
  }

  /** Concatenation keeps a character out when both halves do. */
  lemma FreeConcat(a: string, b: string, c: char)
    requires Free(a, c) && Free(b, c)
    ensures Free(a + b, c)
  {
    forall i | 0 <= i < |a + b| ensures (a + b)[i] != c {
      if i >= |a| {
        assert (a + b)[i] == b[i - |a|];
      }
    }
  }

  /** Splitting on a character undoes joining with it, when no part holds that character. */
  lemma {:induction false} SplitOnJoin(parts: seq<string>, sep: char)
    requires parts != []
    requires forall k :: 0 <= k < |parts| ==> Free(parts[k], sep)
    ensures SplitOn(Join([sep], parts), sep) == parts
    decreases |parts|
  {
    var s := Join([sep], parts);
    if |parts| == 1 {
      NotFoundInFree(s, sep);
    } else {
      var p0 := parts[0];
      var rest := Join([sep], parts[1..]);
      assert s == p0 + [sep] + rest;
      assert At(s, |p0|, [sep]);
      forall i | 0 <= i < |p0| ensures !At(s, i, [sep]) {
        assert s[i] == p0[i];
      }
      assert Find(s, [sep]) == Some(|p0|);
      assert s[..|p0|] == p0;
      assert s[|p0| + 1..] == rest;
      SplitOnJoin(parts[1..], sep);
    }
  }

  lemma NotFoundInFree(s: string, c: char)
    requires Free(s, c)
    ensures Find(s, [c]).None?
    ensures SplitOn(s, c) == [s]
  {
    forall i | 0 <= i <= |s| ensures !At(s, i, [c]) {
      if i < |s| {
        assert s[i] != c;
      }
    }
  }

  /** `s.replace(pat, sub)`: every non-overlapping occurrence, left to right. */
  function Replace(s: string, pat: string, sub: string): string
    requires pat != []
    decreases |s|
  {
    if |s| < |pat| then s
    else if s[..|pat|] == pat then sub + Replace(s[|pat|..], pat, sub)
    else [s[0]] + Replace(s[1..], pat, sub)
  }

  /** `s` without any occurrence of the character `c`. */
  function Without(s: string, c: char): (r: string)
    ensures Free(r, c)
    ensures |r| <= |s|
  {
    if s == [] then []
    else (if s[0] == c then [] else [s[0]]) + Without(s[1..], c)
  }

  /** `s.replace(c, '')` removes exactly the occurrences of `c`. */
  lemma {:induction false} ReplaceCharByNothing(s: string, c: char)
    ensures Replace(s, [c], []) == Without(s, c)
    decreases |s|
  {
    if s != [] {
      ReplaceCharByNothing(s[1..], c);
      assert s[..1] == [s[0]];
    }
  }

  lemma AtChar(s: string, i: nat, c: char)
    requires i < |s|
    ensures At(s, i, [c]) <==> s[i] == c
  {
    assert s[i..i + 1] == [s[i]];
  }

  lemma {:induction false} WithoutFree(s: string, c: char)
    requires Free(s, c)
    ensures Without(s, c) == s
  {
    if s != [] {
      WithoutFree(s[1..], c);
    }
  }

  lemma {:induction false} WithoutConcat(a: string, b: string, c: char)
    ensures Without(a + b, c) == Without(a, c) + Without(b, c)
  {
    if a == [] {
      assert a + b == b;
    } else {
      assert (a + b)[1..] == a[1..] + b;
      WithoutConcat(a[1..], b, c);
    }
  }

  /** A replacement that cannot occur changes nothing. */
  lemma {:induction false} ReplaceAbsent(s: string, pat: string, sub: string)
    requires pat != []
    requires forall i :: 0 <= i <= |s| ==> !At(s, i, pat)
    ensures Replace(s, pat, sub) == s
    decreases |s|
  {
    if |s| >= |pat| {
      assert !At(s, 0, pat);
      forall i | 0 <= i <= |s[1..]| ensures !At(s[1..], i, pat) {
        assert !At(s, i + 1, pat);
        if i + |pat| <= |s| - 1 {
          assert s[1..][i..i + |pat|] == s[i + 1..i + 1 + |pat|];
        }
      }
      ReplaceAbsent(s[1..], pat, sub);
    }
  }

  // ------------------------------------------------------------ case

  function UpperChar(c: char): char
  {
    if 'a' <= c <= 'z' then (c as int - 32) as char else c
  }

  /** `s.upper()` on ASCII letters. */
  function Upper(s: string): (r: string)
    ensures |r| == |s|
    ensures forall i :: 0 <= i < |s| ==> r[i] == UpperChar(s[i])
  {
    if s == [] then [] else [UpperChar(s[0])] + Upper(s[1..])
  }

  /** Python truthiness of an optional string argument: absent and `''` are false. */
  predicate TruthyStr(s: Option<string>)
  {
    s.Some? && s.value != []
  }
}
