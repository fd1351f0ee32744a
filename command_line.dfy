/**
 * The shape shared by the `wpanctl` command builders of the wpantund node
 * (silk/node/wpantund_base.py): a fixed head of words followed by optional
 * parts in a fixed order, each written as ` <flag>` or ` <flag> <value>` only
 * when its argument is set. `Argv` is the word list the text reaches
 * `wpanctl` as, `ReadParts` reads such a list back the way a reader that
 * knows the order of the flags would, and the lemmas show that what the
 * builders write is read back as exactly the parts that were set.
 */
module CommandLine {
  import opened PyCore
  import opened PyInt

  /** An optional piece of a command line: a switch, or a flag followed by its value. */
  datatype Part = Switch(flag: string, on: bool) | Valued(flag: string, value: Option<string>)

  /** The words a part contributes: none when it is not set. */
  function PartWords(p: Part): seq<string>
  {
    match p
    case Switch(f, on) => if on then [f] else []
    case Valued(f, v) => if v.Some? then [f, v.value] else []
  }

  /** The text a part contributes, as the builders write it with a leading space. */
  function PartText(p: Part): string
  {
    match p
    case Switch(f, on) => if on then " " + f else ""
    case Valued(f, v) => if v.Some? then " " + f + " " + v.value else ""
  }

  function PartsText(ps: seq<Part>): string
  {
    if ps == [] then "" else PartText(ps[0]) + PartsText(ps[1..])
  }

  function PartsWords(ps: seq<Part>): seq<string>
  {
    if ps == [] then [] else PartWords(ps[0]) + PartsWords(ps[1..])
  }

  /** The part as it stands when its argument is not given. */
  function Blank(p: Part): Part
  {
    match p
    case Switch(f, _) => Switch(f, false)
    case Valued(f, _) => Valued(f, None)
  }

  /** `shape` expects the flags of `ps`, in the same order and of the same kinds. */
  predicate Matches(shape: seq<Part>, ps: seq<Part>)
  {
    |shape| == |ps| && forall i :: 0 <= i < |ps| ==> Blank(shape[i]) == Blank(ps[i])
  }

  /** An argument a builder passes for a part: whether a switch is on, or the value if one is given. */
  datatype Arg = On(on: bool) | Val(value: Option<string>)

  /** The part of kind and flag `p` that the argument `x` sets; an argument of the other kind leaves it blank. */
  function Fill(p: Part, x: Arg): (r: Part)
    ensures Blank(r) == Blank(p)
    ensures r.Switch? ==> (r.on <==> x.On? && x.on)
    ensures r.Valued? ==> r.value == (if x.Val? then x.value else None)
  {
    match p
    case Switch(f, _) => Switch(f, x.On? && x.on)
    case Valued(f, _) => Valued(f, if x.Val? then x.value else None)
  }

  /** The parts a builder writes: the expected flags, each set by its argument. */
  function FillAll(shape: seq<Part>, xs: seq<Arg>): (r: seq<Part>)
    requires |xs| == |shape|
    ensures Matches(shape, r)
    ensures forall i :: 0 <= i < |r| ==> r[i] == Fill(shape[i], xs[i])
  {
    seq(|shape|, i requires 0 <= i < |shape| => Fill(shape[i], xs[i]))
  }

  /** Each flag differs from every flag after it. */
  predicate DistinctFlags(ps: seq<Part>)
  {
    forall i, j :: 0 <= i < j < |ps| ==> ps[i].flag != ps[j].flag
  }

  function Flags(ps: seq<Part>): set<string>
  {
    set i | 0 <= i < |ps| :: ps[i].flag
  }

  /**
   * Reads `words` against `shape`: each expected flag in turn is taken, with
   * its value when it carries one, if it is the next word, and is otherwise
   * not set. All words must be used up.
   */
  function ReadParts(shape: seq<Part>, words: seq<string>): Option<seq<Part>>
    decreases |shape|
  {
    if shape == [] then
      if words == [] then Some([]) else None
    else
      var p := shape[0];
      if words != [] && words[0] == p.flag then
        if p.Switch? then
          var rest :- ReadParts(shape[1..], words[1..]);
          Some([Switch(p.flag, true)] + rest)
        else if |words| >= 2 then
          var rest :- ReadParts(shape[1..], words[2..]);
          Some([Valued(p.flag, Some(words[1]))] + rest)
        else None
      else
        var rest :- ReadParts(shape[1..], words);
        Some([Blank(p)] + rest)
  }

  // ------------------------------------------------------------ lemmas

  /** The first word of a tail is always one of its flags. */
  lemma {:induction false} FirstWordIsFlag(ps: seq<Part>)
    ensures PartsWords(ps) != [] ==> PartsWords(ps)[0] in Flags(ps)
  {
    if ps != [] {
      if PartWords(ps[0]) == [] {
        FirstWordIsFlag(ps[1..]);
        if PartsWords(ps[1..]) != [] {
          var k :| 0 <= k < |ps[1..]| && ps[1..][k].flag == PartsWords(ps[1..])[0];
          assert ps[k + 1].flag == PartsWords(ps)[0];
        }
      } else {
        assert PartsWords(ps)[0] == ps[0].flag;
      }
    }
  }

  /** The order of flags alone reads a tail back as the parts that wrote it. */
  lemma {:induction false} ReadPartsWords(shape: seq<Part>, ps: seq<Part>)
    requires Matches(shape, ps) && DistinctFlags(ps)
    ensures ReadParts(shape, PartsWords(ps)) == Some(ps)
  {
    if ps != [] {
      var rest := ps[1..];
      assert DistinctFlags(rest) by {
        forall i, j | 0 <= i < j < |rest| ensures rest[i].flag != rest[j].flag {
          assert rest[i] == ps[i + 1] && rest[j] == ps[j + 1];
        }
      }
      assert ps[0].flag !in Flags(rest) by {
        forall k | 0 <= k < |rest| ensures rest[k].flag != ps[0].flag {
          assert rest[k] == ps[k + 1];
        }
      }
      assert Matches(shape[1..], rest) by {
        forall i | 0 <= i < |rest| ensures Blank(shape[1..][i]) == Blank(rest[i]) {
          assert shape[1..][i] == shape[i + 1] && rest[i] == ps[i + 1];
        }
      }
      ReadPartsWords(shape[1..], rest);
      ReadPartsStep(shape[0], ps[0], shape[1..], rest);
      assert [ps[0]] + rest == ps && [shape[0]] + shape[1..] == shape;
    }
  }

  /** A part in front of a tail that reads back, whose flag the tail does not use, reads back too. */
  lemma ReadPartsStep(s: Part, p: Part, shape: seq<Part>, rest: seq<Part>)
    requires Blank(s) == Blank(p)
    requires ReadParts(shape, PartsWords(rest)) == Some(rest)
    requires p.flag !in Flags(rest)
    ensures ReadParts([s] + shape, PartsWords([p] + rest)) == Some([p] + rest)
  {
    var ps := [p] + rest;
    assert ps[1..] == rest;
    var sh := [s] + shape;
    assert sh[0] == s && sh[1..] == shape;
    assert s.flag == p.flag && s.Switch? == p.Switch?;
    var w := PartsWords(ps);
    assert w == PartWords(p) + PartsWords(rest);
    if PartWords(p) == [] {
      FirstWordIsFlag(rest);
      assert w == PartsWords(rest);
      assert !(w != [] && w[0] == sh[0].flag);
      assert Blank(s) == p;
      assert ReadParts(sh, w) == Some([Blank(s)] + rest);
    } else if p.Switch? {
      assert w[0] == p.flag && w[1..] == PartsWords(rest);
    } else {
      assert w[0] == p.flag && w[1] == p.value.value && w[2..] == PartsWords(rest);
      assert ps == [Valued(p.flag, Some(w[1]))] + rest;
    }
  }

  /** `sep.join(a + b)` is the two joins joined by `sep`. */
  lemma {:induction false} JoinAppend(sep: string, a: seq<string>, b: seq<string>)
    requires a != [] && b != []
    ensures Join(sep, a + b) == Join(sep, a) + sep + Join(sep, b)
    decreases |a|
  {
    assert (a + b)[1..] == a[1..] + b;
    if |a| > 1 {
      JoinAppend(sep, a[1..], b);
    }
  }

  /** A head of words followed by the parts is the head and the parts' words, joined by single spaces. */
  lemma {:induction false} PartsTextJoin(head: seq<string>, ps: seq<Part>)
    requires head != []
    ensures Join(" ", head) + PartsText(ps) == Join(" ", head + PartsWords(ps))
    decreases |ps|
  {
    if ps == [] {
      assert head + [] == head;
    } else {
      PartsTextJoin(head + PartWords(ps[0]), ps[1..]);
      PartsTextStep(head, ps);
    }
  }

  /** The step of `PartsTextJoin`: the first part's words join the head. */
  lemma PartsTextStep(head: seq<string>, ps: seq<Part>)
    requires head != [] && ps != []
    requires Join(" ", head + PartWords(ps[0])) + PartsText(ps[1..])
      == Join(" ", (head + PartWords(ps[0])) + PartsWords(ps[1..]))
    ensures Join(" ", head) + PartsText(ps) == Join(" ", head + PartsWords(ps))
  {
    var pw := PartWords(ps[0]);
    var j, t, rest := Join(" ", head), PartText(ps[0]), PartsText(ps[1..]);
    assert PartsText(ps) == t + rest;
    PartTextJoin(head, ps[0]);
    ConcatChain(j, t, rest, Join(" ", head + pw), Join(" ", (head + pw) + PartsWords(ps[1..])));
    WordsCons(head, ps);
  }

  /** The words of the parts after a head are the first part's words, then the rest's. */
  lemma WordsCons(head: seq<string>, ps: seq<Part>)
    requires ps != []
    ensures (head + PartWords(ps[0])) + PartsWords(ps[1..]) == head + PartsWords(ps)
  {
    assert PartsWords(ps) == PartWords(ps[0]) + PartsWords(ps[1..]);
  }

  /** Appending in two steps is appending the two pieces at once. */
  lemma ConcatChain(j: string, t: string, rest: string, y: string, z: string)
    requires j + t == y && y + rest == z
    ensures j + (t + rest) == z
  {
    assert j + (t + rest) == (j + t) + rest;
  }

  lemma PartTextJoin(head: seq<string>, p: Part)
    requires head != []
    ensures Join(" ", head) + PartText(p) == Join(" ", head + PartWords(p))
  {
    var pw := PartWords(p);
    if pw != [] {
      JoinAppend(" ", head, pw);
      PartTextIsJoin(p);
      ConcatChain(Join(" ", head), " ", Join(" ", pw), Join(" ", head) + " ", Join(" ", head + pw));
    } else {
      assert head + pw == head;
    }
  }

  /** The text of a given part is a space and its words joined by spaces. */
  lemma PartTextIsJoin(p: Part)
    requires PartWords(p) != []
    ensures PartText(p) == " " + Join(" ", PartWords(p))
  {
  }

  /** A word as the shell sees it in these commands: non-empty, and without a space. */
  predicate Token(s: string)
  {
    s != [] && Free(s, ' ')
  }

  /** Every flag and every given value is a token. */
  predicate Tokens(ps: seq<Part>)
  {
    forall i :: 0 <= i < |ps| ==>
      Token(ps[i].flag) && (ps[i].Valued? && ps[i].value.Some? ==> Token(ps[i].value.value))
  }

  /** The words `wpanctl` receives: the text split at spaces, runs of spaces counting as one. */
  function Argv(s: string): seq<string>
  {
    NonEmpty(SplitOn(s, ' '))
  }

  function NonEmpty(ws: seq<string>): (r: seq<string>)
    ensures forall k :: 0 <= k < |r| ==> r[k] != []
  {
    if ws == [] then []
    else if ws[0] == [] then NonEmpty(ws[1..])
    else [ws[0]] + NonEmpty(ws[1..])
  }

  lemma {:induction false} NonEmptyKeeps(ws: seq<string>)
    requires forall k :: 0 <= k < |ws| ==> ws[k] != []
    ensures NonEmpty(ws) == ws
  {
    if ws != [] {
      NonEmptyKeeps(ws[1..]);
    }
  }

  /** The parts' words are tokens. */
  lemma {:induction false} PartsWordsTokens(ps: seq<Part>)
    requires Tokens(ps)
    ensures forall k :: 0 <= k < |PartsWords(ps)| ==> Token(PartsWords(ps)[k])
  {
    if ps != [] {
      assert Tokens(ps[1..]) by {
        forall i | 0 <= i < |ps[1..]| ensures ps[1..][i] == ps[i + 1] { }
      }
      PartsWordsTokens(ps[1..]);
    }
  }

  /** Tokens joined by single spaces are split back into the same tokens. */
  lemma ArgvJoin(ws: seq<string>)
    requires ws != [] && forall k :: 0 <= k < |ws| ==> Token(ws[k])
    ensures Argv(Join(" ", ws)) == ws
  {
    SplitOnJoin(ws, ' ');
    NonEmptyKeeps(ws);
  }

  /** A head of tokens, then the parts: `wpanctl` receives the head, then the words of the parts that are set. */
  lemma CommandArgv(head: seq<string>, ps: seq<Part>)
    requires head != [] && forall k :: 0 <= k < |head| ==> Token(head[k])
    requires Tokens(ps)
    ensures Argv(Join(" ", head) + PartsText(ps)) == head + PartsWords(ps)
  {
    PartsTextJoin(head, ps);
    PartsWordsTokens(ps);
    ArgvJoin(head + PartsWords(ps));
  }

  /** `str(i)` is a token. */
  lemma IntStrToken(i: int)
    ensures Token(IntStr(i))
  {
  }

  /** `hex(i)` is a token. */
  lemma PyHexToken(i: int)
    ensures Token(PyHex(i))
  {
    var h := Hex(if i < 0 then -i else i);
    assert forall k :: 0 <= k < |h| ==> h[k] != ' ' by {
      assert forall k :: 0 <= k < |h| ==> !IsSpace(h[k]);
    }
  }

  /** Every flag of a shape is a token. */
  predicate FlagTokens(shape: seq<Part>)
  {
    forall i :: 0 <= i < |shape| ==> Token(shape[i].flag)
  }

  /** Every value given among the arguments is a token. */
  predicate ArgTokens(xs: seq<Arg>)
  {
    forall i :: 0 <= i < |xs| ==> xs[i].Val? && xs[i].value.Some? ==> Token(xs[i].value.value)
  }

  /** Filling a shape keeps its flags: distinct flags stay distinct, and token arguments give token parts. */
  lemma FillAllKeeps(shape: seq<Part>, xs: seq<Arg>)
    requires |xs| == |shape| && DistinctFlags(shape) && FlagTokens(shape) && ArgTokens(xs)
    ensures DistinctFlags(FillAll(shape, xs)) && Tokens(FillAll(shape, xs))
  {
    var ps := FillAll(shape, xs);
    forall i | 0 <= i < |ps| ensures ps[i].flag == shape[i].flag {
      assert Blank(ps[i]) == Blank(shape[i]);
    }
  }

  /**
   * A command of a head of tokens followed by the parts set from a shape with
   * distinct token flags: `wpanctl` receives the head, and the words after it
   * read back against the shape as exactly the parts set.
   */
  lemma ReadsBack(head: seq<string>, shape: seq<Part>, xs: seq<Arg>)
    requires head != [] && forall k :: 0 <= k < |head| ==> Token(head[k])
    requires |xs| == |shape| && DistinctFlags(shape) && FlagTokens(shape) && ArgTokens(xs)
    ensures var argv := Argv(Join(" ", head) + PartsText(FillAll(shape, xs)));
      |argv| >= |head| && argv[..|head|] == head && ReadParts(shape, argv[|head|..]) == Some(FillAll(shape, xs))
  {
    var ps := FillAll(shape, xs);
    FillAllKeeps(shape, xs);
    CommandArgv(head, ps);
    var argv := head + PartsWords(ps);
    assert argv[..|head|] == head && argv[|head|..] == PartsWords(ps);
    ReadPartsWords(shape, ps);
  }

  /** A word in front of others, joined by `sep`. */
  lemma JoinCons(sep: string, a: string, ws: seq<string>)
    requires ws != []
    ensures Join(sep, [a] + ws) == a + sep + Join(sep, ws)
  {
    assert ([a] + ws)[1..] == ws;
  }

  /** Two words joined by a space. */
  lemma JoinPair(a: string, b: string)
    ensures Join(" ", [a, b]) == a + " " + b
  {
    assert [a, b][1..] == [b];
  }

  /** Dropping empty words distributes over concatenation. */
  lemma {:induction false} NonEmptyAppend(a: seq<string>, b: seq<string>)
    ensures NonEmpty(a + b) == NonEmpty(a) + NonEmpty(b)
    decreases |a|
  {
    if a != [] {
      assert (a + b)[1..] == a[1..] + b;
      NonEmptyAppend(a[1..], b);
    } else {
      assert a + b == b;
    }
  }

  /** Tokens with one empty word among them, joined by spaces, split back into the tokens alone. */
  lemma ArgvPadded(head: seq<string>, ws: seq<string>)
    requires forall k :: 0 <= k < |head| ==> Token(head[k])
    requires forall k :: 0 <= k < |ws| ==> Token(ws[k])
    ensures Argv(Join(" ", head + [""] + ws)) == head + ws
  {
    var words := head + [""] + ws;
    PaddedFree(head, ws);
    SplitOnJoin(words, ' ');
    calc {
      Argv(Join(" ", words));
      == NonEmpty(words);
      == { NonEmptyAppend(head + [""], ws); }
      NonEmpty(head + [""]) + NonEmpty(ws);
      == { NonEmptyAppend(head, [""]); NonEmptyKeeps(head); NonEmptyKeeps(ws); assert NonEmpty([""]) == []; }
      head + [] + ws;
      == { assert head + [] == head; }
      head + ws;
    }
  }

  lemma PaddedFree(head: seq<string>, ws: seq<string>)
    requires forall k :: 0 <= k < |head| ==> Token(head[k])
    requires forall k :: 0 <= k < |ws| ==> Token(ws[k])
    ensures forall k :: 0 <= k < |head + [""] + ws| ==> Free((head + [""] + ws)[k], ' ')
  {
    var words := head + [""] + ws;
    forall k | 0 <= k < |words| ensures Free(words[k], ' ') {
      if k < |head| {
        assert words[k] == head[k];
      } else if k > |head| {
        assert words[k] == ws[k - |head| - 1];
      }
    }
  }

  /**
   * As `ReadsBack`, for a head written with a trailing space before the
   * parts' own leading spaces: the empty word between them is dropped.
   */
  lemma ReadsBackPadded(head: seq<string>, shape: seq<Part>, xs: seq<Arg>)
    requires head != [] && forall k :: 0 <= k < |head| ==> Token(head[k])
    requires |xs| == |shape| && DistinctFlags(shape) && FlagTokens(shape) && ArgTokens(xs)
    ensures var argv := Argv(Join(" ", head + [""]) + PartsText(FillAll(shape, xs)));
      |argv| >= |head| && argv[..|head|] == head && ReadParts(shape, argv[|head|..]) == Some(FillAll(shape, xs))
  {
    var ps := FillAll(shape, xs);
    FillAllKeeps(shape, xs);
    PartsTextJoin(head + [""], ps);
    PartsWordsTokens(ps);
    ArgvPadded(head, PartsWords(ps));
    var argv := head + PartsWords(ps);
    assert argv[..|head|] == head && argv[|head|..] == PartsWords(ps);
    ReadPartsWords(shape, ps);
  }

  /** Flags of a dash and one character other than a space are tokens, and distinct when the characters are. */
  lemma ShortFlags(shape: seq<Part>)
    requires forall i :: 0 <= i < |shape| ==> |shape[i].flag| == 2 && shape[i].flag[0] == '-' && shape[i].flag[1] != ' '
    requires forall i, j :: 0 <= i < j < |shape| ==> shape[i].flag[1] != shape[j].flag[1]
    ensures DistinctFlags(shape) && FlagTokens(shape)
  {
  }
}
