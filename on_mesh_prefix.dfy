/**
 * `OnMeshPrefix` and `parse_on_mesh_prefix_result`
 * (silk/tools/wpan_table_parser.py:444-521; the same code sits at
 * src/tools/wpan_table_parser.py:441-518).
 *
 * The constructor matches one line against the regular expression
 *
 *   \t"([0-9a-fA-F:]+)\s*prefix_len:(\d+)\s+origin:(\w*)\s+stable:(\w*).* \[
 *   on-mesh:(\d)\s+def-route:(\d)\s+config:(\d)\s+dhcp:(\d)\s+slaac:(\d)\s+pref:(\d)\s+prio:(\w*)\]
 *   \s+rloc:(0x[0-9a-fA-F]+)
 *
 * with `re.match`, i.e. anchored at the start and not at the end. Every
 * repetition in it except `.*` is followed by a character it cannot match
 * itself, so backtracking never shortens one: each is its longest run. The
 * `.*` cannot cross a line break and, being greedy, ends at the LAST
 * position from which the rest of the pattern matches. The matcher below
 * works on the remaining suffix of the line, one piece of the pattern at a
 * time, in that order.
 */
module OnMeshPrefix {
  import opened PyCore
  import WpanTableParser

  // ------------------------------------------------------------ character classes

  predicate HexDigit(c: char)
  {
    '0' <= c <= '9' || 'a' <= c <= 'f' || 'A' <= c <= 'F'
  }

  /** `[0-9a-fA-F:]` */
  predicate HexOrColon(c: char)
  {
    HexDigit(c) || c == ':'
  }

  /** `\d` on ASCII text. */
  predicate Digit(c: char)
  {
    '0' <= c <= '9'
  }

  /** `\w` on ASCII text. */
  predicate WordChar(c: char)
  {
    Digit(c) || 'a' <= c <= 'z' || 'A' <= c <= 'Z' || c == '_'
  }

  // ------------------------------------------------------------ pattern pieces

  /** A literal: the rest of the text after it. */
  function Lit(s: string, t: string): (r: Option<string>)
    ensures r.Some? <==> StartsWith(s, t)
    ensures r.Some? ==> s == t + r.value
  {
    if StartsWith(s, t) then
      assert s == t + s[|t|..];
      Some(s[|t|..])
    else None
  }

  /** `P*`, greedy: the longest run of `P` characters and the text after it. */
  function Run(s: string, P: char -> bool): (r: (string, string))
    ensures r.0 + r.1 == s
    ensures forall i :: 0 <= i < |r.0| ==> P(r.0[i])
    ensures r.1 == [] || !P(r.1[0])
  {
    if s != [] && P(s[0]) then
      var t := Run(s[1..], P);
      assert [s[0]] + t.0 + t.1 == s;
      ([s[0]] + t.0, t.1)
    else ([], s)
  }

  /** `P+`: a run of at least one character. */
  function Plus(s: string, P: char -> bool): (r: Option<(string, string)>)
    ensures r.Some? <==> s != [] && P(s[0])
    ensures r.Some? ==> r.value == Run(s, P)
  {
    var t := Run(s, P);
    if t.0 == [] then None else Some(t)
  }

  /** `(\d)`: exactly one digit. */
  function OneDigit(s: string): (r: Option<(string, string)>)
    ensures r.Some? ==> |r.value.0| == 1 && Digit(r.value.0[0]) && s == r.value.0 + r.value.1
  {
    if s != [] && Digit(s[0]) then
      assert s == [s[0]] + s[1..];
      Some(([s[0]], s[1..]))
    else None
  }

  /** `\s+key(\d)`. */
  function Flag(s: string, key: string): Option<(string, string)>
  {
    var sp :- Plus(s, IsSpace);
    var r :- Lit(sp.1, key);
    OneDigit(r)
  }

  /** `\s+prio:(\w*)\]\s+rloc:(0x[0-9a-fA-F]+)`: the priority and the RLOC16 text. */
  function PrioRloc(s: string): Option<(string, string)>
  {
    var sp :- Plus(s, IsSpace);
    var r :- Lit(sp.1, "prio:");
    var prio := Run(r, WordChar);
    var r2 :- Lit(prio.1, "]");
    var sp2 :- Plus(r2, IsSpace);
    var r3 :- Lit(sp2.1, "rloc:");
    var r4 :- Lit(r3, "0x");
    var hex :- Plus(r4, HexDigit);
    Some((prio.0, "0x" + hex.0))
  }

  /** The groups the pattern captures, in order. */
  datatype Groups = Groups(
    prefix: string, prefixLen: string, origin: string, stable: string,
    onMesh: string, defRoute: string, config: string, dhcp: string, slaac: string, pref: string,
    prio: string, rloc: string)

  /** Everything up to the `.*`: the first four groups and the rest of the line. */
  datatype Head = Head(prefix: string, prefixLen: string, origin: string, stable: string, rest: string)

  function MatchHead(s: string): Option<Head>
  {
    var r0 :- Lit(s, "\t\"");
    var prefix :- Plus(r0, HexOrColon);
    var r1 := Run(prefix.1, IsSpace).1;
    var r2 :- Lit(r1, "prefix_len:");
    var len :- Plus(r2, Digit);
    var os :- MatchOriginStable(len.1);
    Some(Head(prefix.0, len.0, os.0, os.1, os.2))
  }

  /** `\s+origin:(\w*)\s+stable:(\w*)`: the origin, the stable text and the rest of the line. */
  function MatchOriginStable(s: string): Option<(string, string, string)>
  {
    var sp :- Plus(s, IsSpace);
    var r3 :- Lit(sp.1, "origin:");
    var origin := Run(r3, WordChar);
    var sp2 :- Plus(origin.1, IsSpace);
    var r4 :- Lit(sp2.1, "stable:");
    var stable := Run(r4, WordChar);
    Some((origin.0, stable.0, stable.1))
  }

  /** The eight groups after the `.*`. */
  datatype Tail = Tail(onMesh: string, defRoute: string, config: string, dhcp: string, slaac: string, pref: string,
                       prio: string, rloc: string)

  /** The keys of the five flags after `on-mesh`, in the order the pattern wants them. */
  const FlagKeys: seq<string> := ["def-route:", "config:", "dhcp:", "slaac:", "pref:"]

  /** `\s+k1(\d)\s+k2(\d)...` for the keys `keys`: one digit per key and the rest of the line. */
  function Flags(s: string, keys: seq<string>): (r: Option<(seq<string>, string)>)
    ensures r.Some? ==> |r.value.0| == |keys|
    decreases |keys|
  {
    if keys == [] then Some(([], s))
    else
      var f :- Flag(s, keys[0]);
      var more :- Flags(f.1, keys[1..]);
      Some(([f.0] + more.0, more.1))
  }

  /** ` \[on-mesh:(\d)` and the rest of the pattern, from the start of `s`. */
  function MatchTail(s: string): Option<Tail>
  {
    var r :- Lit(s, " [on-mesh:");
    var onMesh :- OneDigit(r);
    var fs :- Flags(onMesh.1, FlagKeys);
    var pr :- PrioRloc(fs.1);
    Some(Tail(onMesh.0, fs.0[0], fs.0[1], fs.0[2], fs.0[3], fs.0[4], pr.0, pr.1))
  }

  /** `.*` can reach offset `i` of `s`: nothing before it is a line break. */
  predicate Reachable(s: string, i: nat)
  {
    i <= |s| && Free(s[..i], '\n')
  }

  /** An offset past the first reachable one is reachable from the second character. */
  lemma ReachableTail(s: string, j: nat)
    requires 1 <= j && Reachable(s, j)
    ensures s[0] != '\n' && Reachable(s[1..], j - 1) && s[1..][j - 1..] == s[j..]
  {
    var pre, u := s[..j], s[1..][..j - 1];
    assert pre[0] == s[0];
    forall k | 0 <= k < |u| ensures u[k] != '\n' {
      assert u[k] == pre[k + 1];
    }
  }

  lemma ReachableCons(s: string, i: nat)
    requires s != [] && s[0] != '\n' && Reachable(s[1..], i)
    ensures Reachable(s, i + 1) && s[1..][i..] == s[i + 1..]
  {
    var pre, u := s[..i + 1], s[1..][..i];
    forall k | 0 <= k < |pre| ensures pre[k] != '\n' {
      if k > 0 { assert pre[k] == u[k - 1]; }
    }
  }

  /**
   * Where the greedy `.*` stops: the latest offset it can reach from which
   * the tail of the pattern matches, or None when there is none.
   */
  function LastTailAt(s: string): (r: Option<nat>)
    ensures r.Some? ==> Reachable(s, r.value) && MatchTail(s[r.value..]).Some?
    ensures r.Some? ==> forall j :: r.value < j <= |s| && Reachable(s, j) ==> MatchTail(s[j..]).None?
    ensures r.None? ==> forall j :: 0 <= j <= |s| && Reachable(s, j) ==> MatchTail(s[j..]).None?
    decreases |s|
  {
    var later := if s != [] && s[0] != '\n' then LastTailAt(s[1..]) else None;
    if later.Some? then
      ReachableCons(s, later.value);
      assert forall j :: later.value + 1 < j <= |s| && Reachable(s, j) ==> MatchTail(s[j..]).None? by {
        forall j | later.value + 1 < j <= |s| && Reachable(s, j) ensures MatchTail(s[j..]).None? {
          ReachableTail(s, j);
        }
      }
      Some(later.value + 1)
    else
      assert forall j :: 1 <= j <= |s| && Reachable(s, j) ==> MatchTail(s[j..]).None? by {
        forall j | 1 <= j <= |s| && Reachable(s, j) ensures MatchTail(s[j..]).None? {
          ReachableTail(s, j);
        }
      }
      assert s[0..] == s;
      if MatchTail(s).Some? then Some(0) else None
  }

  /** `re.match(pattern, text)`: the groups, or None. */
  function MatchPrefix(text: string): Option<Groups>
  {
    var h :- MatchHead(text);
    var at :- LastTailAt(h.rest);
    var t :- MatchTail(h.rest[at..]);
    Some(Groups(h.prefix, h.prefixLen, h.origin, h.stable,
                t.onMesh, t.defRoute, t.config, t.dhcp, t.slaac, t.pref, t.prio, t.rloc))
  }

  // ------------------------------------------------------------ the object

  datatype OnMeshPrefix = OnMeshPrefix(
    prefix: string, prefixLen: string, origin: string, stable: bool,
    onMesh: bool, defRoute: bool, config: bool, dhcp: bool, slaac: bool, preferred: bool,
    priority: string, rloc16: string)

  /**
   * `OnMeshPrefix(text)`. On a line the pattern does not match,
   * `wpan_util.verify` only prints and returns False, and `m.groups()` on
   * `None` then raises AttributeError.
   */
  function ParseOnMeshPrefix(text: string): (r: Result<OnMeshPrefix>)
    ensures r.Err? <==> MatchPrefix(text).None?
    ensures r.Err? ==> r.error == AttributeError
  {
    match MatchPrefix(text)
    case None => Err(AttributeError)
    case Some(g) =>
      Ok(OnMeshPrefix(g.prefix, g.prefixLen, g.origin, g.stable == "yes",
                      g.onMesh == "1", g.defRoute == "1", g.config == "1", g.dhcp == "1", g.slaac == "1", g.pref == "1",
                      g.prio, g.rloc))
  }

  /** `parse_on_mesh_prefix_result`: one object per line between the first and the last. */
  function ParseOnMeshPrefixResult(s: string): (r: Result<seq<OnMeshPrefix>>)
    ensures r.Ok? ==> |r.value| == |WpanTableParser.InteriorLines(s)|
    ensures r.Err? ==> r.error == AttributeError
  {
    WpanTableParser.MapResult(WpanTableParser.InteriorLines(s), ParseOnMeshPrefix)
  }

  // ------------------------------------------------------------ rendering

  /** How `wpanctl` prints a flag: `0` or `1`. */
  function Bit(b: bool): string
  {
    if b then "1" else "0"
  }

  /** ` key:<bit>` followed by the rest of the line. */
  function FlagText(key: string, b: bool, rest: string): string
  {
    " " + (key + (Bit(b) + rest))
  }

  /** One ` key:<bit>` per key, in order, followed by the rest of the line. */
  function FlagsText(keys: seq<string>, bits: seq<bool>, rest: string): string
    requires |bits| == |keys|
    decreases |keys|
  {
    if keys == [] then rest else FlagText(keys[0], bits[0], FlagsText(keys[1..], bits[1..], rest))
  }

  /** ` prio:<prio>] rloc:<rloc>` followed by the rest of the line. */
  function PrioText(prio: string, rloc: string, after: string): string
  {
    " " + ("prio:" + (prio + ("]" + (" " + ("rloc:" + (rloc + after))))))
  }

  function FlagBits(e: OnMeshPrefix): seq<bool>
  {
    [e.defRoute, e.config, e.dhcp, e.slaac, e.preferred]
  }

  /** The bracketed part of a line, from the blank before `[` to the closing quote. */
  function TailText(e: OnMeshPrefix): string
  {
    " [on-mesh:" + (Bit(e.onMesh) + FlagsText(FlagKeys, FlagBits(e), PrioText(e.priority, e.rloc16, "\"")))
  }

  /**
   * One line of `wpanctl config-gateway` output, for instance
   * `\t"fd00:abba::  prefix_len:64  origin:user  stable:yes flags:0x31 [on-mesh:1 def-route:0 config:0 dhcp:0 slaac:1 pref:1 prio:med] rloc:0x0000"`:
   * `pad1` to `pad3` are the blanks between the fields and `flags` is whatever
   * `wpanctl` prints between the `stable:` value and the bracket.
   */
  function PrefixLine(e: OnMeshPrefix, pad1: string, pad2: string, pad3: string, flags: string): string
  {
    "\t\"" + (e.prefix + (pad1 + ("prefix_len:" + (e.prefixLen + OriginStableText(e, pad2, pad3, flags + TailText(e))))))
  }

  function OriginStableText(e: OnMeshPrefix, pad2: string, pad3: string, rest: string): string
  {
    pad2 + ("origin:" + (e.origin + (pad3 + ("stable:" + (WpanTableParser.YesNo(e.stable) + rest)))))
  }

  predicate All(s: string, P: char -> bool)
  {
    forall i :: 0 <= i < |s| ==> P(s[i])
  }

  /** The values `wpanctl` prints for an on-mesh prefix, as the pattern reads them. */
  predicate Printable(e: OnMeshPrefix)
  {
    && e.prefix != [] && All(e.prefix, HexOrColon)
    && e.prefixLen != [] && All(e.prefixLen, Digit)
    && All(e.origin, WordChar)
    && All(e.priority, WordChar)
    && |e.rloc16| > 2 && e.rloc16[..2] == "0x" && All(e.rloc16[2..], HexDigit)
  }

  /** What may sit between `stable:<value>` and the bracket. */
  predicate FlagsBetween(flags: string)
  {
    Free(flags, '\n') && (flags == [] || !WordChar(flags[0]))
  }

  // ------------------------------------------------------------ reading it back

  lemma LitCons(t: string, r: string)
    ensures Lit(t + r, t) == Some(r)
  {
    assert (t + r)[..|t|] == t;
    assert (t + r)[|t|..] == r;
  }

  /** A greedy run stops exactly where the run of `P` characters does. */
  lemma {:induction false} RunCons(w: string, r: string, P: char -> bool)
    requires All(w, P) && (r == [] || !P(r[0]))
    ensures Run(w + r, P) == (w, r)
    decreases |w|
  {
    if w == [] {
      assert w + r == r;
    } else {
      assert (w + r)[1..] == w[1..] + r;
      RunCons(w[1..], r, P);
      assert [w[0]] + w[1..] == w;
    }
  }

  lemma FlagOf(key: string, b: bool, rest: string)
    requires key != [] && !IsSpace(key[0])
    ensures Flag(FlagText(key, b, rest), key) == Some((Bit(b), rest))
  {
    var x := key + (Bit(b) + rest);
    RunCons(" ", x, IsSpace);
    LitCons(key, Bit(b) + rest);
    assert (Bit(b) + rest)[1..] == rest;
  }

  function Bits(bits: seq<bool>): (r: seq<string>)
    ensures |r| == |bits| && forall k :: 0 <= k < |bits| ==> r[k] == Bit(bits[k])
  {
    seq(|bits|, k requires 0 <= k < |bits| => Bit(bits[k]))
  }

  /** Each printed flag reads back as its digit, whatever follows the last one. */
  lemma {:induction false} FlagsOf(keys: seq<string>, bits: seq<bool>, rest: string)
    requires |bits| == |keys|
    requires forall k :: 0 <= k < |keys| ==> keys[k] != [] && !IsSpace(keys[k][0])
    ensures Flags(FlagsText(keys, bits, rest), keys) == Some((Bits(bits), rest))
    decreases |keys|
  {
    if keys != [] {
      assert forall k :: 0 <= k < |keys[1..]| ==> keys[1..][k] == keys[k + 1];
      FlagsOf(keys[1..], bits[1..], rest);
      FlagsStepBits(keys, bits, rest);
    }
  }

  /** `FlagsStep` for the first of the keys and bits. */
  lemma FlagsStepBits(keys: seq<string>, bits: seq<bool>, rest: string)
    requires |bits| == |keys| && keys != [] && keys[0] != [] && !IsSpace(keys[0][0])
    requires Flags(FlagsText(keys[1..], bits[1..], rest), keys[1..]) == Some((Bits(bits[1..]), rest))
    ensures Flags(FlagsText(keys, bits, rest), keys) == Some((Bits(bits), rest))
  {
    FlagsStep(keys[0], bits[0], FlagsText(keys[1..], bits[1..], rest), keys[1..], Bits(bits[1..]), rest);
    assert [keys[0]] + keys[1..] == keys;
    assert [Bit(bits[0])] + Bits(bits[1..]) == Bits(bits);
  }

  /** A flag in front of flags that read back reads back too. */
  lemma FlagsStep(key: string, b: bool, more: string, keys: seq<string>, ds: seq<string>, rest: string)
    requires key != [] && !IsSpace(key[0])
    requires Flags(more, keys) == Some((ds, rest))
    ensures Flags(FlagText(key, b, more), [key] + keys) == Some(([Bit(b)] + ds, rest))
  {
    FlagOf(key, b, more);
    assert ([key] + keys)[1..] == keys;
    FlagsCons(FlagText(key, b, more), [key] + keys, Bit(b), more, ds, rest);
  }

  /** One flag read, then the others. */
  lemma FlagsCons(s: string, keys: seq<string>, d: string, mid: string, ds: seq<string>, rest: string)
    requires keys != [] && Flag(s, keys[0]) == Some((d, mid)) && Flags(mid, keys[1..]) == Some((ds, rest))
    ensures Flags(s, keys) == Some(([d] + ds, rest))
  {
  }

  lemma PrioOf(prio: string, hex: string, after: string)
    requires All(prio, WordChar) && hex != [] && All(hex, HexDigit)
    requires after == [] || !HexDigit(after[0])
    ensures PrioRloc(PrioText(prio, "0x" + hex, after)) == Some((prio, "0x" + hex))
  {
    var r4 := hex + after;
    var r3 := "0x" + r4;
    var r2 := " " + ("rloc:" + ("0x" + hex + after));
    assert "0x" + hex + after == r3;
    var r1 := prio + ("]" + r2);
    RunCons(" ", "prio:" + r1, IsSpace);
    LitCons("prio:", r1);
    RunCons(prio, "]" + r2, WordChar);
    LitCons("]", r2);
    RunCons(" ", "rloc:" + r3, IsSpace);
    LitCons("rloc:", r3);
    LitCons("0x", r4);
    RunCons(hex, after, HexDigit);
  }

  lemma PrioOfPrintable(e: OnMeshPrefix)
    requires Printable(e)
    ensures PrioRloc(PrioText(e.priority, e.rloc16, "\"")) == Some((e.priority, e.rloc16))
  {
    assert e.rloc16 == "0x" + e.rloc16[2..];
    PrioOf(e.priority, e.rloc16[2..], "\"");
  }

  /** The tail pattern from its first character, given what the flags and the priority read. */
  lemma TailSteps(b: bool, f: string, bits: seq<string>, p: string, prio: string, rloc: string)
    requires Flags(f, FlagKeys) == Some((bits, p)) && PrioRloc(p) == Some((prio, rloc))
    ensures MatchTail(" [on-mesh:" + (Bit(b) + f)) ==
      Some(Tail(Bit(b), bits[0], bits[1], bits[2], bits[3], bits[4], prio, rloc))
  {
    LitCons(" [on-mesh:", Bit(b) + f);
    assert (Bit(b) + f)[1..] == f;
  }

  /** The tail pattern reads back the flags, the priority and the RLOC16 of a printed line. */
  lemma TailOf(e: OnMeshPrefix)
    requires Printable(e)
    ensures MatchTail(TailText(e)) ==
      Some(Tail(Bit(e.onMesh), Bit(e.defRoute), Bit(e.config), Bit(e.dhcp), Bit(e.slaac), Bit(e.preferred),
                e.priority, e.rloc16))
  {
    var p := PrioText(e.priority, e.rloc16, "\"");
    var f := FlagsText(FlagKeys, FlagBits(e), p);
    FlagsOf(FlagKeys, FlagBits(e), p);
    PrioOfPrintable(e);
    TailSteps(e.onMesh, f, Bits(FlagBits(e)), p, e.priority, e.rloc16);
  }

  /** A character that neither a flag's text nor the rest holds is absent from the printed flags. */
  lemma {:induction false} FlagsFree(keys: seq<string>, bits: seq<bool>, rest: string, c: char)
    requires |bits| == |keys| && c != ' ' && c != '0' && c != '1' && Free(rest, c)
    requires forall k :: 0 <= k < |keys| ==> Free(keys[k], c)
    ensures Free(FlagsText(keys, bits, rest), c)
    decreases |keys|
  {
    if keys != [] {
      var more := FlagsText(keys[1..], bits[1..], rest);
      FlagsFree(keys[1..], bits[1..], rest, c);
      var t := FlagText(keys[0], bits[0], more);
      forall i | 0 <= i < |t| ensures t[i] != c {
        if 1 + |keys[0]| + 1 <= i { assert t[i] == more[i - |keys[0]| - 2]; }
        else if 1 <= i < 1 + |keys[0]| { assert t[i] == keys[0][i - 1]; }
      }
    }
  }

  lemma PrioFree(e: OnMeshPrefix, c: char)
    requires Printable(e) && (c == '[' || c == '\n')
    ensures Free(PrioText(e.priority, e.rloc16, "\""), c)
  {
    var p := PrioText(e.priority, e.rloc16, "\"");
    var a := " prio:";
    var b := e.priority;
    var d := "] rloc:";
    var f := e.rloc16 + "\"";
    assert p == a + b + d + f;
    forall i | 0 <= i < |p| ensures p[i] != c {
      if i < |a| { assert p[i] == a[i]; }
      else if i < |a| + |b| { assert p[i] == b[i - |a|]; assert WordChar(b[i - |a|]); }
      else if i < |a| + |b| + |d| { assert p[i] == d[i - |a| - |b|]; }
      else {
        var j := i - |a| - |b| - |d|;
        assert p[i] == f[j];
        if 2 <= j < |e.rloc16| { assert f[j] == e.rloc16[2..][j - 2]; assert HexDigit(e.rloc16[2..][j - 2]); }
        else if j < 2 { assert f[j] == e.rloc16[..2][j]; }
      }
    }
  }

  lemma TailStartFree(b: bool, f: string, c: char)
    requires Free(f, c) && c != ' ' && c != '0' && c != '1' && Free("on-mesh:", c)
    ensures Free((" [on-mesh:" + (Bit(b) + f))[2..], c)
  {
    var u := (" [on-mesh:" + (Bit(b) + f))[2..];
    assert u == "on-mesh:" + Bit(b) + f;
    forall i | 0 <= i < |u| ensures u[i] != c {
      if i >= 9 { assert u[i] == f[i - 9]; }
    }
  }

  /** After its first two characters the bracketed part holds no `[`, and none of it holds a line break. */
  lemma TailTextFree(e: OnMeshPrefix, c: char)
    requires Printable(e) && (c == '[' || c == '\n')
    ensures Free(TailText(e)[2..], c)
  {
    var p := PrioText(e.priority, e.rloc16, "\"");
    PrioFree(e, c);
    FlagsFree(FlagKeys, FlagBits(e), p, c);
    TailStartFree(e.onMesh, FlagsText(FlagKeys, FlagBits(e), p), c);
  }

  /** The tail pattern needs a `[` at its second character. */
  lemma NoTailAfterStart(s: string, m: nat)
    requires 1 <= m <= |s| && |s| >= 2 && Free(s[2..], '[')
    ensures MatchTail(s[m..]).None?
  {
    var u := s[m..];
    if |u| >= 10 {
      assert u[1] == s[2..][m - 1];
      assert u[..10][1] == u[1];
    }
    assert Lit(u, " [on-mesh:").None?;
  }

  /** The latest reachable offset where the tail matches is `i`, if nothing after it matches. */
  lemma LastTailAtIs(s: string, i: nat)
    requires Reachable(s, i) && MatchTail(s[i..]).Some?
    requires forall j :: i < j <= |s| ==> MatchTail(s[j..]).None?
    ensures LastTailAt(s) == Some(i)
  {
  }

  /**
   * The greedy `.*` stops right before a text the tail matches when no `[`
   * follows its second character and no line break comes before it.
   */
  lemma LastTailOfText(flags: string, t: string)
    requires Free(flags, '\n') && |t| >= 2 && MatchTail(t).Some? && Free(t[2..], '[')
    ensures LastTailAt(flags + t) == Some(|flags|)
  {
    var s := flags + t;
    assert s[|flags|..] == t;
    assert s[..|flags|] == flags;
    forall j | |flags| < j <= |s| ensures MatchTail(s[j..]).None? {
      assert s[j..] == t[j - |flags|..];
      NoTailAfterStart(t, j - |flags|);
    }
    LastTailAtIs(s, |flags|);
  }

  /** The greedy `.*` stops right before the bracketed part, whatever flags precede it. */
  lemma LastTailOfLine(e: OnMeshPrefix, flags: string)
    requires Printable(e) && Free(flags, '\n')
    ensures LastTailAt(flags + TailText(e)) == Some(|flags|)
  {
    TailOf(e);
    TailTextFree(e, '[');
    LastTailOfText(flags, TailText(e));
  }

  /** The second half of the head pattern reads back the origin and the stable text. */
  lemma OriginStableOf(e: OnMeshPrefix, pad2: string, pad3: string, rest: string)
    requires Printable(e) && pad2 != [] && All(pad2, IsSpace) && pad3 != [] && All(pad3, IsSpace)
    requires rest == [] || !WordChar(rest[0])
    ensures MatchOriginStable(OriginStableText(e, pad2, pad3, rest)) ==
      Some((e.origin, WpanTableParser.YesNo(e.stable), rest))
  {
    var r8 := WpanTableParser.YesNo(e.stable) + rest;
    var r7 := "stable:" + r8;
    var r6 := pad3 + r7;
    var r5 := e.origin + r6;
    var r4 := "origin:" + r5;
    RunCons(pad2, r4, IsSpace);
    LitCons("origin:", r5);
    RunCons(e.origin, r6, WordChar);
    RunCons(pad3, r7, IsSpace);
    LitCons("stable:", r8);
    RunCons(WpanTableParser.YesNo(e.stable), rest, WordChar);
  }

  /** The head of the pattern reads back the four leading fields of a printed line. */
  lemma HeadOf(e: OnMeshPrefix, pad1: string, pad2: string, pad3: string, rest: string)
    requires Printable(e) && All(pad1, IsSpace) && pad2 != [] && All(pad2, IsSpace) && pad3 != [] && All(pad3, IsSpace)
    requires rest == [] || !WordChar(rest[0])
    ensures MatchHead("\t\"" + (e.prefix + (pad1 + ("prefix_len:" + (e.prefixLen + OriginStableText(e, pad2, pad3, rest)))))) ==
      Some(Head(e.prefix, e.prefixLen, e.origin, WpanTableParser.YesNo(e.stable), rest))
  {
    var r3 := OriginStableText(e, pad2, pad3, rest);
    var r2 := e.prefixLen + r3;
    var r1 := "prefix_len:" + r2;
    var r0 := pad1 + r1;
    LitCons("\t\"", e.prefix + r0);
    assert r0[0] == if pad1 == [] then 'p' else pad1[0];
    RunCons(e.prefix, r0, HexOrColon);
    RunCons(pad1, r1, IsSpace);
    LitCons("prefix_len:", r2);
    assert r3[0] == pad2[0];
    RunCons(e.prefixLen, r3, Digit);
    OriginStableOf(e, pad2, pad3, rest);
  }

  /** The whole pattern, given what its three parts read. */
  lemma ParseSteps(text: string, h: Head, at: nat, t: Tail)
    requires MatchHead(text) == Some(h) && LastTailAt(h.rest) == Some(at) && at <= |h.rest|
    requires MatchTail(h.rest[at..]) == Some(t)
    ensures ParseOnMeshPrefix(text) ==
      Ok(OnMeshPrefix(h.prefix, h.prefixLen, h.origin, h.stable == "yes",
                      t.onMesh == "1", t.defRoute == "1", t.config == "1", t.dhcp == "1", t.slaac == "1", t.pref == "1",
                      t.prio, t.rloc))
  {
  }

  /** Reading a printed line gives back the prefix it was printed from. */
  lemma OnMeshPrefixRoundTrip(e: OnMeshPrefix, pad1: string, pad2: string, pad3: string, flags: string)
    requires Printable(e) && All(pad1, IsSpace) && pad2 != [] && All(pad2, IsSpace) && pad3 != [] && All(pad3, IsSpace)
    requires FlagsBetween(flags)
    ensures ParseOnMeshPrefix(PrefixLine(e, pad1, pad2, pad3, flags)) == Ok(e)
  {
    var rest := flags + TailText(e);
    assert rest[0] == if flags == [] then ' ' else flags[0];
    HeadOf(e, pad1, pad2, pad3, rest);
    LastTailOfLine(e, flags);
    assert rest[|flags|..] == TailText(e);
    TailOf(e);
    ParseSteps(PrefixLine(e, pad1, pad2, pad3, flags), Head(e.prefix, e.prefixLen, e.origin, WpanTableParser.YesNo(e.stable), rest),
               |flags|, Tail(Bit(e.onMesh), Bit(e.defRoute), Bit(e.config), Bit(e.dhcp), Bit(e.slaac), Bit(e.preferred),
                             e.priority, e.rloc16));
  }

  /** A list of lines that each read as a prefix reads, between its brackets, as those prefixes in order. */
  lemma OnMeshPrefixResultOf(lines: seq<string>, es: seq<OnMeshPrefix>)
    requires |lines| == |es|
    requires forall k :: 0 <= k < |lines| ==> Free(lines[k], '\n') && ParseOnMeshPrefix(lines[k]) == Ok(es[k])
    ensures ParseOnMeshPrefixResult(WpanTableParser.Table(lines)) == Ok(es)
  {
    WpanTableParser.TableInterior(lines);
    WpanTableParser.MapResultAll(lines, ParseOnMeshPrefix, es);
  }

  function PrefixLines(es: seq<OnMeshPrefix>, pad1: string, pad2: string, pad3: string, flags: string): (r: seq<string>)
    ensures |r| == |es| && forall k :: 0 <= k < |es| ==> r[k] == PrefixLine(es[k], pad1, pad2, pad3, flags)
  {
    seq(|es|, k requires 0 <= k < |es| => PrefixLine(es[k], pad1, pad2, pad3, flags))
  }

  /** Text made of characters of a class holds no character outside it. */
  lemma AllFree(s: string, P: char -> bool, c: char)
    requires All(s, P) && !P(c)
    ensures Free(s, c)
  {
  }

  /** The bracketed part of a printed line holds no line break. */
  lemma TailNoNewline(e: OnMeshPrefix)
    requires Printable(e)
    ensures Free(TailText(e), '\n')
  {
    var t := TailText(e);
    TailTextFree(e, '\n');
    FreeConcat(" [", t[2..], '\n');
    assert " [" + t[2..] == t;
  }

  /** The origin and stable fields add no line break to what follows them. */
  lemma OriginStableFree(e: OnMeshPrefix, pad2: string, pad3: string, rest: string)
    requires Printable(e) && Free(pad2, '\n') && Free(pad3, '\n') && Free(rest, '\n')
    ensures Free(OriginStableText(e, pad2, pad3, rest), '\n')
  {
    AllFree(e.origin, WordChar, '\n');
    WpanTableParser.YesNoPlain(e.stable);
    var yes := WpanTableParser.YesNo(e.stable);
    FreeConcat(yes, rest, '\n');
    FreeConcat("stable:", yes + rest, '\n');
    FreeConcat(pad3, "stable:" + (yes + rest), '\n');
    FreeConcat(e.origin, pad3 + ("stable:" + (yes + rest)), '\n');
    FreeConcat("origin:", e.origin + (pad3 + ("stable:" + (yes + rest))), '\n');
    FreeConcat(pad2, "origin:" + (e.origin + (pad3 + ("stable:" + (yes + rest)))), '\n');
  }

  /** A printed prefix line holds no line break when the blanks between its fields hold none. */
  lemma PrefixLineFree(e: OnMeshPrefix, pad1: string, pad2: string, pad3: string, flags: string)
    requires Printable(e) && FlagsBetween(flags)
    requires Free(pad1, '\n') && Free(pad2, '\n') && Free(pad3, '\n')
    ensures Free(PrefixLine(e, pad1, pad2, pad3, flags), '\n')
  {
    TailNoNewline(e);
    FreeConcat(flags, TailText(e), '\n');
    OriginStableFree(e, pad2, pad3, flags + TailText(e));
    var os := OriginStableText(e, pad2, pad3, flags + TailText(e));
    AllFree(e.prefix, HexOrColon, '\n');
    AllFree(e.prefixLen, Digit, '\n');
    FreeConcat(e.prefixLen, os, '\n');
    FreeConcat("prefix_len:", e.prefixLen + os, '\n');
    FreeConcat(pad1, "prefix_len:" + (e.prefixLen + os), '\n');
    FreeConcat(e.prefix, pad1 + ("prefix_len:" + (e.prefixLen + os)), '\n');
    FreeConcat("\t\"", e.prefix + (pad1 + ("prefix_len:" + (e.prefixLen + os))), '\n');
  }

  /** `parse_on_mesh_prefix_result` of a printed table returns its prefixes, in order. */
  lemma OnMeshPrefixTableRoundTrip(es: seq<OnMeshPrefix>, pad1: string, pad2: string, pad3: string, flags: string)
    requires forall k :: 0 <= k < |es| ==> Printable(es[k])
    requires All(pad1, IsSpace) && pad2 != [] && All(pad2, IsSpace) && pad3 != [] && All(pad3, IsSpace)
    requires Free(pad1, '\n') && Free(pad2, '\n') && Free(pad3, '\n')
    requires FlagsBetween(flags)
    ensures ParseOnMeshPrefixResult(WpanTableParser.Table(PrefixLines(es, pad1, pad2, pad3, flags))) == Ok(es)
  {
    var lines := PrefixLines(es, pad1, pad2, pad3, flags);
    forall k | 0 <= k < |es| ensures Free(lines[k], '\n') && ParseOnMeshPrefix(lines[k]) == Ok(es[k]) {
      OnMeshPrefixRoundTrip(es[k], pad1, pad2, pad3, flags);
      PrefixLineFree(es[k], pad1, pad2, pad3, flags);
    }
    OnMeshPrefixResultOf(lines, es);
  }
}
