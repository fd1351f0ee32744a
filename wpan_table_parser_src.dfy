/**
 * The two places where src/tools/wpan_table_parser.py parts ways with
 * silk/tools/wpan_table_parser.py; every other parser of the src/ tree is
 * the silk one, which WpanTableParser models.
 *
 *  - `ChildAddressEntry` (src/tools/wpan_table_parser.py:34-51) splits the
 *    line body on whitespace and drops one trailing comma per item, where the
 *    silk copy splits on `', '` at most twice.
 *  - `parse_child_table_address_result` (src/tools/wpan_table_parser.py:133-138)
 *    drops a last interior line that CONTAINS `]`, like the child table,
 *    where the silk copy drops it only when it IS `]`.
 */
module WpanTableParserSrc {
  import opened PyCore
  import W = WpanTableParser
  import CommandLine

  /** `ChildAddressEntry(text)` of the src/ tree. */
  function ParseChildAddressEntry(text: string): (r: Result<W.ChildAddressEntry>)
    ensures W.Tokens(text) == [] ==> r == Err(IndexError)
    ensures r.Ok? ==> r.value.extAddress == W.Tokens(text)[0]
  {
    var items := W.Tokens(text);
    if items == [] then Err(IndexError)
    else
      var d :- W.FieldDict(items[1..], 1);
      var rloc16 :- W.Lookup(d, "RLOC16");
      Ok(W.ChildAddressEntry(items[0], rloc16, if "IPv6Addrs" in d then d["IPv6Addrs"] else ""))
  }

  /** `parse_child_table_address_result` of the src/ tree: the child table's trailer rule. */
  function ParseChildTableAddressResult(s: string): (r: Result<seq<W.ChildAddressEntry>>)
    ensures r.Ok? ==> |r.value| == |W.ChildTableLines(s)|
  {
    W.MapResult(W.ChildTableLines(s), ParseChildAddressEntry)
  }

  // ------------------------------------------------------------ lemmas

  lemma PrefixedWord(k: string, v: string)
    requires NoSpace(k) && IsWord(v)
    ensures IsWord(k + v) && (k + v)[|k + v| - 1] == v[|v| - 1]
  {
    var w := k + v;
    forall j | 0 <= j < |w| ensures !IsSpace(w[j]) { if j >= |k| { assert w[j] == v[j - |k|]; } }
  }

  lemma PrefixedNoSpace(k: string, v: string)
    requires NoSpace(k) && NoSpace(v)
    ensures NoSpace(k + v) && (v != [] ==> (k + v)[|k + v| - 1] == v[|v| - 1])
  {
    var w := k + v;
    forall j | 0 <= j < |w| ensures !IsSpace(w[j]) { if j >= |k| { assert w[j] == v[j - |k|]; } }
  }

  /** The three printed items of a child-address line. */
  lemma ChildAddressTokens(e: W.ChildAddressEntry)
    requires IsWord(e.extAddress) && NoSpace(e.rloc16) && NoSpace(e.ipv6Address)
    requires e.ipv6Address != [] ==> e.ipv6Address[|e.ipv6Address| - 1] != ','
    ensures W.Tokens(W.ChildAddressLine(e)) == [e.extAddress, "RLOC16:" + e.rloc16, "IPv6Addrs:" + e.ipv6Address]
  {
    var toks := [e.extAddress, "RLOC16:" + e.rloc16, "IPv6Addrs:" + e.ipv6Address];
    PrefixedNoSpace("RLOC16:", e.rloc16);
    PrefixedNoSpace("IPv6Addrs:", e.ipv6Address);
    W.LineTokens(toks);
  }

  /**
   * A line whose fields are single words reads back as the entry it was
   * printed from; the address list may hold colons but no blank.
   */
  lemma ChildAddressEntryRoundTrip(e: W.ChildAddressEntry)
    requires IsWord(e.extAddress) && NoSpace(e.rloc16) && NoSpace(e.ipv6Address)
    requires e.ipv6Address != [] ==> e.ipv6Address[|e.ipv6Address| - 1] != ','
    ensures ParseChildAddressEntry(W.ChildAddressLine(e)) == Ok(e)
  {
    ChildAddressTokens(e);
    var items := W.Tokens(W.ChildAddressLine(e));
    assert items[1..] == ["RLOC16:" + e.rloc16, "IPv6Addrs:" + e.ipv6Address];
    W.ChildAddressFields(e.rloc16, e.ipv6Address);
  }

  /** A child-address line that lists two addresses has four items. */
  lemma TwoAddressLine(ext: string, rloc16: string, a: string, b: string)
    ensures W.ChildAddressLine(W.ChildAddressEntry(ext, rloc16, a + ", " + b)) ==
      W.Line([ext, "RLOC16:" + rloc16, "IPv6Addrs:" + a, b])
  {
    var r, i := "RLOC16:" + rloc16, "IPv6Addrs:";
    W.Join3(ext, r, i + (a + ", " + b));
    var toks := [ext, r, i + a, b];
    assert toks[1..] == [r, i + a, b];
    W.Join3(r, i + a, b);
    assert i + (a + ", " + b) == (i + a) + ", " + b;
  }

  /** The tokens of a child-address line that lists two addresses. */
  lemma TwoAddressTokens(ext: string, rloc16: string, a: string, b: string)
    requires IsWord(ext) && IsWord(rloc16) && IsWord(a) && IsWord(b) && b[|b| - 1] != ','
    ensures W.Tokens(W.ChildAddressLine(W.ChildAddressEntry(ext, rloc16, a + ", " + b))) ==
      [ext, "RLOC16:" + rloc16, "IPv6Addrs:" + a, b]
  {
    TwoAddressLine(ext, rloc16, a, b);
    PrefixedWord("RLOC16:", rloc16);
    PrefixedWord("IPv6Addrs:", a);
    W.LineTokens([ext, "RLOC16:" + rloc16, "IPv6Addrs:" + a, b]);
  }

  /** The dictionary of the three items src/ reads from a two-address line. */
  lemma ThreeFields(rloc16: string, a: string, k: string, v: string)
    requires Free(k, ':') && k != "RLOC16" && k != "IPv6Addrs"
    ensures var d := W.FieldDict(["RLOC16:" + rloc16, "IPv6Addrs:" + a, k + ":" + v], 1);
      d.Ok? && W.Lookup(d.value, "RLOC16") == Ok(rloc16) && "IPv6Addrs" in d.value && d.value["IPv6Addrs"] == a
  {
    var fs := [("RLOC16", rloc16), ("IPv6Addrs", a), (k, v)];
    var items := W.FieldItems(fs);
    assert items[0] == "RLOC16:" + rloc16;
    assert items[1] == "IPv6Addrs:" + a;
    assert items == ["RLOC16:" + rloc16, "IPv6Addrs:" + a, k + ":" + v];
    assert Free("RLOC16", ':') && Free("IPv6Addrs", ':');
    W.FieldDictItems(fs, 1);
    W.MapOfLast(fs, 0);
    W.MapOfLast(fs, 1);
  }

  /**
   * src/ reads a child-address line that lists two addresses, the second
   * being `k:v`, as an entry whose address list stops at the first blank.
   */
  lemma SrcTwoAddresses(ext: string, rloc16: string, a: string, k: string, v: string)
    requires IsWord(ext) && IsWord(rloc16) && IsWord(a)
    requires k != [] && NoSpace(k) && Free(k, ':') && k != "RLOC16" && k != "IPv6Addrs"
    requires IsWord(v) && v[|v| - 1] != ','
    ensures ParseChildAddressEntry(W.ChildAddressLine(W.ChildAddressEntry(ext, rloc16, a + ", " + (k + ":" + v)))) ==
            Ok(W.ChildAddressEntry(ext, rloc16, a))
  {
    var b := k + ":" + v;
    PrefixedWord(k + ":", v);
    TwoAddressTokens(ext, rloc16, a, b);
    var items := [ext, "RLOC16:" + rloc16, "IPv6Addrs:" + a, b];
    assert items[1..] == ["RLOC16:" + rloc16, "IPv6Addrs:" + a, b];
    ThreeFields(rloc16, a, k, v);
  }

  /**
   * On a child with two addresses the trees disagree: silk keeps the whole
   * list, src keeps the text up to its first blank. The second address,
   * `k:v`, becomes an extra field of its own.
   */
  lemma ChildAddressSplitsDiffer(ext: string, rloc16: string, a: string, k: string, v: string)
    requires IsWord(ext) && Free(ext, ',') && IsWord(rloc16) && Free(rloc16, ',') && IsWord(a)
    requires k != [] && NoSpace(k) && Free(k, ':') && k != "RLOC16" && k != "IPv6Addrs"
    requires IsWord(v) && v[|v| - 1] != ','
    ensures var e := W.ChildAddressEntry(ext, rloc16, a + ", " + (k + ":" + v));
      && W.ParseChildAddressEntry(W.ChildAddressLine(e)) == Ok(e)
      && ParseChildAddressEntry(W.ChildAddressLine(e)) == Ok(W.ChildAddressEntry(ext, rloc16, a))
  {
    W.ChildAddressEntryRoundTrip(W.ChildAddressEntry(ext, rloc16, a + ", " + (k + ":" + v)));
    SrcTwoAddresses(ext, rloc16, a, k, v);
  }

  /** The src/ child-address trailer rule drops the closing line the silk rule trips over. */
  lemma ChildAddressTrailerDiffers()
    ensures ParseChildTableAddressResult("[\n ]\n") == Ok([])
    ensures W.ParseChildTableAddressResult("[\n ]\n") == Err(KeyError)
  {
    W.ChildTrailerRulesDiffer();
  }

  /** With the contains rule, a printed child-address table reads back as its entries. */
  lemma ChildAddressTableRoundTrip(es: seq<W.ChildAddressEntry>)
    requires forall k :: 0 <= k < |es| ==> IsWord(es[k].extAddress) && NoSpace(es[k].rloc16) && NoSpace(es[k].ipv6Address)
    requires forall k :: 0 <= k < |es| ==> es[k].ipv6Address != [] ==> es[k].ipv6Address[|es[k].ipv6Address| - 1] != ','
    requires es != [] ==> Free(W.ChildAddressLine(es[|es| - 1]), ']')
    ensures ParseChildTableAddressResult(W.Table(W.ChildAddressLines(es))) == Ok(es)
  {
    var lines := W.ChildAddressLines(es);
    forall k | 0 <= k < |es| ensures Free(lines[k], '\n') && ParseChildAddressEntry(lines[k]) == Ok(es[k]) {
      ChildAddressEntryRoundTrip(es[k]);
      W.NoSpaceNoNewline(es[k].extAddress);
      W.NoSpaceNoNewline(es[k].rloc16);
      W.NoSpaceNoNewline(es[k].ipv6Address);
      W.ChildAddressLineFree(es[k]);
    }
    W.ChildTableLinesOf(lines);
    W.MapResultAll(lines, ParseChildAddressEntry, es);
  }

  /**
   * As written, the src/ trailer rule drops the last printed child whenever
   * its address list holds `]`, as every `IPv6Addrs:[...]` line does, unless
   * the output ends in a line break; the silk/ rule keeps it.
   */
  lemma SrcDropsBracketedLast(e: W.ChildAddressEntry)
    requires Free(e.extAddress, ',') && Free(e.rloc16, ',')
    requires Free(e.extAddress, '\n') && Free(e.rloc16, '\n') && Free(e.ipv6Address, '\n')
    requires !Free(e.ipv6Address, ']')
    ensures ParseChildTableAddressResult(W.Table([W.ChildAddressLine(e)])) == Ok([])
    ensures W.ParseChildTableAddressResult(W.Table([W.ChildAddressLine(e)])) == Ok([e])
  {
    var line := W.ChildAddressLine(e);
    W.ChildAddressLineFree(e);
    W.TableInterior([line]);
    LineHoldsAddress(e);
    W.ContainsChar(line, ']');
    W.ChildAddressTableRoundTrip([e]);
    assert W.ChildAddressLines([e]) == [line];
  }

  /** Every character of the address list appears in the printed line. */
  lemma LineHoldsAddress(e: W.ChildAddressEntry)
    ensures forall c :: !Free(e.ipv6Address, c) ==> !Free(W.ChildAddressLine(e), c)
  {
    var a := e.ipv6Address;
    var head := "\t\"" + e.extAddress + ", " + ("RLOC16:" + e.rloc16) + ", " + "IPv6Addrs:";
    W.Join3(e.extAddress, "RLOC16:" + e.rloc16, "IPv6Addrs:" + a);
    assert W.ChildAddressLine(e) == head + a + "\"";
    forall c | !Free(a, c) ensures !Free(W.ChildAddressLine(e), c) {
      var i :| 0 <= i < |a| && a[i] == c;
      assert W.ChildAddressLine(e)[|head| + i] == c;
    }
  }

  /** Output that ends in a line break reads back whole under the src/ rule, brackets and all. */
  lemma ChildAddressTableNewlineRoundTrip(es: seq<W.ChildAddressEntry>)
    requires forall k :: 0 <= k < |es| ==> IsWord(es[k].extAddress) && NoSpace(es[k].rloc16) && NoSpace(es[k].ipv6Address)
    requires forall k :: 0 <= k < |es| ==> es[k].ipv6Address != [] ==> es[k].ipv6Address[|es[k].ipv6Address| - 1] != ','
    ensures ParseChildTableAddressResult(W.Table(W.ChildAddressLines(es)) + "\n") == Ok(es)
  {
    var lines := W.ChildAddressLines(es);
    forall k | 0 <= k < |es| ensures Free(lines[k], '\n') && ParseChildAddressEntry(lines[k]) == Ok(es[k]) {
      ChildAddressEntryRoundTrip(es[k]);
      W.NoSpaceNoNewline(es[k].extAddress);
      W.NoSpaceNoNewline(es[k].rloc16);
      W.NoSpaceNoNewline(es[k].ipv6Address);
      W.ChildAddressLineFree(es[k]);
    }
    NewlineTableLines(lines);
    W.MapResultAll(lines, ParseChildAddressEntry, es);
  }

  /** With a final line break, the closing `]` is the last interior line, and it is the one the rule drops. */
  lemma NewlineTableLines(lines: seq<string>)
    requires forall k :: 0 <= k < |lines| ==> Free(lines[k], '\n')
    ensures W.ChildTableLines(W.Table(lines) + "\n") == lines
  {
    var all := ["["] + lines + ["]"];
    var parts := all + [""];
    CommandLine.JoinAppend("\n", all, [""]);
    assert W.Table(lines) + "\n" == Join("\n", parts);
    forall k | 0 <= k < |parts| ensures Free(parts[k], '\n') {
      if 0 < k <= |lines| { assert parts[k] == lines[k - 1]; }
    }
    SplitOnJoin(parts, '\n');
    assert W.InteriorLines(W.Table(lines) + "\n") == lines + ["]"] by {
      assert parts[1..|parts| - 1] == lines + ["]"];
    }
    W.ContainsChar("]", ']');
    assert (lines + ["]"])[..|lines|] == lines;
  }
}
