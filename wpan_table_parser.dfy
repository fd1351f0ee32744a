/**
 * Parsers for what `wpanctl` prints: the child, child-address, neighbor,
 * router and address-cache tables, the scan tables, bracketed lists and the
 * on-mesh prefix list (silk/tools/wpan_table_parser.py). Every parser is a
 * total function into `Result`: the Python exception a malformed line raises
 * becomes an `Err` of that exception class.
 *
 * The src/ tree's parsers are the same code except for `ChildAddressEntry`
 * and the child-address trailer rule, which WpanTableParserSrc models.
 */
module WpanTableParser {
  import opened PyCore
  import opened PyInt

  // ------------------------------------------------------------ line shape

  /** `text[2:-1]`: a table line without its leading `\t"` and its closing `"`. */
  function Body(text: string): string
  {
    Slice(text, 2, -1)
  }

  /** `item[:-1] if item[-1] == ',' else item`. */
  function DropComma(item: string): string
  {
    if item != [] && item[|item| - 1] == ',' then item[..|item| - 1] else item
  }

  /** The tokens of a table line: its body split on whitespace, one trailing comma off each. */
  function Tokens(text: string): seq<string>
  {
    var words := SplitWs(Body(text));
    seq(|words|, k requires 0 <= k < |words| => DropComma(words[k]))
  }

  /** `item.split(':', maxsplit)[0]` and `[1]`; without a colon the second raises IndexError. */
  function KeyValue(item: string, maxsplit: int): (r: Result<(string, string)>)
    ensures r.Err? ==> r.error == IndexError
  {
    var parts := Split(item, ":", maxsplit);
    if |parts| < 2 then Err(IndexError) else Ok((parts[0], parts[1]))
  }

  /**
   * `{key(item): value(item) for item in items}`: the first item without a
   * colon raises, and a later item overrides an earlier one with the same key.
   */
  function FieldDict(items: seq<string>, maxsplit: int): (r: Result<map<string, string>>)
    ensures r.Err? ==> r.error == IndexError
    decreases |items|
  {
    if items == [] then Ok(map[])
    else
      var kv :- KeyValue(items[0], maxsplit);
      var rest :- FieldDict(items[1..], maxsplit);
      Ok(if kv.0 in rest then rest else rest[kv.0 := kv.1])
  }

  /** `d[k]`. */
  function Lookup(d: map<string, string>, k: string): Result<string>
  {
    if k in d then Ok(d[k]) else Err(KeyError)
  }

  /**
   * A list comprehension `[f(x) for x in xs]`: one result per element, in
   * order, or the exception of the first element whose `f` raises.
   */
  function MapResult<T>(xs: seq<string>, f: string -> Result<T>): (r: Result<seq<T>>)
    ensures r.Ok? <==> forall k :: 0 <= k < |xs| ==> f(xs[k]).Ok?
    ensures r.Ok? ==> |r.value| == |xs| && forall k :: 0 <= k < |xs| ==> f(xs[k]) == Ok(r.value[k])
    ensures r.Err? ==> exists k :: 0 <= k < |xs| && f(xs[k]) == Err(r.error) && forall j :: 0 <= j < k ==> f(xs[j]).Ok?
    decreases |xs|
  {
    if xs == [] then Ok([])
    else
      match f(xs[0])
      case Err(e) => Err(e)
      case Ok(y) =>
        match MapResult(xs[1..], f)
        case Err(e) =>
          ghost var k :| 0 <= k < |xs[1..]| && f(xs[1..][k]) == Err(e) && forall j :: 0 <= j < k ==> f(xs[1..][j]).Ok?;
          assert f(xs[k + 1]) == Err(e);
          Err(e)
        case Ok(ys) => Ok([y] + ys)
  }

  /** `s.split('\n')[1:-1]`: the lines between the opening and the closing line. */
  function InteriorLines(s: string): seq<string>
  {
    Slice(SplitOn(s, '\n'), 1, -1)
  }

  // ------------------------------------------------------------ entries

  datatype ChildAddressEntry = ChildAddressEntry(extAddress: string, rloc16: string, ipv6Address: string)

  datatype ChildEntry = ChildEntry(
    extAddress: string, rloc16: string, timeout: string,
    rxOnIdle: bool, ftd: bool, secDataReq: bool, fullNetData: bool)

  datatype NeighborEntry = NeighborEntry(extAddress: string, rloc16: string, isChild: bool, rxOnIdle: bool, ftd: bool)

  datatype RouterTableEntry = RouterTableEntry(
    extAddress: string, rloc16: int, routerId: int, nextHop: int, pathCost: int, age: int, linkEstablished: bool)

  datatype AddressCacheEntry = AddressCacheEntry(address: string, rloc16: int, age: int)

  /** `ChildAddressEntry(text)`: the body is split on `', '` at most twice and the keys on the first colon. */
  function ParseChildAddressEntry(text: string): Result<ChildAddressEntry>
  {
    var items := Split(Body(text), ", ", 2);
    var d :- FieldDict(items[1..], 1);
    var rloc16 :- Lookup(d, "RLOC16");
    Ok(ChildAddressEntry(items[0], rloc16, if "IPv6Addrs" in d then d["IPv6Addrs"] else ""))
  }

  /** `ChildEntry(text)`: a flag is set iff its value is exactly `yes`. */
  function ParseChildEntry(text: string): (r: Result<ChildEntry>)
    ensures Tokens(text) == [] ==> r == Err(IndexError)
    ensures r.Ok? ==> r.value.extAddress == Tokens(text)[0]
    ensures r.Err? ==> r.error == IndexError || r.error == KeyError
  {
    var items := Tokens(text);
    if items == [] then Err(IndexError)
    else
      var d :- FieldDict(items[1..], -1);
      var rloc16 :- Lookup(d, "RLOC16");
      var timeout :- Lookup(d, "Timeout");
      var rxOnIdle :- Lookup(d, "RxOnIdle");
      var ftd :- Lookup(d, "FTD");
      var secDataReq :- Lookup(d, "SecDataReq");
      var fullNetData :- Lookup(d, "FullNetData");
      Ok(ChildEntry(items[0], rloc16, timeout, rxOnIdle == "yes", ftd == "yes", secDataReq == "yes", fullNetData == "yes"))
  }

  /** `NeighborEntry(text)`. */
  function ParseNeighborEntry(text: string): (r: Result<NeighborEntry>)
    ensures Tokens(text) == [] ==> r == Err(IndexError)
    ensures r.Ok? ==> r.value.extAddress == Tokens(text)[0]
    ensures r.Err? ==> r.error == IndexError || r.error == KeyError
  {
    var items := Tokens(text);
    if items == [] then Err(IndexError)
    else
      var d :- FieldDict(items[1..], -1);
      var rloc16 :- Lookup(d, "RLOC16");
      var isChild :- Lookup(d, "IsChild");
      var rxOnIdle :- Lookup(d, "RxOnIdle");
      var ftd :- Lookup(d, "FTD");
      Ok(NeighborEntry(items[0], rloc16, isChild == "yes", rxOnIdle == "yes", ftd == "yes"))
  }

  /** `RouterTableEntry(text)`: RLOC16 in base 16, the counters in base 0. */
  function ParseRouterTableEntry(text: string): (r: Result<RouterTableEntry>)
    ensures Tokens(text) == [] ==> r == Err(IndexError)
    ensures r.Ok? ==> r.value.extAddress == Tokens(text)[0]
    ensures r.Err? ==> r.error == IndexError || r.error == KeyError || r.error == ValueError
  {
    var items := Tokens(text);
    if items == [] then Err(IndexError)
    else
      var d :- FieldDict(items[1..], -1);
      RouterOfFields(items[0], d)
  }

  /** `int(d[key], base)`. */
  function IntField(d: map<string, string>, key: string, base: nat): (r: Result<int>)
    requires base == 0 || base == 10 || base == 16
    ensures r.Err? ==> (r.error == KeyError <==> key !in d) && (r.error == KeyError || r.error == ValueError)
  {
    var text :- Lookup(d, key);
    ParseInt(text, base)
  }

  lemma IntFieldOf(d: map<string, string>, key: string, base: nat, text: string, n: int)
    requires base == 0 || base == 10 || base == 16
    requires Lookup(d, key) == Ok(text) && ParseInt(text, base) == Ok(n)
    ensures IntField(d, key, base) == Ok(n)
  {
  }

  /** The field conversions of `RouterTableEntry.__init__`, in its order. */
  function RouterOfFields(ext: string, d: map<string, string>): (r: Result<RouterTableEntry>)
    ensures r.Ok? ==> r.value.extAddress == ext
    ensures r.Err? ==> r.error == KeyError || r.error == ValueError
  {
    var rloc16 :- IntField(d, "RLOC16", 16);
    var routerId :- IntField(d, "RouterId", 0);
    var nextHop :- IntField(d, "NextHop", 0);
    var pathCost :- IntField(d, "PathCost", 0);
    var age :- IntField(d, "Age", 0);
    var linkEst :- Lookup(d, "LinkEst");
    Ok(RouterTableEntry(ext, rloc16, routerId, nextHop, pathCost, age, linkEst == "yes"))
  }

  /** `AddressCacheEntry(text)`: address, `->`, hex RLOC16, then `key:value` fields. */
  function ParseAddressCacheEntry(text: string): (r: Result<AddressCacheEntry>)
    ensures |Tokens(text)| < 3 ==> r == Err(IndexError)
    ensures r.Ok? ==> r.value.address == Tokens(text)[0] && Ok(r.value.rloc16) == ParseInt(Tokens(text)[2], 16)
    ensures r.Err? ==> r.error == IndexError || r.error == KeyError || r.error == ValueError
  {
    var items := Tokens(text);
    if |items| < 3 then Err(IndexError)
    else
      var rloc16 :- ParseInt(items[2], 16);
      var d :- FieldDict(items[3..], -1);
      var age :- IntField(d, "age", 0);
      Ok(AddressCacheEntry(items[0], rloc16, age))
  }

  // ------------------------------------------------------------ tables

  /** The child-table lines: the interior, less a last line that contains `]`. */
  function ChildTableLines(s: string): seq<string>
  {
    var items := InteriorLines(s);
    if items != [] && Contains(items[|items| - 1], "]") then items[..|items| - 1] else items
  }

  /** The child-address-table lines: the interior, less a last line that is exactly `]`. */
  function ChildAddressTableLines(s: string): seq<string>
  {
    var items := InteriorLines(s);
    if items != [] && items[|items| - 1] == "]" then items[..|items| - 1] else items
  }

  /** One entry per table line, in order, or the exception of the first line that raises. */
  function ParseChildTableResult(s: string): (r: Result<seq<ChildEntry>>)
    ensures r.Ok? ==> |r.value| == |ChildTableLines(s)| && forall k :: 0 <= k < |r.value| ==> ParseChildEntry(ChildTableLines(s)[k]) == Ok(r.value[k])
    ensures r.Err? ==> exists k :: 0 <= k < |ChildTableLines(s)| && ParseChildEntry(ChildTableLines(s)[k]) == Err(r.error)
  {
    MapResult(ChildTableLines(s), ParseChildEntry)
  }

  function ParseChildTableAddressResult(s: string): Result<seq<ChildAddressEntry>>
  {
    MapResult(ChildAddressTableLines(s), ParseChildAddressEntry)
  }

  /** One entry per table line, in order, or the exception of the first line that raises. */
  function ParseNeighborTableResult(s: string): (r: Result<seq<NeighborEntry>>)
    ensures r.Ok? ==> |r.value| == |ChildTableLines(s)| && forall k :: 0 <= k < |r.value| ==> ParseNeighborEntry(ChildTableLines(s)[k]) == Ok(r.value[k])
    ensures r.Err? ==> exists k :: 0 <= k < |ChildTableLines(s)| && ParseNeighborEntry(ChildTableLines(s)[k]) == Err(r.error)
  {
    MapResult(ChildTableLines(s), ParseNeighborEntry)
  }

  /** One entry per table line, in order, or the exception of the first line that raises. */
  function ParseRouterTableResult(s: string): (r: Result<seq<RouterTableEntry>>)
    ensures r.Ok? ==> |r.value| == |InteriorLines(s)| && forall k :: 0 <= k < |r.value| ==> ParseRouterTableEntry(InteriorLines(s)[k]) == Ok(r.value[k])
    ensures r.Err? ==> exists k :: 0 <= k < |InteriorLines(s)| && ParseRouterTableEntry(InteriorLines(s)[k]) == Err(r.error)
  {
    MapResult(InteriorLines(s), ParseRouterTableEntry)
  }

  /** One entry per table line, in order, or the exception of the first line that raises. */
  function ParseAddressCacheTableResult(s: string): (r: Result<seq<AddressCacheEntry>>)
    ensures r.Ok? ==> |r.value| == |InteriorLines(s)| && forall k :: 0 <= k < |r.value| ==> ParseAddressCacheEntry(InteriorLines(s)[k]) == Ok(r.value[k])
    ensures r.Err? ==> exists k :: 0 <= k < |InteriorLines(s)| && ParseAddressCacheEntry(InteriorLines(s)[k]) == Err(r.error)
  {
    MapResult(InteriorLines(s), ParseAddressCacheEntry)
  }

  // ------------------------------------------------------------ lists

  /** `line[2:-1].split()[0]`. */
  function FirstToken(line: string): (r: Result<string>)
    ensures r.Err? ==> r.error == IndexError
  {
    var words := SplitWs(Body(line));
    if words == [] then Err(IndexError) else Ok(words[0])
  }

  /** `parse_list`: the first token of every interior line. */
  function ParseList(s: string): (r: Result<seq<string>>)
    ensures r.Ok? ==> |r.value| == |InteriorLines(s)|
    ensures r.Err? ==> r.error == IndexError
  {
    MapResult(InteriorLines(s), FirstToken)
  }

  // ============================================================ rendering
  // The line formats `wpanctl` prints (the example lines of the source), as
  // functions, so that every parser can be checked against its format.

  /** A table line: `\t"` + the tokens joined by `, ` + `"`. */
  function Line(toks: seq<string>): string
  {
    "\t\"" + Join(", ", toks) + "\""
  }

  /** The whole table: an opening `[`, one line per entry, a closing `]`. */
  function Table(lines: seq<string>): string
  {
    Join("\n", ["["] + lines + ["]"])
  }

  function YesNo(b: bool): string
  {
    if b then "yes" else "no"
  }

  /** `key:value` items. */
  function FieldItems(fs: seq<(string, string)>): (r: seq<string>)
    ensures |r| == |fs|
  {
    seq(|fs|, k requires 0 <= k < |fs| => fs[k].0 + ":" + fs[k].1)
  }

  /** The dictionary Python builds from `fs`: the last pair with a key wins. */
  function MapOf(fs: seq<(string, string)>): map<string, string>
  {
    if fs == [] then map[]
    else
      var m := MapOf(fs[1..]);
      if fs[0].0 in m then m else m[fs[0].0 := fs[0].1]
  }

  predicate DistinctKeys(fs: seq<(string, string)>)
  {
    forall a, b :: 0 <= a < b < |fs| ==> fs[a].0 != fs[b].0
  }

  /** A field value as the tables print it: no whitespace, no colon. */
  predicate IsValue(v: string)
  {
    NoSpace(v) && Free(v, ':')
  }

  // ------------------------------------------------------------ token lemmas

  /** Each token but the last, with the comma that follows it. */
  function Commas(toks: seq<string>): (r: seq<string>)
    ensures |r| == |toks|
  {
    seq(|toks|, k requires 0 <= k < |toks| => if k < |toks| - 1 then toks[k] + "," else toks[k])
  }

  lemma {:induction false} JoinCommaSpace(toks: seq<string>)
    ensures Join(", ", toks) == Join(" ", Commas(toks))
    decreases |toks|
  {
    if |toks| > 1 {
      JoinCommaSpace(toks[1..]);
      assert Commas(toks)[1..] == Commas(toks[1..]);
    }
  }

  /** Splitting a printed line gives back its tokens. */
  lemma LineTokens(toks: seq<string>)
    requires forall k :: 0 <= k < |toks| ==> IsWord(toks[k])
    requires toks != [] ==> DropComma(toks[|toks| - 1]) == toks[|toks| - 1]
    ensures Tokens(Line(toks)) == toks
  {
    var body := Join(", ", toks);
    SliceQuoted(body);
    assert Body(Line(toks)) == body;
    JoinCommaSpace(toks);
    var cs := Commas(toks);
    CommasWords(toks);
    SplitWsJoin(cs);
    assert SplitWs(Body(Line(toks))) == cs;
    CommasDrop(toks);
  }

  /** With a comma after each but the last, word tokens stay words. */
  lemma CommasWords(toks: seq<string>)
    requires forall k :: 0 <= k < |toks| ==> IsWord(toks[k])
    ensures forall k :: 0 <= k < |toks| ==> IsWord(Commas(toks)[k])
  {
    var cs := Commas(toks);
    forall k | 0 <= k < |cs| ensures IsWord(cs[k]) {
      if k < |toks| - 1 {
        assert cs[k] == toks[k] + ",";
      }
    }
  }

  /** Dropping one trailing comma from each of `Commas(toks)` gives back `toks`. */
  lemma CommasDrop(toks: seq<string>)
    requires toks != [] ==> DropComma(toks[|toks| - 1]) == toks[|toks| - 1]
    ensures forall k :: 0 <= k < |toks| ==> DropComma(Commas(toks)[k]) == toks[k]
  {
    var cs := Commas(toks);
    forall k | 0 <= k < |toks| ensures DropComma(cs[k]) == toks[k] {
      if k < |toks| - 1 {
        assert cs[k] == toks[k] + ",";
        assert (toks[k] + ",")[..|toks[k]|] == toks[k];
      }
    }
  }

  /** `k:v` splits into `k` and `v` when neither holds a colon. */
  lemma KeyValueOfField(k: string, v: string, maxsplit: int)
    requires maxsplit == -1 || maxsplit == 1
    requires Free(k, ':') && (maxsplit == -1 ==> Free(v, ':'))
    ensures KeyValue(k + ":" + v, maxsplit) == Ok((k, v))
  {
    var s := k + ":" + v;
    assert Join(":", [k, v]) == s;
    if maxsplit == -1 {
      SplitOnJoin([k, v], ':');
    } else {
      assert At(s, |k|, ":");
      forall i | 0 <= i < |k| ensures !At(s, i, ":") {
        assert s[i] == k[i];
        AtChar(s, i, ':');
      }
      assert s[..|k|] == k && s[|k| + 1..] == v;
    }
  }

  /** The dictionary of printed `key:value` items is the dictionary of the pairs. */
  lemma {:induction false} FieldDictItems(fs: seq<(string, string)>, maxsplit: int)
    requires maxsplit == -1 || maxsplit == 1
    requires forall k :: 0 <= k < |fs| ==> Free(fs[k].0, ':') && (maxsplit == -1 ==> Free(fs[k].1, ':'))
    ensures FieldDict(FieldItems(fs), maxsplit) == Ok(MapOf(fs))
    decreases |fs|
  {
    if fs != [] {
      KeyValueOfField(fs[0].0, fs[0].1, maxsplit);
      assert FieldItems(fs)[1..] == FieldItems(fs[1..]);
      FieldDictItems(fs[1..], maxsplit);
    }
  }

  /** With distinct keys every pair can be looked up. */
  lemma {:induction false} MapOfLookup(fs: seq<(string, string)>, i: nat)
    requires i < |fs| && DistinctKeys(fs)
    ensures fs[i].0 in MapOf(fs) && MapOf(fs)[fs[i].0] == fs[i].1
    decreases |fs|
  {
    if i > 0 {
      MapOfLookup(fs[1..], i - 1);
    } else if |fs| > 1 {
      MapOfAbsent(fs[1..], fs[0].0);
    }
  }

  lemma {:induction false} MapOfAbsent(fs: seq<(string, string)>, key: string)
    requires forall k :: 0 <= k < |fs| ==> fs[k].0 != key
    ensures key !in MapOf(fs)
    decreases |fs|
  {
    if fs != [] {
      MapOfAbsent(fs[1..], key);
    }
  }

  /** The keys of a map built from pairs are the keys of the pairs. */
  lemma {:induction false} MapOfKeys(fs: seq<(string, string)>, key: string)
    ensures key in MapOf(fs) <==> exists k :: 0 <= k < |fs| && fs[k].0 == key
    decreases |fs|
  {
    if fs != [] {
      MapOfKeys(fs[1..], key);
      if key in MapOf(fs[1..]) {
        var k :| 0 <= k < |fs[1..]| && fs[1..][k].0 == key;
        assert fs[k + 1].0 == key;
      }
      if exists k :: 0 <= k < |fs| && fs[k].0 == key {
        var k :| 0 <= k < |fs| && fs[k].0 == key;
        if k > 0 { assert fs[1..][k - 1].0 == key; }
      }
    }
  }

  /** A printed `key:value` item is one whitespace-free word. */
  lemma FieldItemsWords(fs: seq<(string, string)>)
    requires forall k :: 0 <= k < |fs| ==> fs[k].0 != [] && NoSpace(fs[k].0) && NoSpace(fs[k].1)
    ensures forall k :: 0 <= k < |fs| ==> IsWord(FieldItems(fs)[k])
  {
  }

  lemma {:induction false} JoinFree(sep: string, parts: seq<string>, c: char)
    requires Free(sep, c)
    requires forall k :: 0 <= k < |parts| ==> Free(parts[k], c)
    ensures Free(Join(sep, parts), c)
    decreases |parts|
  {
    if |parts| > 1 {
      JoinFree(sep, parts[1..], c);
    }
  }

  /** `c in s` for a one-character string is membership of the character. */
  lemma ContainsChar(s: string, c: char)
    ensures Contains(s, [c]) <==> !Free(s, c)
  {
    if !Free(s, c) {
      var i :| 0 <= i < |s| && s[i] == c;
      AtChar(s, i, c);
    }
    if Contains(s, [c]) {
      var p := Find(s, [c]).value;
      AtChar(s, p, c);
    }
  }

  /** The interior lines of a printed table are its entry lines. */
  lemma TableInterior(lines: seq<string>)
    requires forall k :: 0 <= k < |lines| ==> Free(lines[k], '\n')
    ensures InteriorLines(Table(lines)) == lines
  {
    var all := ["["] + lines + ["]"];
    forall k | 0 <= k < |all| ensures Free(all[k], '\n') {
      if 0 < k < |all| - 1 { assert all[k] == lines[k - 1]; }
    }
    SplitOnJoin(all, '\n');
    assert all[1..|all| - 1] == lines;
  }

  /** Whitespace-free text holds no line break. */
  lemma NoSpaceNoNewline(s: string)
    requires NoSpace(s)
    ensures Free(s, '\n')
  {
  }

  /** A printed line holds a character only if one of its tokens does. */
  lemma LineFree(toks: seq<string>, c: char)
    requires c != '\t' && c != '"' && c != ',' && c != ' '
    requires forall k :: 0 <= k < |toks| ==> Free(toks[k], c)
    ensures Free(Line(toks), c)
  {
    JoinFree(", ", toks, c);
  }

  // ------------------------------------------------------------ printed fields

  /** Keys paired with values, in order. */
  function Zip(keys: seq<string>, vals: seq<string>): (r: seq<(string, string)>)
    requires |keys| == |vals|
    ensures |r| == |keys| && forall k :: 0 <= k < |r| ==> r[k] == (keys[k], vals[k])
  {
    seq(|keys|, k requires 0 <= k < |keys| => (keys[k], vals[k]))
  }

  predicate Alnum(c: char)
  {
    'a' <= c <= 'z' || 'A' <= c <= 'Z' || '0' <= c <= '9'
  }

  /** Table keys: non-empty runs of ASCII letters and digits, no two alike. */
  predicate PlainKeys(keys: seq<string>)
  {
    && (forall k :: 0 <= k < |keys| ==> keys[k] != [])
    && (forall k, i :: 0 <= k < |keys| && 0 <= i < |keys[k]| ==> Alnum(keys[k][i]))
    && (forall a, b :: 0 <= a < b < |keys| ==> keys[a] != keys[b])
  }

  /** A value that prints as one token and reads back unchanged: no whitespace, colon or comma. */
  predicate PlainValue(v: string)
  {
    IsValue(v) && Free(v, ',')
  }

  predicate PlainValues(vals: seq<string>)
  {
    forall k :: 0 <= k < |vals| ==> PlainValue(vals[k])
  }

  /** The tokens of a printed entry line, and the dictionary its `key:value` fields build. */
  lemma EntryLine(ext: string, keys: seq<string>, vals: seq<string>)
    requires IsWord(ext) && |keys| == |vals| > 0 && PlainKeys(keys) && PlainValues(vals)
    ensures Tokens(Line([ext] + FieldItems(Zip(keys, vals)))) == [ext] + FieldItems(Zip(keys, vals))
    ensures FieldDict(FieldItems(Zip(keys, vals)), -1) == Ok(MapOf(Zip(keys, vals)))
  {
    var fs := Zip(keys, vals);
    forall k | 0 <= k < |fs| ensures fs[k].0 != [] && NoSpace(fs[k].0) && Free(fs[k].0, ':') {
      forall i | 0 <= i < |keys[k]| ensures !IsSpace(keys[k][i]) && keys[k][i] != ':' {
        assert Alnum(keys[k][i]);
      }
    }
    var toks := [ext] + FieldItems(fs);
    FieldItemsWords(fs);
    var last := fs[|fs| - 1];
    assert toks[|toks| - 1] == last.0 + ":" + last.1;
    if last.1 != [] {
      assert (last.0 + ":" + last.1)[|last.0 + ":" + last.1| - 1] == last.1[|last.1| - 1];
    }
    LineTokens(toks);
    FieldDictItems(fs, -1);
  }

  /** A printed entry line holds a character that no key or value holds only if the address does. */
  lemma EntryLineFree(ext: string, keys: seq<string>, vals: seq<string>, c: char)
    requires |keys| == |vals| && PlainKeys(keys) && !Alnum(c)
    requires c != '\t' && c != '"' && c != ',' && c != ' ' && c != ':'
    requires Free(ext, c) && forall k :: 0 <= k < |vals| ==> Free(vals[k], c)
    ensures Free(Line([ext] + FieldItems(Zip(keys, vals))), c)
  {
    var fs := Zip(keys, vals);
    var toks := [ext] + FieldItems(fs);
    forall j | 0 <= j < |toks| ensures Free(toks[j], c) {
      if j > 0 {
        var key := keys[j - 1];
        assert toks[j] == key + ":" + vals[j - 1];
        forall i | 0 <= i < |key| ensures key[i] != c {
          assert Alnum(keys[j - 1][i]);
        }
      }
    }
    LineFree(toks, c);
  }

  /** In Python's dictionary of pairs, a key maps to the value of its last pair. */
  lemma {:induction false} MapOfLast(fs: seq<(string, string)>, i: nat)
    requires i < |fs| && forall j :: i < j < |fs| ==> fs[j].0 != fs[i].0
    ensures fs[i].0 in MapOf(fs) && MapOf(fs)[fs[i].0] == fs[i].1
    decreases |fs|
  {
    if i > 0 {
      MapOfLast(fs[1..], i - 1);
    } else {
      MapOfAbsent(fs[1..], fs[0].0);
    }
  }

  /** With distinct keys, the `i`-th key maps to the `i`-th value. */
  lemma ZipLookup(keys: seq<string>, vals: seq<string>, i: nat)
    requires |keys| == |vals| && PlainKeys(keys) && i < |keys|
    ensures Lookup(MapOf(Zip(keys, vals)), keys[i]) == Ok(vals[i])
  {
    MapOfLast(Zip(keys, vals), i);
  }

  // ------------------------------------------------------------ child entries

  /** The fields of a child-table line, in the order of the source's example. */
  const ChildKeys: seq<string> := ["RLOC16", "NetDataVer", "LQIn", "AveRssi", "LastRssi", "Timeout", "Age",
                                   "RxOnIdle", "FTD", "SecDataReq", "FullNetData"]

  lemma ChildKeysPlain()
    ensures PlainKeys(ChildKeys)
  {
    assert forall k :: 0 <= k < |ChildKeys| ==> ChildKeys[k] != [];
    assert forall k, i :: 0 <= k < |ChildKeys| && 0 <= i < |ChildKeys[k]| ==> Alnum(ChildKeys[k][i]);
  }

  /** The values of a child line; `ignored` holds NetDataVer, LQIn, AveRssi, LastRssi and Age, which the parser drops. */
  function ChildValues(e: ChildEntry, ignored: seq<string>): seq<string>
    requires |ignored| == 5
  {
    [e.rloc16, ignored[0], ignored[1], ignored[2], ignored[3], e.timeout, ignored[4],
     YesNo(e.rxOnIdle), YesNo(e.ftd), YesNo(e.secDataReq), YesNo(e.fullNetData)]
  }

  function ChildLine(e: ChildEntry, ignored: seq<string>): string
    requires |ignored| == 5
  {
    Line([e.extAddress] + FieldItems(Zip(ChildKeys, ChildValues(e, ignored))))
  }

  /** A child entry `wpanctl` can print, with the fields the parser ignores. */
  predicate PrintableChild(e: ChildEntry, ignored: seq<string>)
  {
    |ignored| == 5 && IsWord(e.extAddress) && PlainValue(e.rloc16) && PlainValue(e.timeout)
    && forall k :: 0 <= k < 5 ==> PlainValue(ignored[k])
  }

  /** The dictionary of a printed child line holds the entry's fields. */
  lemma ChildFieldsOf(e: ChildEntry, ignored: seq<string>)
    requires PrintableChild(e, ignored)
    ensures var d := MapOf(Zip(ChildKeys, ChildValues(e, ignored)));
      && Lookup(d, "RLOC16") == Ok(e.rloc16) && Lookup(d, "Timeout") == Ok(e.timeout)
      && Lookup(d, "RxOnIdle") == Ok(YesNo(e.rxOnIdle)) && Lookup(d, "FTD") == Ok(YesNo(e.ftd))
      && Lookup(d, "SecDataReq") == Ok(YesNo(e.secDataReq)) && Lookup(d, "FullNetData") == Ok(YesNo(e.fullNetData))
  {
    var vals := ChildValues(e, ignored);
    ChildKeysPlain();
    ZipLookup(ChildKeys, vals, 0);
    ZipLookup(ChildKeys, vals, 5);
    ZipLookup(ChildKeys, vals, 7);
    ZipLookup(ChildKeys, vals, 8);
    ZipLookup(ChildKeys, vals, 9);
    ZipLookup(ChildKeys, vals, 10);
  }

  lemma YesNoPlain(b: bool)
    ensures PlainValue(YesNo(b)) && Free(YesNo(b), ']') && Free(YesNo(b), '\n')
  {
  }

  lemma ChildValuesPlain(e: ChildEntry, ignored: seq<string>)
    requires PrintableChild(e, ignored)
    ensures PlainValues(ChildValues(e, ignored))
  {
    YesNoPlain(e.rxOnIdle);
    YesNoPlain(e.ftd);
    YesNoPlain(e.secDataReq);
    YesNoPlain(e.fullNetData);
  }

  /** Parsing a printed child line gives back the entry, whatever the ignored fields hold. */
  lemma ChildEntryRoundTrip(e: ChildEntry, ignored: seq<string>)
    requires PrintableChild(e, ignored)
    ensures ParseChildEntry(ChildLine(e, ignored)) == Ok(e)
  {
    var vals := ChildValues(e, ignored);
    ChildKeysPlain();
    ChildValuesPlain(e, ignored);
    EntryLine(e.extAddress, ChildKeys, vals);
    var items := Tokens(ChildLine(e, ignored));
    assert items[0] == e.extAddress;
    assert items[1..] == FieldItems(Zip(ChildKeys, vals));
    ChildFieldsOf(e, ignored);
  }

  // ------------------------------------------------------------ neighbor entries

  /** The fields of a neighbor-table line, in the order of the source's example. */
  const NeighborKeys: seq<string> := ["RLOC16", "LQIn", "AveRssi", "LastRssi", "Age", "LinkFC", "MleFC",
                                      "IsChild", "RxOnIdle", "FTD", "SecDataReq", "FullNetData"]

  lemma NeighborKeysPlain()
    ensures PlainKeys(NeighborKeys)
  {
    assert forall k :: 0 <= k < |NeighborKeys| ==> NeighborKeys[k] != [];
    assert forall k, i :: 0 <= k < |NeighborKeys| && 0 <= i < |NeighborKeys[k]| ==> Alnum(NeighborKeys[k][i]);
  }

  /** The values of a neighbor line; `ignored` holds the eight fields the parser drops. */
  function NeighborValues(e: NeighborEntry, ignored: seq<string>): seq<string>
    requires |ignored| == 8
  {
    [e.rloc16, ignored[0], ignored[1], ignored[2], ignored[3], ignored[4], ignored[5],
     YesNo(e.isChild), YesNo(e.rxOnIdle), YesNo(e.ftd), ignored[6], ignored[7]]
  }

  function NeighborLine(e: NeighborEntry, ignored: seq<string>): string
    requires |ignored| == 8
  {
    Line([e.extAddress] + FieldItems(Zip(NeighborKeys, NeighborValues(e, ignored))))
  }

  predicate PrintableNeighbor(e: NeighborEntry, ignored: seq<string>)
  {
    |ignored| == 8 && IsWord(e.extAddress) && PlainValue(e.rloc16)
    && forall k :: 0 <= k < 8 ==> PlainValue(ignored[k])
  }

  /** The dictionary of a printed neighbor line holds the entry's fields. */
  lemma NeighborFieldsOf(e: NeighborEntry, ignored: seq<string>)
    requires PrintableNeighbor(e, ignored)
    ensures var d := MapOf(Zip(NeighborKeys, NeighborValues(e, ignored)));
      && Lookup(d, "RLOC16") == Ok(e.rloc16) && Lookup(d, "IsChild") == Ok(YesNo(e.isChild))
      && Lookup(d, "RxOnIdle") == Ok(YesNo(e.rxOnIdle)) && Lookup(d, "FTD") == Ok(YesNo(e.ftd))
  {
    var vals := NeighborValues(e, ignored);
    NeighborKeysPlain();
    ZipLookup(NeighborKeys, vals, 0);
    ZipLookup(NeighborKeys, vals, 7);
    ZipLookup(NeighborKeys, vals, 8);
    ZipLookup(NeighborKeys, vals, 9);
  }

  lemma NeighborValuesPlain(e: NeighborEntry, ignored: seq<string>)
    requires PrintableNeighbor(e, ignored)
    ensures PlainValues(NeighborValues(e, ignored))
  {
    YesNoPlain(e.isChild);
    YesNoPlain(e.rxOnIdle);
    YesNoPlain(e.ftd);
  }

  /** Parsing a printed neighbor line gives back the entry. */
  lemma NeighborEntryRoundTrip(e: NeighborEntry, ignored: seq<string>)
    requires PrintableNeighbor(e, ignored)
    ensures ParseNeighborEntry(NeighborLine(e, ignored)) == Ok(e)
  {
    var vals := NeighborValues(e, ignored);
    NeighborKeysPlain();
    NeighborValuesPlain(e, ignored);
    EntryLine(e.extAddress, NeighborKeys, vals);
    var items := Tokens(NeighborLine(e, ignored));
    assert items[0] == e.extAddress;
    assert items[1..] == FieldItems(Zip(NeighborKeys, vals));
    NeighborFieldsOf(e, ignored);
  }

  // ------------------------------------------------------------ router entries

  /** The fields of a router-table line, in the order of the source's example. */
  const RouterKeys: seq<string> := ["RLOC16", "RouterId", "NextHop", "PathCost", "LQIn", "LQOut", "Age", "LinkEst"]

  lemma RouterKeysPlain()
    ensures PlainKeys(RouterKeys)
  {
    assert forall k :: 0 <= k < |RouterKeys| ==> RouterKeys[k] != [];
    assert forall k, i :: 0 <= k < |RouterKeys| && 0 <= i < |RouterKeys[k]| ==> Alnum(RouterKeys[k][i]);
  }

  /** The texts of a router line, in the order of `RouterKeys`. */
  function RouterTexts(rloc16: string, routerId: string, nextHop: string, pathCost: string,
                       lqIn: string, lqOut: string, age: string, linkEst: string): seq<string>
  {
    [rloc16, routerId, nextHop, pathCost, lqIn, lqOut, age, linkEst]
  }

  /** The values of a router line: RLOC16 as `%04x`, the counters in decimal; LQIn and LQOut are not kept. */
  function RouterValues(e: RouterTableEntry, lqIn: string, lqOut: string): seq<string>
  {
    RouterTexts(FormatHex(e.rloc16, 4), IntStr(e.routerId), IntStr(e.nextHop), IntStr(e.pathCost), lqIn, lqOut,
                IntStr(e.age), YesNo(e.linkEstablished))
  }

  function RouterLine(e: RouterTableEntry, lqIn: string, lqOut: string): string
  {
    Line([e.extAddress] + FieldItems(Zip(RouterKeys, RouterValues(e, lqIn, lqOut))))
  }

  /** A router entry `wpanctl` can print: non-negative numbers, a one-word address, plain link-quality fields. */
  predicate PrintableRouter(e: RouterTableEntry, lqIn: string, lqOut: string)
  {
    e.rloc16 >= 0 && e.routerId >= 0 && e.nextHop >= 0 && e.pathCost >= 0 && e.age >= 0
    && IsWord(e.extAddress) && PlainValue(lqIn) && PlainValue(lqOut)
  }

  /** `str(n)` prints as one plain token. */
  lemma DecPlain(n: nat)
    ensures PlainValue(IntStr(n))
  {
    var d := Dec(n);
    assert forall i :: 0 <= i < |d| ==> '0' <= d[i] <= '9';
  }

  /** `'%04x' % n` prints as one plain token. */
  lemma HexPlain(n: nat)
    ensures PlainValue(FormatHex(n, 4))
  {
    var h := Hex(n);
    var s := PadZeros(h, 4);
    forall i | 0 <= i < |s| ensures !IsSpace(s[i]) && s[i] != ':' && s[i] != ',' {
      if i >= |s| - |h| {
        assert s[i] == s[|s| - |h|..][i - (|s| - |h|)];
      }
    }
  }

  /** The dictionary of a printed router line holds its values under their keys. */
  lemma RouterFieldsOf(vals: seq<string>)
    requires |vals| == 8
    ensures var d := MapOf(Zip(RouterKeys, vals));
      && Lookup(d, "RLOC16") == Ok(vals[0]) && Lookup(d, "RouterId") == Ok(vals[1])
      && Lookup(d, "NextHop") == Ok(vals[2]) && Lookup(d, "PathCost") == Ok(vals[3])
      && Lookup(d, "Age") == Ok(vals[6]) && Lookup(d, "LinkEst") == Ok(vals[7])
  {
    RouterKeysPlain();
    ZipLookup(RouterKeys, vals, 0);
    ZipLookup(RouterKeys, vals, 1);
    ZipLookup(RouterKeys, vals, 2);
    ZipLookup(RouterKeys, vals, 3);
    ZipLookup(RouterKeys, vals, 6);
    ZipLookup(RouterKeys, vals, 7);
  }

  /** The field conversions of a router entry succeed on texts that read back as its numbers. */
  lemma RouterOfTexts(e: RouterTableEntry, rloc16: string, routerId: string, nextHop: string, pathCost: string,
                      lqIn: string, lqOut: string, age: string)
    requires ParseInt(rloc16, 16) == Ok(e.rloc16)
    requires ParseInt(routerId, 0) == Ok(e.routerId) && ParseInt(nextHop, 0) == Ok(e.nextHop)
    requires ParseInt(pathCost, 0) == Ok(e.pathCost) && ParseInt(age, 0) == Ok(e.age)
    ensures var vals := RouterTexts(rloc16, routerId, nextHop, pathCost, lqIn, lqOut, age, YesNo(e.linkEstablished));
      RouterOfFields(e.extAddress, MapOf(Zip(RouterKeys, vals))) == Ok(e)
  {
    var vals := RouterTexts(rloc16, routerId, nextHop, pathCost, lqIn, lqOut, age, YesNo(e.linkEstablished));
    var d := MapOf(Zip(RouterKeys, vals));
    RouterFieldsOf(vals);
    IntFieldOf(d, "RLOC16", 16, rloc16, e.rloc16);
    IntFieldOf(d, "RouterId", 0, routerId, e.routerId);
    IntFieldOf(d, "NextHop", 0, nextHop, e.nextHop);
    IntFieldOf(d, "PathCost", 0, pathCost, e.pathCost);
    IntFieldOf(d, "Age", 0, age, e.age);
  }

  /** The texts of a printed router entry are plain tokens. */
  lemma RouterValuesPlain(e: RouterTableEntry, lqIn: string, lqOut: string)
    requires PrintableRouter(e, lqIn, lqOut)
    ensures PlainValues(RouterValues(e, lqIn, lqOut))
  {
    var r := FormatHex(e.rloc16, 4);
    var a := IntStr(e.routerId);
    var b := IntStr(e.nextHop);
    var c := IntStr(e.pathCost);
    var g := IntStr(e.age);
    var y := YesNo(e.linkEstablished);
    HexPlain(e.rloc16);
    DecPlain(e.routerId);
    DecPlain(e.nextHop);
    DecPlain(e.pathCost);
    DecPlain(e.age);
    YesNoPlain(e.linkEstablished);
    TextsPlain(r, a, b, c, lqIn, lqOut, g, y);
  }

  lemma TextsPlain(t0: string, t1: string, t2: string, t3: string, t4: string, t5: string, t6: string, t7: string)
    requires PlainValue(t0) && PlainValue(t1) && PlainValue(t2) && PlainValue(t3)
    requires PlainValue(t4) && PlainValue(t5) && PlainValue(t6) && PlainValue(t7)
    ensures PlainValues(RouterTexts(t0, t1, t2, t3, t4, t5, t6, t7))
  {
  }

  /** A printed router line is parsed by converting the fields it prints. */
  lemma RouterLineFields(ext: string, vals: seq<string>)
    requires IsWord(ext) && |vals| == 8 && PlainValues(vals)
    ensures ParseRouterTableEntry(Line([ext] + FieldItems(Zip(RouterKeys, vals)))) == RouterOfFields(ext, MapOf(Zip(RouterKeys, vals)))
  {
    RouterKeysPlain();
    EntryLine(ext, RouterKeys, vals);
    var items := Tokens(Line([ext] + FieldItems(Zip(RouterKeys, vals))));
    assert items[0] == ext;
    assert items[1..] == FieldItems(Zip(RouterKeys, vals));
  }

  /** Parsing a printed router line gives back the entry: hex RLOC16, base-0 counters, `yes` link flag. */
  lemma RouterEntryRoundTrip(e: RouterTableEntry, lqIn: string, lqOut: string)
    requires PrintableRouter(e, lqIn, lqOut)
    ensures ParseRouterTableEntry(RouterLine(e, lqIn, lqOut)) == Ok(e)
  {
    RouterValuesPlain(e, lqIn, lqOut);
    RouterLineFields(e.extAddress, RouterValues(e, lqIn, lqOut));
    ParseHexOfFormatHex(e.rloc16, 4);
    ParseBase0OfIntStr(e.routerId);
    ParseBase0OfIntStr(e.nextHop);
    ParseBase0OfIntStr(e.pathCost);
    ParseBase0OfIntStr(e.age);
    RouterOfTexts(e, FormatHex(e.rloc16, 4), IntStr(e.routerId), IntStr(e.nextHop), IntStr(e.pathCost),
                  lqIn, lqOut, IntStr(e.age));
  }

  /** The lines of a printed router table, one per entry. */
  function RouterLines(es: seq<RouterTableEntry>, lqIn: string, lqOut: string): (r: seq<string>)
    ensures |r| == |es| && forall k :: 0 <= k < |es| ==> r[k] == RouterLine(es[k], lqIn, lqOut)
  {
    seq(|es|, k requires 0 <= k < |es| => RouterLine(es[k], lqIn, lqOut))
  }

  /** A printed router line has no line break. */
  lemma RouterLineFree(e: RouterTableEntry, lqIn: string, lqOut: string)
    requires PrintableRouter(e, lqIn, lqOut)
    ensures Free(RouterLine(e, lqIn, lqOut), '\n')
  {
    RouterKeysPlain();
    RouterValuesPlain(e, lqIn, lqOut);
    var vals := RouterValues(e, lqIn, lqOut);
    forall k | 0 <= k < |vals| ensures Free(vals[k], '\n') {
      assert NoSpace(vals[k]);
    }
    EntryLineFree(e.extAddress, RouterKeys, vals, '\n');
  }

  /** `parse_router_table_result` of a printed table returns its entries, in order. */
  lemma RouterTableRoundTrip(es: seq<RouterTableEntry>, lqIn: string, lqOut: string)
    requires forall k :: 0 <= k < |es| ==> PrintableRouter(es[k], lqIn, lqOut)
    ensures ParseRouterTableResult(Table(RouterLines(es, lqIn, lqOut))) == Ok(es)
  {
    var lines := RouterLines(es, lqIn, lqOut);
    forall k | 0 <= k < |es| ensures Free(lines[k], '\n') && ParseRouterTableEntry(lines[k]) == Ok(es[k]) {
      RouterEntryRoundTrip(es[k], lqIn, lqOut);
      RouterLineFree(es[k], lqIn, lqOut);
    }
    TableInterior(lines);
    MapResultAll(lines, ParseRouterTableEntry, es);
  }

  // ------------------------------------------------------------ address cache

  /** An address-cache line as in the source's example: `\t"<addr> -> 0x<rloc16>, age:<age>"`. */
  function AddressCacheLine(e: AddressCacheEntry): string
  {
    "\t\"" + Join(" ", [e.address, "->", "0x" + FormatHex(e.rloc16, 4) + ",", "age:" + IntStr(e.age)]) + "\""
  }

  predicate PrintableCacheEntry(e: AddressCacheEntry)
  {
    e.rloc16 >= 0 && e.age >= 0 && IsWord(e.address) && DropComma(e.address) == e.address
  }

  /** A prefix and a suffix around a plain token keep it one word. */
  lemma Wrapped(pre: string, v: string, post: string)
    requires NoSpace(pre) && NoSpace(post) && PlainValue(v) && pre != []
    ensures IsWord(pre + v + post)
  {
    var w := pre + v + post;
    forall i | 0 <= i < |w| ensures !IsSpace(w[i]) {
      if i < |pre| {
        assert w[i] == pre[i];
      } else if i < |pre| + |v| {
        assert w[i] == v[i - |pre|];
      } else {
        assert w[i] == post[i - |pre| - |v|];
      }
    }
  }

  /** The words of a line of the address-cache shape. */
  lemma CacheShapeWords(addr: string, r: string, a: string)
    requires IsWord(addr) && PlainValue(r) && PlainValue(a)
    ensures SplitWs(Body("\t\"" + Join(" ", [addr, "->", "0x" + r + ",", "age:" + a]) + "\"")) == [addr, "->", "0x" + r + ",", "age:" + a]
  {
    var words := [addr, "->", "0x" + r + ",", "age:" + a];
    SliceQuoted(Join(" ", words));
    Wrapped("0x", r, ",");
    Wrapped("age:", a, "");
    assert "age:" + a + "" == "age:" + a;
    assert IsWord("->");
    SplitWsJoin(words);
  }

  lemma CacheShapeCommas(r: string, a: string)
    requires PlainValue(a)
    ensures DropComma("->") == "->" && DropComma("0x" + r + ",") == "0x" + r && DropComma("age:" + a) == "age:" + a
  {
    var w2 := "0x" + r + ",";
    var w3 := "age:" + a;
    assert w2[..|w2| - 1] == "0x" + r;
    if a != [] {
      assert w3[|w3| - 1] == a[|a| - 1];
    }
  }

  /** The tokens of a line of the address-cache shape. */
  lemma CacheShapeTokens(addr: string, r: string, a: string)
    requires IsWord(addr) && DropComma(addr) == addr && PlainValue(r) && PlainValue(a)
    ensures Tokens("\t\"" + Join(" ", [addr, "->", "0x" + r + ",", "age:" + a]) + "\"") == [addr, "->", "0x" + r, "age:" + a]
  {
    var words := [addr, "->", "0x" + r + ",", "age:" + a];
    var toks := [addr, "->", "0x" + r, "age:" + a];
    CacheShapeWords(addr, r, a);
    CacheShapeCommas(r, a);
    forall k | 0 <= k < |words| ensures DropComma(words[k]) == toks[k] {
    }
    TokensOfWords("\t\"" + Join(" ", words) + "\"", words, toks);
  }

  /** The tokens of a line are its words with a trailing comma dropped from each. */
  lemma TokensOfWords(text: string, words: seq<string>, toks: seq<string>)
    requires SplitWs(Body(text)) == words && |toks| == |words|
    requires forall k :: 0 <= k < |words| ==> DropComma(words[k]) == toks[k]
    ensures Tokens(text) == toks
  {
  }

  /** The tokens of a printed address-cache line. */
  lemma AddressCacheTokens(e: AddressCacheEntry)
    requires PrintableCacheEntry(e)
    ensures Tokens(AddressCacheLine(e)) == [e.address, "->", "0x" + FormatHex(e.rloc16, 4), "age:" + IntStr(e.age)]
  {
    HexPlain(e.rloc16);
    DecPlain(e.age);
    CacheShapeTokens(e.address, FormatHex(e.rloc16, 4), IntStr(e.age));
  }

  /** The age field of a printed address-cache line. */
  lemma AgeField(age: nat)
    ensures FieldDict(["age:" + IntStr(age)], -1) == Ok(map["age" := IntStr(age)])
    ensures ParseInt(IntStr(age), 0) == Ok(age)
  {
    var a := IntStr(age);
    DecPlain(age);
    assert Free("age", ':');
    assert "age:" + a == "age" + ":" + a;
    OneField("age", a);
    ParseBase0OfDec(age);
  }

  /** A single `k:v` item gives the one-entry dictionary. */
  lemma OneField(k: string, v: string)
    requires Free(k, ':') && Free(v, ':')
    ensures FieldDict([k + ":" + v], -1) == Ok(map[k := v])
  {
    KeyValueOfField(k, v, -1);
    assert [k + ":" + v][1..] == [];
  }

  /** Parsing a printed address-cache line gives back the entry: the RLOC16 keeps its `0x`, which base 16 accepts. */
  lemma AddressCacheEntryRoundTrip(e: AddressCacheEntry)
    requires PrintableCacheEntry(e)
    ensures ParseAddressCacheEntry(AddressCacheLine(e)) == Ok(e)
  {
    AddressCacheTokens(e);
    var items := Tokens(AddressCacheLine(e));
    assert items[3..] == ["age:" + IntStr(e.age)];
    ParseHexOfPrefixed(e.rloc16, 4);
    AgeField(e.age);
  }

  // ------------------------------------------------------------ child address entries

  /** A child-address line as in the source's example: `\t"<ext>, RLOC16:<rloc16>, IPv6Addrs:<addresses>"`. */
  function ChildAddressLine(e: ChildAddressEntry): string
  {
    Line([e.extAddress, "RLOC16:" + e.rloc16, "IPv6Addrs:" + e.ipv6Address])
  }

  lemma Join3(a: string, b: string, c: string)
    ensures Join(", ", [a, b, c]) == a + ", " + (b + ", " + c)
  {
    assert [a, b, c][1..] == [b, c];
    assert [b, c][1..] == [c];
    assert Join(", ", [c]) == c;
    assert Join(", ", [b, c]) == b + ", " + c;
  }

  /** `(a + ', ' + b).split(', ', n)` splits first after `a` when `a` holds no comma. */
  lemma SplitAfterFirst(a: string, b: string, maxsplit: int)
    requires Free(a, ',') && maxsplit != 0
    ensures Split(a + ", " + b, ", ", maxsplit) == [a] + Split(b, ", ", if maxsplit < 0 then maxsplit else maxsplit - 1)
  {
    var s := a + ", " + b;
    assert s[|a|..|a| + 2] == ", ";
    forall i | 0 <= i < |a| ensures !At(s, i, ", ") {
      assert s[i] == a[i];
    }
    FindAt(s, ", ", |a|);
    assert s[..|a|] == a && s[|a| + 2..] == b;
  }

  /** The three items of a printed child-address line. */
  lemma ChildAddressItems(e: ChildAddressEntry)
    requires Free(e.extAddress, ',') && Free(e.rloc16, ',')
    ensures Split(Body(ChildAddressLine(e)), ", ", 2) == [e.extAddress, "RLOC16:" + e.rloc16, "IPv6Addrs:" + e.ipv6Address]
  {
    var rloc := "RLOC16:" + e.rloc16;
    var ip := "IPv6Addrs:" + e.ipv6Address;
    var body := e.extAddress + ", " + (rloc + ", " + ip);
    Join3(e.extAddress, rloc, ip);
    SliceQuoted(body);
    assert Free(rloc, ',') by {
      forall i | 0 <= i < |rloc| ensures rloc[i] != ',' {
        if i >= 7 { assert rloc[i] == e.rloc16[i - 7]; }
      }
    }
    SplitAfterFirst(e.extAddress, rloc + ", " + ip, 2);
    SplitAfterFirst(rloc, ip, 1);
  }

  /** The dictionary of the two printed child-address fields. */
  lemma ChildAddressFields(rloc16: string, ipv6: string)
    ensures FieldDict(["RLOC16:" + rloc16, "IPv6Addrs:" + ipv6], 1) == Ok(map["IPv6Addrs" := ipv6, "RLOC16" := rloc16])
  {
    var r := "RLOC16:" + rloc16;
    var i := "IPv6Addrs:" + ipv6;
    assert Free("RLOC16", ':') && Free("IPv6Addrs", ':');
    assert r == "RLOC16" + ":" + rloc16 && i == "IPv6Addrs" + ":" + ipv6;
    KeyValueOfField("RLOC16", rloc16, 1);
    KeyValueOfField("IPv6Addrs", ipv6, 1);
    assert [r, i][1..] == [i];
    assert [i][1..] == [];
    assert FieldDict([i][1..], 1) == Ok(map[]);
    assert KeyValue([i][0], 1) == Ok(("IPv6Addrs", ipv6));
    assert FieldDict([i], 1) == Ok(map["IPv6Addrs" := ipv6]);
    assert KeyValue([r, i][0], 1) == Ok(("RLOC16", rloc16));
    assert "RLOC16" != "IPv6Addrs";
  }

  /** Parsing a printed child-address line gives back the entry; the address list may itself hold `, `. */
  lemma ChildAddressEntryRoundTrip(e: ChildAddressEntry)
    requires Free(e.extAddress, ',') && Free(e.rloc16, ',')
    ensures ParseChildAddressEntry(ChildAddressLine(e)) == Ok(e)
  {
    ChildAddressItems(e);
    var items := Split(Body(ChildAddressLine(e)), ", ", 2);
    assert items[1..] == ["RLOC16:" + e.rloc16, "IPv6Addrs:" + e.ipv6Address];
    ChildAddressFields(e.rloc16, e.ipv6Address);
  }

  // ------------------------------------------------------------ child tables

  function ChildLines(es: seq<ChildEntry>, ignored: seq<string>): (r: seq<string>)
    requires |ignored| == 5
    ensures |r| == |es| && forall k :: 0 <= k < |es| ==> r[k] == ChildLine(es[k], ignored)
  {
    seq(|es|, k requires 0 <= k < |es| => ChildLine(es[k], ignored))
  }

  lemma ChildValuesFree(e: ChildEntry, ignored: seq<string>, c: char)
    requires |ignored| == 5 && (c == ']' || c == '\n')
    requires Free(e.rloc16, c) && Free(e.timeout, c) && forall k :: 0 <= k < 5 ==> Free(ignored[k], c)
    ensures forall k :: 0 <= k < 11 ==> Free(ChildValues(e, ignored)[k], c)
  {
    YesNoPlain(e.rxOnIdle);
    YesNoPlain(e.ftd);
    YesNoPlain(e.secDataReq);
    YesNoPlain(e.fullNetData);
  }

  /** A printed child line holds no line break and no `]` when its fields do not. */
  lemma ChildLineFree(e: ChildEntry, ignored: seq<string>)
    requires PrintableChild(e, ignored)
    requires Free(e.extAddress, ']') && Free(e.rloc16, ']') && Free(e.timeout, ']')
    requires forall k :: 0 <= k < 5 ==> Free(ignored[k], ']')
    ensures Free(ChildLine(e, ignored), '\n') && Free(ChildLine(e, ignored), ']')
  {
    var vals := ChildValues(e, ignored);
    ChildKeysPlain();
    ChildValuesFree(e, ignored, ']');
    ChildValuesFree(e, ignored, '\n');
    EntryLineFree(e.extAddress, ChildKeys, vals, '\n');
    EntryLineFree(e.extAddress, ChildKeys, vals, ']');
  }

  /** A list comprehension over inputs that all succeed is the list of their results. */
  lemma MapResultAll<T>(xs: seq<string>, f: string -> Result<T>, ys: seq<T>)
    requires |xs| == |ys| && forall k :: 0 <= k < |xs| ==> f(xs[k]) == Ok(ys[k])
    ensures MapResult(xs, f) == Ok(ys)
  {
    var r := MapResult(xs, f);
    assert r.Ok?;
    assert r.value == ys by {
      forall k | 0 <= k < |ys| ensures r.value[k] == ys[k] {
        assert f(xs[k]) == Ok(r.value[k]);
      }
    }
  }

  /** The child-table trailer rule keeps every printed line whose last line has no `]`. */
  lemma ChildTableLinesOf(lines: seq<string>)
    requires forall k :: 0 <= k < |lines| ==> Free(lines[k], '\n')
    requires lines != [] ==> Free(lines[|lines| - 1], ']')
    ensures ChildTableLines(Table(lines)) == lines
  {
    TableInterior(lines);
    if lines != [] {
      ContainsChar(lines[|lines| - 1], ']');
    }
  }

  /** `parse_child_table_result` of a printed table returns its entries, in order. */
  lemma ChildTableRoundTrip(es: seq<ChildEntry>, ignored: seq<string>)
    requires |ignored| == 5 && forall k :: 0 <= k < 5 ==> Free(ignored[k], ']')
    requires forall k :: 0 <= k < |es| ==> PrintableChild(es[k], ignored)
    requires forall k :: 0 <= k < |es| ==> Free(es[k].extAddress, ']') && Free(es[k].rloc16, ']') && Free(es[k].timeout, ']')
    ensures ParseChildTableResult(Table(ChildLines(es, ignored))) == Ok(es)
  {
    var lines := ChildLines(es, ignored);
    forall k | 0 <= k < |es| ensures Free(lines[k], '\n') && Free(lines[k], ']') && ParseChildEntry(lines[k]) == Ok(es[k]) {
      ChildEntryRoundTrip(es[k], ignored);
      ChildLineFree(es[k], ignored);
    }
    ChildTableLinesOf(lines);
    MapResultAll(lines, ParseChildEntry, es);
  }

  // ------------------------------------------------------------ neighbor, address-cache and child-address tables

  function NeighborLines(es: seq<NeighborEntry>, ignored: seq<string>): (r: seq<string>)
    requires |ignored| == 8
    ensures |r| == |es| && forall k :: 0 <= k < |es| ==> r[k] == NeighborLine(es[k], ignored)
  {
    seq(|es|, k requires 0 <= k < |es| => NeighborLine(es[k], ignored))
  }

  lemma NeighborValuesFree(e: NeighborEntry, ignored: seq<string>, c: char)
    requires |ignored| == 8 && (c == ']' || c == '\n')
    requires Free(e.rloc16, c) && forall k :: 0 <= k < 8 ==> Free(ignored[k], c)
    ensures forall k :: 0 <= k < 12 ==> Free(NeighborValues(e, ignored)[k], c)
  {
    YesNoPlain(e.isChild);
    YesNoPlain(e.rxOnIdle);
    YesNoPlain(e.ftd);
  }

  /** A printed neighbor line holds no line break, and no `]` when its fields do not. */
  lemma NeighborLineFree(e: NeighborEntry, ignored: seq<string>)
    requires PrintableNeighbor(e, ignored)
    requires Free(e.extAddress, ']') && Free(e.rloc16, ']') && forall k :: 0 <= k < 8 ==> Free(ignored[k], ']')
    ensures Free(NeighborLine(e, ignored), '\n') && Free(NeighborLine(e, ignored), ']')
  {
    var vals := NeighborValues(e, ignored);
    NeighborKeysPlain();
    NeighborValuesFree(e, ignored, ']');
    NeighborValuesFree(e, ignored, '\n');
    EntryLineFree(e.extAddress, NeighborKeys, vals, '\n');
    EntryLineFree(e.extAddress, NeighborKeys, vals, ']');
  }

  /** `parse_neighbor_table_result` of a printed table returns its entries, in order. */
  lemma NeighborTableRoundTrip(es: seq<NeighborEntry>, ignored: seq<string>)
    requires |ignored| == 8 && forall k :: 0 <= k < 8 ==> Free(ignored[k], ']')
    requires forall k :: 0 <= k < |es| ==> PrintableNeighbor(es[k], ignored)
    requires forall k :: 0 <= k < |es| ==> Free(es[k].extAddress, ']') && Free(es[k].rloc16, ']')
    ensures ParseNeighborTableResult(Table(NeighborLines(es, ignored))) == Ok(es)
  {
    var lines := NeighborLines(es, ignored);
    forall k | 0 <= k < |es| ensures Free(lines[k], '\n') && Free(lines[k], ']') && ParseNeighborEntry(lines[k]) == Ok(es[k]) {
      NeighborEntryRoundTrip(es[k], ignored);
      NeighborLineFree(es[k], ignored);
    }
    ChildTableLinesOf(lines);
    MapResultAll(lines, ParseNeighborEntry, es);
  }

  function AddressCacheLines(es: seq<AddressCacheEntry>): (r: seq<string>)
    ensures |r| == |es| && forall k :: 0 <= k < |es| ==> r[k] == AddressCacheLine(es[k])
  {
    seq(|es|, k requires 0 <= k < |es| => AddressCacheLine(es[k]))
  }

  /** The words of a line of the address-cache shape hold no line break. */
  lemma CacheWordsFree(addr: string, r: string, a: string)
    requires IsWord(addr) && PlainValue(r) && PlainValue(a)
    ensures Free(Join(" ", [addr, "->", "0x" + r + ",", "age:" + a]), '\n')
  {
    var words := [addr, "->", "0x" + r + ",", "age:" + a];
    Wrapped("0x", r, ",");
    Wrapped("age:", a, "");
    assert "age:" + a + "" == "age:" + a;
    forall k | 0 <= k < |words| ensures Free(words[k], '\n') {
      if k != 1 {
        NoSpaceNoNewline(words[k]);
      }
    }
    JoinFree(" ", words, '\n');
  }

  /** A printed address-cache line has no line break. */
  lemma AddressCacheLineFree(e: AddressCacheEntry)
    requires PrintableCacheEntry(e)
    ensures Free(AddressCacheLine(e), '\n')
  {
    HexPlain(e.rloc16);
    DecPlain(e.age);
    CacheWordsFree(e.address, FormatHex(e.rloc16, 4), IntStr(e.age));
    QuotedFree(Join(" ", [e.address, "->", "0x" + FormatHex(e.rloc16, 4) + ",", "age:" + IntStr(e.age)]));
  }

  /** `parse_address_cache_table_result` of a printed table returns its entries, in order. */
  lemma AddressCacheTableRoundTrip(es: seq<AddressCacheEntry>)
    requires forall k :: 0 <= k < |es| ==> PrintableCacheEntry(es[k])
    ensures ParseAddressCacheTableResult(Table(AddressCacheLines(es))) == Ok(es)
  {
    var lines := AddressCacheLines(es);
    forall k | 0 <= k < |es| ensures Free(lines[k], '\n') && ParseAddressCacheEntry(lines[k]) == Ok(es[k]) {
      AddressCacheEntryRoundTrip(es[k]);
      AddressCacheLineFree(es[k]);
    }
    TableInterior(lines);
    MapResultAll(lines, ParseAddressCacheEntry, es);
  }

  function ChildAddressLines(es: seq<ChildAddressEntry>): (r: seq<string>)
    ensures |r| == |es| && forall k :: 0 <= k < |es| ==> r[k] == ChildAddressLine(es[k])
  {
    seq(|es|, k requires 0 <= k < |es| => ChildAddressLine(es[k]))
  }

  /** A printed child-address line has a line break only where a field does. */
  lemma ChildAddressLineFree(e: ChildAddressEntry)
    requires Free(e.extAddress, '\n') && Free(e.rloc16, '\n') && Free(e.ipv6Address, '\n')
    ensures Free(ChildAddressLine(e), '\n')
  {
    FreeConcat("RLOC16:", e.rloc16, '\n');
    FreeConcat("IPv6Addrs:", e.ipv6Address, '\n');
    LineFree([e.extAddress, "RLOC16:" + e.rloc16, "IPv6Addrs:" + e.ipv6Address], '\n');
  }

  /** The child-address trailer rule keeps every printed line: none of them is exactly `]`. */
  lemma ChildAddressTableLinesOf(lines: seq<string>)
    requires forall k :: 0 <= k < |lines| ==> Free(lines[k], '\n')
    requires lines != [] ==> lines[|lines| - 1] != "]"
    ensures ChildAddressTableLines(Table(lines)) == lines
  {
    TableInterior(lines);
  }

  /** `parse_child_table_address_result` of a printed table returns its entries, in order. */
  lemma ChildAddressTableRoundTrip(es: seq<ChildAddressEntry>)
    requires forall k :: 0 <= k < |es| ==> Free(es[k].extAddress, ',') && Free(es[k].rloc16, ',')
    requires forall k :: 0 <= k < |es| ==>
      Free(es[k].extAddress, '\n') && Free(es[k].rloc16, '\n') && Free(es[k].ipv6Address, '\n')
    ensures ParseChildTableAddressResult(Table(ChildAddressLines(es))) == Ok(es)
  {
    var lines := ChildAddressLines(es);
    forall k | 0 <= k < |es| ensures Free(lines[k], '\n') && ParseChildAddressEntry(lines[k]) == Ok(es[k]) {
      ChildAddressEntryRoundTrip(es[k]);
      ChildAddressLineFree(es[k]);
    }
    if es != [] {
      assert lines[|lines| - 1][0] == '\t';
    }
    ChildAddressTableLinesOf(lines);
    MapResultAll(lines, ParseChildAddressEntry, es);
  }

  /** The two trailer rules part ways on a closing line with a leading blank: one drops it, the other parses it and fails. */
  lemma ChildTrailerRulesDiffer()
    ensures ParseChildTableResult("[\n ]\n") == Ok([])
    ensures ParseChildTableAddressResult("[\n ]\n") == Err(KeyError)
  {
    var s := "[\n ]\n";
    TrailerInterior(s);
    TrailerDropped(s);
    TrailerParsed(s);
  }

  /** The text `[`, ` ]`, then an empty line has the one interior line ` ]`. */
  lemma TrailerInterior(s: string)
    requires s == "[\n ]\n"
    ensures InteriorLines(s) == [" ]"]
  {
    assert Join("\n", ["[", " ]", ""]) == s;
    SplitOnJoin(["[", " ]", ""], '\n');
  }

  /** The child table drops a last interior line that holds `]`. */
  lemma TrailerDropped(s: string)
    requires InteriorLines(s) == [" ]"]
    ensures ParseChildTableResult(s) == Ok([])
  {
    ContainsChar(" ]", ']');
    assert !Free(" ]", ']') by { assert " ]"[1] == ']'; }
    assert ChildTableLines(s) == [];
  }

  /** The child-address table keeps ` ]` and reading it as an entry raises KeyError. */
  lemma TrailerParsed(s: string)
    requires InteriorLines(s) == [" ]"]
    ensures ParseChildTableAddressResult(s) == Err(KeyError)
  {
    assert ChildAddressTableLines(s) == [" ]"];
    assert Body(" ]") == "";
    assert Split("", ", ", 2) == [""];
  }

  // ------------------------------------------------------------ lists

  /** A list line: `\t"` + the address + its attributes + `"`. */
  function ListLine(addr: string, attrs: string): string
  {
    "\t\"" + addr + attrs + "\""
  }

  function ListLines(addrs: seq<string>, attrs: seq<string>): (r: seq<string>)
    requires |attrs| == |addrs|
    ensures |r| == |addrs| && forall k :: 0 <= k < |addrs| ==> r[k] == ListLine(addrs[k], attrs[k])
  {
    seq(|addrs|, k requires 0 <= k < |addrs| => ListLine(addrs[k], attrs[k]))
  }

  /** The first word of a string that starts with a word. */
  lemma FirstWord(w: string, rest: string)
    requires IsWord(w) && (rest == [] || IsSpace(rest[0]))
    ensures SplitWs(w + rest) != [] && SplitWs(w + rest)[0] == w
  {
    WordRunWord(w, rest);
    assert SpaceRun(w + rest) == 0;
    assert (w + rest)[..|w|] == w;
  }

  /** A printed list line has no line break and starts with its address. */
  lemma ListLineFirst(addr: string, attrs: string)
    requires IsWord(addr) && Free(attrs, '\n') && (attrs == [] || IsSpace(attrs[0]))
    ensures Free(ListLine(addr, attrs), '\n') && FirstToken(ListLine(addr, attrs)) == Ok(addr)
  {
    var body := addr + attrs;
    assert ListLine(addr, attrs) == "\t\"" + body + "\"";
    SliceQuoted(body);
    FirstWord(addr, attrs);
    assert Free(body, '\n') by {
      forall i | 0 <= i < |body| ensures body[i] != '\n' {
        if i >= |addr| {
          assert body[i] == attrs[i - |addr|];
        }
      }
    }
    QuotedFree(body);
  }

  /** Quoting a line-free body keeps it line-free. */
  lemma QuotedFree(body: string)
    requires Free(body, '\n')
    ensures Free("\t\"" + body + "\"", '\n')
  {
    var line := "\t\"" + body + "\"";
    forall i | 0 <= i < |line| ensures line[i] != '\n' {
      if 2 <= i < |line| - 1 {
        assert line[i] == body[i - 2];
      }
    }
  }

  /** `parse_list` gives one item per interior line: that line's first token, or IndexError for a blank line. */
  lemma ParseListShape(s: string)
    ensures var lines := SplitOn(s, '\n');
      ParseList(s).Ok? ==>
        |ParseList(s).value| == (if |lines| >= 2 then |lines| - 2 else 0)
        && forall k :: 0 <= k < |ParseList(s).value| ==> [ParseList(s).value[k]] == SplitWs(Body(lines[k + 1]))[..1]
    ensures var lines := SplitOn(s, '\n');
      ParseList(s).Err? <==> exists k :: 1 <= k < |lines| - 1 && SplitWs(Body(lines[k])) == []
  {
    var lines := SplitOn(s, '\n');
    assert ParseList(s) == MapResult(Slice(lines, 1, -1), FirstToken);
    InteriorOk(lines);
    InteriorErr(lines);
  }

  /** The first tokens of the interior lines, when none is blank. */
  lemma InteriorOk(lines: seq<string>)
    ensures var r := MapResult(Slice(lines, 1, -1), FirstToken);
      r.Ok? ==>
        |r.value| == (if |lines| >= 2 then |lines| - 2 else 0)
        && forall k :: 0 <= k < |r.value| ==> [r.value[k]] == SplitWs(Body(lines[k + 1]))[..1]
  {
    var inner := Slice(lines, 1, -1);
    SliceInner(lines);
    var r := MapResult(inner, FirstToken);
    if r.Ok? {
      forall k | 0 <= k < |r.value| ensures [r.value[k]] == SplitWs(Body(lines[k + 1]))[..1] {
        assert inner[k] == lines[k + 1];
        assert FirstToken(inner[k]) == Ok(r.value[k]);
      }
    }
  }

  /** The interior lines fail to parse exactly when one of them is blank. */
  lemma InteriorErr(lines: seq<string>)
    ensures MapResult(Slice(lines, 1, -1), FirstToken).Err? <==>
      exists k :: 1 <= k < |lines| - 1 && SplitWs(Body(lines[k])) == []
  {
    var inner := Slice(lines, 1, -1);
    SliceInner(lines);
    if MapResult(inner, FirstToken).Err? {
      var k :| 0 <= k < |inner| && FirstToken(inner[k]).Err?;
      assert inner[k] == lines[k + 1];
    }
    if exists k :: 1 <= k < |lines| - 1 && SplitWs(Body(lines[k])) == [] {
      var k :| 1 <= k < |lines| - 1 && SplitWs(Body(lines[k])) == [];
      assert inner[k - 1] == lines[k];
    }
  }

  /** `parse_list` of a printed list gives back its addresses, whatever attributes follow them. */
  lemma ParseListRoundTrip(addrs: seq<string>, attrs: seq<string>)
    requires |attrs| == |addrs|
    requires forall k :: 0 <= k < |addrs| ==> IsWord(addrs[k]) && Free(attrs[k], '\n')
    requires forall k :: 0 <= k < |addrs| ==> attrs[k] == [] || IsSpace(attrs[k][0])
    ensures ParseList(Table(ListLines(addrs, attrs))) == Ok(addrs)
  {
    var lines := ListLines(addrs, attrs);
    forall k | 0 <= k < |addrs| ensures Free(lines[k], '\n') && FirstToken(lines[k]) == Ok(addrs[k]) {
      ListLineFirst(addrs[k], attrs[k]);
    }
    TableInterior(lines);
    MapResultAll(lines, FirstToken, addrs);
  }
}
