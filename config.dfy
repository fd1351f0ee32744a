/**
 * The blacklist and port mapping (silk/config/config.py, under Python 3).
 * Its copy src/config/config.py is Python 2 code: there `json.load` gives
 * unicode strings, which `str()` shows as `u'...'`, and a dict prints in
 * hash order, so its `str()` text is not the one modelled here; the
 * changes it makes to the blacklist and the mapping are the same.
 *
 * A `Config` holds a list of blacklisted device serials and a dict from
 * serial to port, and writes both to a JSON file after every change. The
 * file is a parameter here: what `json.load` made of it when it was read,
 * and the content `store()` last wrote.
 */
module Config {
  import opened PyCore
  import opened PyRepr

  const BlacklistKey := "blacklist"
  const PortMappingKey := "port_mapping"
  const ConfigFilenameDefault := "hwconfig.ini"

  /** A Python dict from strings to strings: its keys in insertion order, and the value of each. */
  datatype Dict = Dict(keys: seq<string>, values: map<string, string>)

  predicate Distinct(xs: seq<string>)
  {
    forall i, j :: 0 <= i < j < |xs| ==> xs[i] != xs[j]
  }

  /** Each key once in the order, and the order holds exactly the keys of the map. */
  ghost predicate DictValid(d: Dict)
  {
    Distinct(d.keys) && (forall k :: k in d.values <==> k in d.keys)
  }

  const EmptyDict := Dict([], map[])

  /** `d[k] = v`: a new key joins the end of the order; a known key keeps its place. */
  function SetItem(d: Dict, k: string, v: string): (r: Dict)
    requires DictValid(d)
    ensures DictValid(r)
  {
    if k in d.values then Dict(d.keys, d.values[k := v]) else Dict(d.keys + [k], d.values[k := v])
  }

  /** What `store()` writes: the blacklist and the port mapping. */
  datatype Stored = Stored(blacklist: seq<string>, portMapping: Dict)

  /**
   * The JSON object read from the file: for each of the two keys, absent
   * (None), `null` (Some(None)) or a value.
   */
  datatype Raw = Raw(blacklist: Option<Option<seq<string>>>, portMapping: Option<Option<Dict>>)

  /** The outcome of reading the file: missing (IOError), not JSON (ValueError), or its object. */
  datatype Read = Missing | NotJson | Json(raw: Raw)

  /** `json.load` gives a well-formed dict. */
  ghost predicate ReadValid(file: Read)
  {
    file.Json? && file.raw.portMapping.Some? && file.raw.portMapping.value.Some? ==>
      DictValid(file.raw.portMapping.value.value)
  }

  /** The content of a `Config`: the blacklist, the port mapping, and what the file holds. */
  datatype Content = Content(blacklist: seq<string>, portMapping: Dict, stored: Option<Stored>)

  /** `store()`: the file now holds the blacklist and the port mapping. */
  function Saved(s: Content): Content
  {
    s.(stored := Some(Stored(s.blacklist, s.portMapping)))
  }

  /**
   * `load()`: a missing file, or one that is not JSON, is (re)written from
   * the current content; otherwise each key present replaces its part,
   * `null` standing for empty.
   */
  function Loaded(s: Content, file: Read): Content
  {
    match file
      case Missing => Saved(s)
      case NotJson => Saved(s)
      case Json(raw) =>
        var b := if raw.blacklist.None? then s.blacklist
                 else if raw.blacklist.value.None? then [] else raw.blacklist.value.value;
        var m := if raw.portMapping.None? then s.portMapping
                 else if raw.portMapping.value.None? then EmptyDict else raw.portMapping.value.value;
        s.(blacklist := b, portMapping := m)
  }

  /** `serial` added at the end unless it is already there. */
  function Appended(blacklist: seq<string>, serial: string): seq<string>
  {
    if serial in blacklist then blacklist else blacklist + [serial]
  }

  /** `_check_blacklist_serial(serial)`: mapped when the mapping is not empty and holds the serial. */
  function Mapped(d: Dict, serial: string): (r: bool)
    requires DictValid(d)
    ensures r <==> serial in d.values
  {
    if d.keys != [] then serial in d.values else false
  }

  /** Every serial of the list is mapped. */
  ghost predicate AllMapped(blacklist: seq<string>, d: Dict)
    requires DictValid(d)
  {
    forall i :: 0 <= i < |blacklist| ==> Mapped(d, blacklist[i])
  }

  /** `xs` is `ys` with some elements left out, the rest in their order. */
  predicate SubList(xs: seq<string>, ys: seq<string>)
    decreases |ys|
  {
    if xs == [] then true
    else if ys == [] then false
    else (xs[0] == ys[0] && SubList(xs[1..], ys[1..])) || SubList(xs, ys[1..])
  }

  /** The serials of the list that are not mapped, in list order. */
  function Unmapped(blacklist: seq<string>, d: Dict): (r: seq<string>)
    requires DictValid(d)
    ensures |r| <= |blacklist|
    ensures SubList(r, blacklist)
    ensures forall i :: 0 <= i < |r| ==> !Mapped(d, r[i])
  {
    if blacklist == [] then []
    else
      var rest := Unmapped(blacklist[1..], d);
      if Mapped(d, blacklist[0]) then rest
      else
        var r := [blacklist[0]] + rest;
        assert r[1..] == rest;
        r
  }

  /** `str()`: the blacklist when there is one, then the port mapping when there is one, with nothing between. */
  function Text(s: Content): string
    requires DictValid(s.portMapping)
  {
    (if s.blacklist != [] then "Blacklist: " + ListRepr(s.blacklist) else "")
    + (if s.portMapping.keys != [] then "Port mapping: " + DictRepr(s.portMapping.keys, s.portMapping.values) else "")
  }

  class Config {
    const configFile: string
    var blacklist: seq<string>
    var portMapping: Dict
    /** What the file holds after the last `store()`, if any. */
    var stored: Option<Stored>

    ghost predicate Valid()
      reads this
    {
      DictValid(portMapping)
    }

    function State(): Content
      reads this
    {
      Content(blacklist, portMapping, stored)
    }

    /**
     * `Config(config_file)`: the file defaults to `hwconfig.ini` in the
     * home directory; the content starts empty and is then loaded.
     */
    constructor(configFile: Option<string>, home: string, file: Read)
      requires ReadValid(file)
      ensures Valid()
      ensures this.configFile == (if TruthyStr(configFile) then configFile.value else home + "/" + ConfigFilenameDefault)
      ensures State() == Loaded(Content([], EmptyDict, None), file)
    {
      this.configFile := if TruthyStr(configFile) then configFile.value else home + "/" + ConfigFilenameDefault;
      blacklist := [];
      portMapping := EmptyDict;
      stored := None;
      new;
      Load(file);
    }

    /** `load()`. */
    method Load(file: Read)
      requires Valid() && ReadValid(file)
      modifies this
      ensures Valid()
      ensures State() == Loaded(old(State()), file)
    {
      match file {
        case Missing =>
          Store();
        case NotJson =>
          Store();
        case Json(raw) =>
          if raw.blacklist.Some? {
            LoadBlacklist(raw.blacklist.value);
          }
          if raw.portMapping.Some? {
            LoadPortMapping(raw.portMapping.value);
          }
      }
    }

    /** `store()`. */
    method Store()
      modifies this
      ensures State() == Saved(old(State()))
    {
      stored := Some(Stored(blacklist, portMapping));
    }

    /** `_load_blacklist(blacklist)`: `None` stands for the empty list. */
    method LoadBlacklist(b: Option<seq<string>>)
      modifies this
      ensures blacklist == (if b.None? then [] else b.value)
      ensures portMapping == old(portMapping) && stored == old(stored)
    {
      blacklist := if b.None? then [] else b.value;
    }

    /** `_load_port_mapping(port_mapping)`: `None` stands for the empty dict. */
    method LoadPortMapping(m: Option<Dict>)
      requires m.Some? ==> DictValid(m.value)
      modifies this
      ensures portMapping == (if m.None? then EmptyDict else m.value)
      ensures blacklist == old(blacklist) && stored == old(stored)
    {
      portMapping := if m.None? then EmptyDict else m.value;
    }

    /** `update_port_mapping(device_serial, port)`: one entry set, then the file written. */
    method UpdatePortMapping(serial: string, port: string)
      requires Valid()
      modifies this
      ensures Valid()
      ensures State() == Saved(old(State()).(portMapping := SetItem(old(portMapping), serial, port)))
    {
      portMapping := SetItem(portMapping, serial, port);
      Store();
    }

    /** `add_to_blacklist(serial)`: appended when absent, then the file written. */
    method AddToBlacklist(serial: string)
      requires Valid()
      modifies this
      ensures Valid()
      ensures State() == Saved(old(State()).(blacklist := Appended(old(blacklist), serial)))
    {
      if serial !in blacklist {
        blacklist := blacklist + [serial];
      }
      Store();
    }

    /** `get_blacklist()`. */
    method GetBlacklist() returns (r: seq<string>)
      ensures r == blacklist
    {
      return blacklist;
    }

    /** `get_port(serial)`: KeyError for a serial that is not mapped. */
    method GetPort(serial: string) returns (r: Result<string>)
      requires Valid()
      ensures r.Ok? <==> Mapped(portMapping, serial)
      ensures r.Ok? ==> r.value == portMapping.values[serial]
      ensures r.Err? ==> r.error == KeyError
    {
      if serial !in portMapping.values {
        return Err(KeyError);
      }
      return Ok(portMapping.values[serial]);
    }

    /** `blacklist_mapped()`, that is `_check_blacklist()`: the loop accumulating `mapped &= ...`. */
    method BlacklistMapped() returns (mapped: bool)
      requires Valid()
      ensures mapped <==> AllMapped(blacklist, portMapping)
    {
      mapped := true;
      if blacklist != [] {
        for k := 0 to |blacklist|
          invariant mapped <==> AllMapped(blacklist[..k], portMapping)
        {
          var current := Mapped(portMapping, blacklist[k]);
          assert blacklist[..k + 1] == blacklist[..k] + [blacklist[k]];
          mapped := mapped && current;
        }
        assert blacklist[..|blacklist|] == blacklist;
      }
    }

    /** `get_unmapped_blacklist()`: the loop collecting the serials not mapped. */
    method GetUnmappedBlacklist() returns (unmapped: seq<string>)
      requires Valid()
      ensures unmapped == Unmapped(blacklist, portMapping)
    {
      unmapped := [];
      for k := 0 to |blacklist|
        invariant unmapped == Unmapped(blacklist[..k], portMapping)
      {
        UnmappedSnoc(blacklist[..k], blacklist[k], portMapping);
        assert blacklist[..k + 1] == blacklist[..k] + [blacklist[k]];
        if !Mapped(portMapping, blacklist[k]) {
          unmapped := unmapped + [blacklist[k]];
        }
      }
      assert blacklist[..|blacklist|] == blacklist;
    }

    /** `str()`. */
    function Str(): (r: string)
      requires Valid()
      reads this
      ensures r == Text(State())
    {
      Text(State())
    }
  }

  // ------------------------------------------------------------ lemmas

  /** Extending the list by one serial extends the unmapped serials by it, when it is not mapped. */
  lemma {:induction false} UnmappedSnoc(b: seq<string>, x: string, d: Dict)
    requires DictValid(d)
    ensures Unmapped(b + [x], d) == Unmapped(b, d) + (if Mapped(d, x) then [] else [x])
  {
    UnmappedAppend(b, [x], d);
    assert [x][1..] == [];
  }

  /** The unmapped serials of two lists joined are those of the first, then those of the second. */
  lemma {:induction false} UnmappedAppend(a: seq<string>, b: seq<string>, d: Dict)
    requires DictValid(d)
    ensures Unmapped(a + b, d) == Unmapped(a, d) + Unmapped(b, d)
  {
    if a == [] {
      assert a + b == b;
    } else {
      assert (a + b)[0] == a[0] && (a + b)[1..] == a[1..] + b;
      UnmappedAppend(a[1..], b, d);
    }
  }

  /** A serial is unmapped exactly when it is in the list and not mapped. */
  lemma {:induction false} UnmappedMembers(b: seq<string>, d: Dict, x: string)
    requires DictValid(d)
    ensures x in Unmapped(b, d) <==> x in b && x !in d.values
  {
    if b != [] {
      UnmappedMembers(b[1..], d, x);
      assert x in b <==> x == b[0] || x in b[1..];
    }
  }

  /** `blacklist_mapped()` and `get_unmapped_blacklist()` are two views of one fact. */
  lemma {:induction false} MappedIffNoneUnmapped(b: seq<string>, d: Dict)
    requires DictValid(d)
    ensures AllMapped(b, d) <==> Unmapped(b, d) == []
  {
    if b != [] {
      MappedIffNoneUnmapped(b[1..], d);
      assert AllMapped(b, d) <==> Mapped(d, b[0]) && AllMapped(b[1..], d) by {
        if Mapped(d, b[0]) && AllMapped(b[1..], d) {
          forall i | 0 <= i < |b| ensures Mapped(d, b[i]) {
            if i > 0 {
              assert b[i] == b[1..][i - 1];
            }
          }
        }
      }
    }
  }

  /** An empty blacklist is mapped, whatever the mapping. */
  lemma EmptyBlacklistMapped(d: Dict)
    requires DictValid(d)
    ensures AllMapped([], d) && Unmapped([], d) == []
  {
  }

  /** `add_to_blacklist` keeps the list free of duplicates. */
  lemma AppendedDistinct(b: seq<string>, serial: string)
    requires Distinct(b)
    ensures Distinct(Appended(b, serial))
    ensures forall x :: x in Appended(b, serial) <==> x in b || x == serial
  {
  }

  /** `add_to_blacklist` twice is `add_to_blacklist` once. */
  lemma AppendedIdempotent(b: seq<string>, serial: string)
    ensures Appended(Appended(b, serial), serial) == Appended(b, serial)
  {
  }

  /** `update_port_mapping` sets one entry and leaves every other as it was. */
  lemma SetItemOthers(d: Dict, k: string, v: string)
    requires DictValid(d)
    ensures k in SetItem(d, k, v).values && SetItem(d, k, v).values[k] == v
    ensures forall j :: j != k ==> (j in SetItem(d, k, v).values <==> j in d.values)
    ensures forall j :: j != k && j in d.values ==> SetItem(d, k, v).values[j] == d.values[j]
    ensures |SetItem(d, k, v).keys| == |d.keys| + (if k in d.values then 0 else 1)
    ensures SetItem(d, k, v).keys[..|d.keys|] == d.keys
    ensures k !in d.values ==> SetItem(d, k, v).keys[|d.keys|] == k
  {
  }

  /** Loading `null` for both keys gives the empty blacklist and the empty mapping. */
  lemma LoadNulls(s: Content)
    ensures Loaded(s, Json(Raw(Some(None), Some(None)))) == s.(blacklist := [], portMapping := EmptyDict)
  {
  }

  /** A missing or unreadable file is written back from the content, which is otherwise unchanged. */
  lemma LoadUnreadable(s: Content, file: Read)
    requires file.Missing? || file.NotJson?
    ensures Loaded(s, file) == Saved(s)
    ensures Loaded(s, file).stored == Some(Stored(s.blacklist, s.portMapping))
  {
  }

  /** A config with nothing in it prints as the empty string. */
  lemma EmptyText(stored: Option<Stored>)
    ensures Text(Content([], EmptyDict, stored)) == ""
  {
  }

  /** A non-empty blacklist prints first, as its serials between brackets. */
  lemma TextStartsWithBlacklist(s: Content)
    requires DictValid(s.portMapping) && s.blacklist != []
    ensures StartsWith(Text(s), "Blacklist: [")
  {
    var t := Text(s);
    var l := "Blacklist: " + ListRepr(s.blacklist);
    assert t[..|l|] == l;
    assert l[..12] == "Blacklist: [";
  }
}
