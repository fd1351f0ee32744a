/**
 * The 6LoWPAN node profile (silk/node/wpan_node.py; src/node/wpan_node.py
 * is the same code): network credentials, the store labels and typed
 * getters over the node data store, and `ip6_postfix_process`.
 */
module WpanNodes {
  import opened PyCore
  import opened PyInt
  import opened Watchables
  import opened Nodes

  // ---------------------------------------------------------------- credentials

  datatype WpanCredentials = WpanCredentials(
    name: string, psk: string, channel: int, fabricId: string, xpanid: string, panid: int)

  /** `WpanCredentials()` with every argument left at its default. */
  const DefaultCredentials := WpanCredentials("wpan", "0", 0, "abdefabcdef", "000000000", 0)

  /** The lines of `str(credentials)`, without their newlines. */
  function CredentialLines(c: WpanCredentials): seq<string>
  {
    ["Network Name: " + c.name, "PSK: " + c.psk, "NCP:Channel: " + IntStr(c.channel),
     "Fabric ID: " + c.fabricId, "Network:PANID: " + IntStr(c.panid), "Network:XPANID: " + c.xpanid]
  }

  /** `str(credentials)`: the six lines, each but the last ended by a newline. */
  function CredentialsText(c: WpanCredentials): string
  {
    Join("\n", CredentialLines(c))
  }

  lemma IntStrFree(i: int, c: char)
    requires c != '-' && !('0' <= c <= '9')
    ensures Free(IntStr(i), c)
  {
    var d := Dec(if i < 0 then -i else i);
    if i < 0 {
      FreeConcat("-", d, c);
    }
  }

  /** Splitting `str(credentials)` at newlines gives back the six lines, when no value holds a newline. */
  lemma CredentialsTextLines(c: WpanCredentials)
    requires Free(c.name, '\n') && Free(c.psk, '\n') && Free(c.fabricId, '\n') && Free(c.xpanid, '\n')
    ensures SplitOn(CredentialsText(c), '\n') == CredentialLines(c)
  {
    var l := CredentialLines(c);
    IntStrFree(c.channel, '\n');
    IntStrFree(c.panid, '\n');
    FreeConcat("Network Name: ", c.name, '\n');
    FreeConcat("PSK: ", c.psk, '\n');
    FreeConcat("NCP:Channel: ", IntStr(c.channel), '\n');
    FreeConcat("Fabric ID: ", c.fabricId, '\n');
    FreeConcat("Network:PANID: ", IntStr(c.panid), '\n');
    FreeConcat("Network:XPANID: ", c.xpanid, '\n');
    SplitOnJoin(l, '\n');
  }

  /** The default credentials: network `wpan`, PSK `0`, channel 0, PAN ID 0. */
  lemma DefaultCredentialLines()
    ensures CredentialLines(DefaultCredentials) ==
      ["Network Name: wpan", "PSK: 0", "NCP:Channel: 0", "Fabric ID: abdefabcdef",
       "Network:PANID: 0", "Network:XPANID: 000000000"]
  {
    var c := DefaultCredentials;
    assert IntStr(0) == "0";
    assert "Network Name: " + c.name == "Network Name: wpan";
    assert "PSK: " + c.psk == "PSK: 0";
    assert "NCP:Channel: " + IntStr(c.channel) == "NCP:Channel: 0";
    assert "Fabric ID: " + c.fabricId == "Fabric ID: abdefabcdef";
    assert "Network:PANID: " + IntStr(c.panid) == "Network:PANID: 0";
    assert "Network:XPANID: " + c.xpanid == "Network:XPANID: 000000000";
  }

  // ---------------------------------------------------------------- labels

  const NetworkStateLabel := "wpan_network_state"
  const VersionLabel := "wpan_version"
  const MacAddrLabel := "wpan_mac_addr"
  const PanidLabel := "panid"
  const ChannelLabel := "channel"
  const Ip6PostfixLabel := "ip6_postfix"

  /** The address kinds a node tracks, in registration order. */
  const AddressTypes := ["LLA", "Mesh-Local", "Weave Legacy", "Weave Thread"]

  /** `'wpan_address(%s)' % address_type`. */
  function AddressLabel(addressType: string): (r: string)
    ensures |r| == |addressType| + 14
    ensures r[..13] == "wpan_address(" && r[13..|r| - 1] == addressType && r[|r| - 1] == ')'
  {
    "wpan_address(" + addressType + ")"
  }

  /** Different address kinds get different labels, none of them a fixed label of the node. */
  lemma AddressLabelsDistinct(a: string, b: string)
    ensures AddressLabel(a) == AddressLabel(b) ==> a == b
    ensures AddressLabel(a) != NetworkStateLabel && AddressLabel(a) != VersionLabel
  {
    var la, lb := AddressLabel(a), AddressLabel(b);
    if la == lb {
      assert a == la[13..|la| - 1];
    }
    assert la[5] == 'a' && NetworkStateLabel[5] == 'n';
  }

  /** The labels of the two ULA getters. */
  lemma UlaLabels()
    ensures AddressLabel(AddressTypes[2]) == "wpan_address(Weave Legacy)"
    ensures AddressLabel(AddressTypes[3]) == "wpan_address(Weave Thread)"
  {
  }

  /** The labels of the address kinds `types`. */
  function AddressLabels(types: seq<string>): set<string>
  {
    if types == [] then {} else AddressLabels(types[..|types| - 1]) + {AddressLabel(types[|types| - 1])}
  }

  /** An address kind not among `types` has a label not among theirs. */
  lemma {:induction false} AddressLabelNew(types: seq<string>, t: string)
    requires t !in types
    ensures AddressLabel(t) !in AddressLabels(types)
    decreases |types|
  {
    if types != [] {
      var u := types[|types| - 1];
      assert u in types;
      AddressLabelsDistinct(u, t);
      assert forall x :: x in types[..|types| - 1] ==> x in types;
      AddressLabelNew(types[..|types| - 1], t);
    }
  }

  /** The labels the constructor registers. */
  function NodeLabels(): set<string>
  {
    {NetworkStateLabel, VersionLabel} + AddressLabels(AddressTypes)
  }

  /** A store as the constructor leaves it: exactly `labels`, each holding a history cell that starts as None. */
  predicate Registered(store: map<string, Value>, labels: set<string>)
  {
    store.Keys == labels &&
    (forall f :: f in store ==> store[f].History? && store[f].h.initial == Null)
  }

  /** Every cell in the store has an empty history. */
  predicate Unset(store: map<string, Value>)
    reads set f | f in store && store[f].History? :: store[f].h
  {
    forall f :: f in store && store[f].History? ==> store[f].h.history == []
  }

  /** `store_data(WatchableWithHistory(name=...), field)` on a field the store does not hold yet. */
  method Register(n: BaseNode, field: string, watchName: string)
    requires field !in n.store
    requires Registered(n.store, n.store.Keys) && Unset(n.store)
    modifies n
    ensures Registered(n.store, old(n.store.Keys) + {field}) && Unset(n.store)
    ensures n.error == old(n.error)
    ensures old(Apart(n.store)) ==> Apart(n.store)
  {
    var cell := new WatchableWithHistory(Null, Some(watchName));
    assert forall f :: f in n.store ==> Holder(History(cell)) !! Holder(n.store[f]);
    n.StoreData(History(cell), field, Null);
  }

  /** No kind listed twice. */
  predicate DistinctTypes(types: seq<string>)
  {
    forall i, j :: 0 <= i < j < |types| ==> types[i] != types[j]
  }

  /** The `for address_type in WPAN_ADDRESS_TYPES` loop of the constructor. */
  method RegisterAddresses(n: BaseNode, types: seq<string>)
    requires DistinctTypes(types)
    requires Registered(n.store, n.store.Keys) && Unset(n.store)
    requires forall t :: t in types ==> AddressLabel(t) !in n.store
    modifies n
    ensures Registered(n.store, old(n.store.Keys) + AddressLabels(types)) && Unset(n.store)
    ensures n.error == old(n.error)
    ensures old(Apart(n.store)) ==> Apart(n.store)
  {
    ghost var keys := n.store.Keys;
    ghost var separate := Apart(n.store);
    for i := 0 to |types|
      invariant Registered(n.store, keys + AddressLabels(types[..i])) && Unset(n.store)
      invariant n.error == old(n.error)
      invariant separate ==> Apart(n.store)
    {
      RegisterNext(n, types, i, keys);
    }
    assert types[..|types|] == types;
  }

  /** One turn of that loop: the `i`-th kind's label is registered. */
  method RegisterNext(n: BaseNode, types: seq<string>, i: nat, ghost keys: set<string>)
    requires DistinctTypes(types) && i < |types|
    requires forall t :: t in types ==> AddressLabel(t) !in keys
    requires Registered(n.store, keys + AddressLabels(types[..i])) && Unset(n.store)
    modifies n
    ensures Registered(n.store, keys + AddressLabels(types[..i + 1])) && Unset(n.store)
    ensures n.error == old(n.error)
    ensures old(Apart(n.store)) ==> Apart(n.store)
  {
    var t := types[i];
    LabelStep(types, i, keys);
    Register(n, AddressLabel(t), t);
  }

  /** The next kind's label is new, and registering it extends the labels of the kinds so far by one. */
  lemma LabelStep(types: seq<string>, i: nat, keys: set<string>)
    requires DistinctTypes(types) && i < |types|
    requires forall t :: t in types ==> AddressLabel(t) !in keys
    ensures AddressLabel(types[i]) !in keys + AddressLabels(types[..i])
    ensures (keys + AddressLabels(types[..i])) + {AddressLabel(types[i])} == keys + AddressLabels(types[..i + 1])
  {
    var t := types[i];
    assert t !in types[..i];
    AddressLabelNew(types[..i], t);
    assert types[..i + 1][..i] == types[..i];
    assert AddressLabels(types[..i + 1]) == AddressLabels(types[..i]) + {AddressLabel(t)};
  }

  /**
   * `WpanNode(name)`: a node whose store holds a new history cell, starting
   * as None and with no entries, under `wpan_network_state`, `wpan_version`
   * and the label of each address kind, and nothing else.
   */
  method NewWpanNode(name: string) returns (n: BaseNode)
    ensures fresh(n) && n.name == name && n.error == None
    ensures Registered(n.store, NodeLabels()) && Unset(n.store)
    ensures Apart(n.store)
  {
    n := new BaseNode(name);
    Register(n, NetworkStateLabel, "WPAN network state");
    Register(n, VersionLabel, "WPAN radio version");
    AddressTypesFresh(AddressTypes, n.store);
    RegisterAddresses(n, AddressTypes);
  }

  /** The kinds are distinct and none of their labels is one of the two fixed ones. */
  lemma AddressTypesFresh(types: seq<string>, store: map<string, Value>)
    requires types == AddressTypes && store.Keys == {NetworkStateLabel, VersionLabel}
    ensures DistinctTypes(types)
    ensures forall t :: t in types ==> AddressLabel(t) !in store
  {
    assert types[0][0] == 'L' && types[1][0] == 'M' && types[2][0] == 'W' && types[3][0] == 'W';
    assert types[2][6] == 'L' && types[3][6] == 'T';
    forall t | t in types ensures AddressLabel(t) !in store {
      AddressLabelsDistinct(t, t);
    }
  }

  // ---------------------------------------------------------------- getters

  /** `''.join(parts)`. */
  function Concat(parts: seq<string>): string
  {
    if parts == [] then [] else parts[0] + Concat(parts[1..])
  }

  /** Removing the separator from a joined text leaves the parts run together. */
  lemma {:induction false} JoinWithout(parts: seq<string>, c: char)
    requires forall k :: 0 <= k < |parts| ==> Free(parts[k], c)
    ensures Without(Join([c], parts), c) == Concat(parts)
    decreases |parts|
  {
    if parts == [] {
    } else if |parts| == 1 {
      WithoutFree(parts[0], c);
      assert Concat(parts[1..]) == [];
    } else {
      JoinWithout(parts[1..], c);
      WithoutFree(parts[0], c);
      WithoutConcat(parts[0] + [c], Join([c], parts[1..]), c);
      WithoutConcat(parts[0], [c], c);
      assert Join([c], parts) == (parts[0] + [c]) + Join([c], parts[1..]);
    }
  }

  /**
   * `wpan_mac_addr`: the stored value with every `':'` removed, `''` when
   * the field is absent; a value without `replace` raises AttributeError.
   */
  function MacAddr(store: map<string, Value>): (r: Result<string>)
    ensures MacAddrLabel !in store ==> r == Ok("")
    ensures r.Ok? ==> Free(r.value, ':')
    ensures r.Err? ==> r.error == AttributeError
  {
    var v := Lookup(store, MacAddrLabel, Str(""));
    if v.Str? then
      ReplaceCharByNothing(v.s, ':');
      Ok(Replace(v.s, ":", ""))
    else Err(AttributeError)
  }

  /** A colon-separated address reads back as its groups run together. */
  lemma MacAddrGroups(store: map<string, Value>, groups: seq<string>)
    requires forall k :: 0 <= k < |groups| ==> Free(groups[k], ':')
    requires MacAddrLabel in store && store[MacAddrLabel] == Str(Join(":", groups))
    ensures MacAddr(store) == Ok(Concat(groups))
  {
    ReplaceCharByNothing(Join(":", groups), ':');
    JoinWithout(groups, ':');
  }

  /** `panid` as written: `get_data('panid', 'hex-int', default=-1)`. */
  function PanidAsWritten(store: map<string, Value>): Result<Value>
  {
    GetDataOf(store, PanidLabel, HexInt, Int(-1))
  }

  /** `panid` as evidently intended: -1 when absent, else the stored text read as hex. */
  function Panid(store: map<string, Value>): Result<Value>
  {
    GetDataDefaulted(store, PanidLabel, HexInt, Int(-1))
  }

  /** With no PAN ID stored, the getter as written raises TypeError, the intended one gives -1. */
  lemma PanidAbsent(store: map<string, Value>)
    requires PanidLabel !in store
    ensures PanidAsWritten(store) == Err(TypeError)
    ensures Panid(store) == Ok(Int(-1))
  {
    HexDefaultRaises(store, PanidLabel, -1);
  }

  /** A PAN ID stored as `wpanctl` prints it (`0x` and four hex digits) reads back as the number. */
  lemma PanidRoundTrip(store: map<string, Value>, n: nat)
    requires !(PanidLabel in store && IsWatchable(store[PanidLabel]))
    ensures var s := StoreAfter(store, PanidLabel, Str("0x" + PadZeros(Hex(n), 4)));
      Panid(s) == Ok(Int(n)) && PanidAsWritten(s) == Ok(Int(n))
  {
    var t := "0x" + PadZeros(Hex(n), 4);
    PanidText(n);
    var s := StoreAfter(store, PanidLabel, Str(t));
    assert s[PanidLabel] == Str(t);
    assert HexIntOf(s[PanidLabel]) == Ok(n);
  }

  /** The printed PAN ID has no blanks to strip and reads back in base 16. */
  lemma PanidText(n: nat)
    ensures var t := "0x" + PadZeros(Hex(n), 4); Stripped(Str(t)) == Str(t) && ParseInt(t, 16) == Ok(n)
  {
    var d := PadZeros(Hex(n), 4);
    var t := "0x" + d;
    PaddedHexPlain(n, 4);
    assert PlainDigit(d[|d| - 1]);
    assert t[|t| - 1] == d[|d| - 1];
    StrippedKeeps(t);
    ParseHexOfPrefixed(n, 4);
  }

  /** `channel`: `get_data('channel', int, default=0)`. */
  function Channel(store: map<string, Value>): (r: Result<Value>)
    ensures ChannelLabel !in store ==> r == Ok(Int(0))
    ensures r.Ok? ==> r.value.Int?
  {
    GetDataOf(store, ChannelLabel, ToInt, Int(0))
  }

  /** A channel stored as decimal text reads back as the number. */
  lemma ChannelRoundTrip(store: map<string, Value>, n: nat)
    requires !(ChannelLabel in store && IsWatchable(store[ChannelLabel]))
    ensures Channel(StoreAfter(store, ChannelLabel, Str(Dec(n)))) == Ok(Int(n))
  {
    StoreCountThenGet(store, ChannelLabel, n, Int(0));
  }

  // ---------------------------------------------------------------- ip6_postfix_process

  /** `[i + j for i, j in zip(g[::2], g[1::2])]`: adjacent groups paired, an unpaired last one dropped. */
  function Pairs(groups: seq<string>): (r: seq<string>)
    ensures |r| == |groups| / 2
    ensures forall k :: 0 <= k < |r| ==> r[k] == groups[2 * k] + groups[2 * k + 1]
  {
    if |groups| < 2 then [] else [groups[0] + groups[1]] + Pairs(groups[2..])
  }

  /** Pairing keeps every group of an even count, in order. */
  lemma {:induction false} PairsConcat(groups: seq<string>)
    requires |groups| % 2 == 0
    ensures Concat(Pairs(groups)) == Concat(groups)
    decreases |groups|
  {
    if groups != [] {
      PairsConcat(groups[2..]);
      assert groups[1..][1..] == groups[2..];
      assert Concat(groups) == groups[0] + (groups[1] + Concat(groups[2..]));
    }
  }

  /** The text `ip6_postfix_process` stores back: the pairs joined with `':'`, its first two characters dropped. */
  function Postfix(s: string): string
  {
    From(Join(":", Pairs(SplitOn(s, ':'))), 2)
  }

  /**
   * For an address of an even number of colon-free groups, the postfix is
   * the regrouped text (minus its first two characters), and removing its
   * colons gives the address's characters.
   */
  lemma PostfixRegroups(groups: seq<string>)
    requires groups != [] && |groups| % 2 == 0
    requires forall k :: 0 <= k < |groups| ==> Free(groups[k], ':')
    ensures Postfix(Join(":", groups)) == From(Join(":", Pairs(groups)), 2)
    ensures Without(Join(":", Pairs(groups)), ':') == Concat(groups)
  {
    SplitOnJoin(groups, ':');
    var p := Pairs(groups);
    forall k | 0 <= k < |p| ensures Free(p[k], ':') {
      assert p[k] == groups[2 * k] + groups[2 * k + 1];
    }
    JoinWithout(p, ':');
    PairsConcat(groups);
  }

  /**
   * `ip6_postfix_process()`: the stored text is regrouped and stored back;
   * a field holding no string (absent, or a watchable) raises AttributeError
   * and nothing changes.
   */
  method Ip6PostfixProcess(n: BaseNode, now: Value) returns (r: Result<()>)
    modifies n
    ensures var v := Lookup(old(n.store), Ip6PostfixLabel, Null);
      if v.Str? then r == Ok(()) && n.store == old(n.store)[Ip6PostfixLabel := Str(Strip(Postfix(v.s)))]
      else r == Err(AttributeError) && n.store == old(n.store)
    ensures n.error == old(n.error)
  {
    var v := n.GetData(Ip6PostfixLabel, AsIs, Null);
    if !v.value.Str? {
      return Err(AttributeError);
    }
    n.StoreData(Str(Postfix(v.value.s)), Ip6PostfixLabel, now);
    r := Ok(());
  }

  /**
   * `wpan_network_state_clear()`: the network-state watchable is set to
   * NETWORK_STATE_NO_NETWORK (0); a field that holds no watchable raises
   * AttributeError.
   */
  method NetworkStateClear(n: BaseNode, now: Value) returns (r: Result<()>)
    modifies n.Target(NetworkStateLabel)
    ensures var v := Lookup(n.store, NetworkStateLabel, Null);
      r.Ok? <==> IsWatchable(v)
    ensures var v := Lookup(n.store, NetworkStateLabel, Null);
      v.History? ==> v.h.history == old(v.h.history) + [Item(now, Int(0))] && v.h.Valid()
    ensures var v := Lookup(n.store, NetworkStateLabel, Null);
      v.Cell? ==> v.w.value == Int(0)
    ensures r.Err? ==> r.error == AttributeError
  {
    var v := n.GetData(NetworkStateLabel, AsIs, Null);
    match v.value {
      case History(h) =>
        h.Set(now, Int(0));
        r := Ok(());
      case Cell(w) =>
        var _, _ := w.Set(Int(0));
        r := Ok(());
      case _ =>
        r := Err(AttributeError);
    }
  }
}
