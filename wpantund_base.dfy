/**
 * The wpantund node (silk/node/wpantund_base.py, and its copy in
 * src/node/wpantund_base.py): the role table, the `wpanctl` command lines the
 * node builds, what it reads out of `wpanctl`'s replies, and the order in
 * which `form`, `join` and their kin store data and queue commands. The
 * `wpanctl` a dev board provides is replaced by a recorder: each call is
 * appended to a log, and a synchronous call answers with a reply the caller
 * of the model chooses.
 */
module WpantundBase {
  import opened PyCore
  import opened PyInt
  import opened Watchables
  import opened Nodes
  import opened WpanNodes
  import opened CommandLine

  // ---------------------------------------------------------------- roles

  /** A key of the role table: a role name or a role number. */
  datatype RoleKey = RoleName(name: string) | RoleNum(num: int)

  /** `ROLES[key]`, None where Python raises KeyError: names map to numbers 2 to 4 and back. */
  function Roles(key: RoleKey): Option<RoleKey>
  {
    match key
    case RoleName(s) =>
      if s == "router" then Some(RoleNum(2))
      else if s == "end-node" then Some(RoleNum(3))
      else if s == "sleepy-end-device" then Some(RoleNum(4))
      else None
    case RoleNum(n) =>
      if n == 2 then Some(RoleName("router"))
      else if n == 3 then Some(RoleName("end-node"))
      else if n == 4 then Some(RoleName("sleepy-end-device"))
      else None
  }

  /** The table is its own inverse, and maps names to numbers and numbers to names. */
  lemma RolesInverse(key: RoleKey)
    requires Roles(key).Some?
    ensures Roles(Roles(key).value) == Some(key)
    ensures key.RoleName? <==> Roles(key).value.RoleNum?
  {
  }

  /**
   * `role_is_thread(role)`: a number is a thread role when it is 2, 3 or 4;
   * a name is looked up first, so every known name is a thread role and an
   * unknown one raises KeyError rather than giving False.
   */
  function RoleIsThread(role: RoleKey): (r: Result<bool>)
    ensures role.RoleNum? ==> r == Ok(role.num in {2, 3, 4})
    ensures role.RoleName? ==> r == if Roles(role).Some? then Ok(true) else Err(KeyError)
  {
    var number := if role.RoleNum? then Some(role) else Roles(role);
    if number.None? then Err(KeyError)
    else Ok(number.value.RoleNum? && number.value.num in [2, 3, 4])
  }

  /** `role_supports_legacy(role)` (src only): numbers 0x82 and 6; a known name never. */
  function RoleSupportsLegacy(role: RoleKey): (r: Result<bool>)
    ensures role.RoleNum? ==> r == Ok(role.num in {0x82, 6})
    ensures role.RoleName? ==> r == if Roles(role).Some? then Ok(false) else Err(KeyError)
  {
    var number := if role.RoleNum? then Some(role) else Roles(role);
    if number.None? then Err(KeyError)
    else Ok(number.value.RoleNum? && number.value.num in [0x82, 6])
  }

  /** The thread roles are exactly the keys of the table. */
  lemma ThreadRolesAreKeys(role: RoleKey)
    ensures RoleIsThread(role) == Ok(true) <==> Roles(role).Some?
  {
  }

  /** No role is both a thread role and a legacy one. */
  lemma ThreadExcludesLegacy(role: RoleKey)
    ensures !(RoleIsThread(role) == Ok(true) && RoleSupportsLegacy(role) == Ok(true))
  {
  }

  /** The role as `form` and `join` write it into the command: `'{}'.format(role)`. */
  function RoleText(role: RoleKey): string
  {
    match role
    case RoleName(s) => s
    case RoleNum(n) => IntStr(n)
  }

  /** The role as `store_data` receives it. */
  function RoleValue(role: RoleKey): Value
  {
    match role
    case RoleName(s) => Str(s)
    case RoleNum(n) => Int(n)
  }

  /** The src `if role == 0x82: role = 2` applied to the role looked up in the table. */
  function SrcRoleArg(role: RoleKey): RoleKey
  {
    if role == RoleNum(0x82) then RoleNum(2) else role
  }

  /**
   * The src rewrite of 0x82 to 2 never fires: the role it looks at is a value
   * of the table, which holds no 0x82, and `ROLES[0x82]` itself raises KeyError.
   */
  lemma SrcRoleRewriteUnreached(key: RoleKey)
    ensures Roles(RoleNum(0x82)).None?
    ensures Roles(key).Some? ==> SrcRoleArg(Roles(key).value) == Roles(key).value
  {
  }

  /** What the table gives back is one token on a command line. */
  lemma RoleTextToken(key: RoleKey)
    requires Roles(key).Some?
    ensures Token(RoleText(Roles(key).value))
  {
    var v := Roles(key).value;
    if v.RoleNum? {
      IntStrToken(v.num);
    } else {
      RoleNamesTokens();
      assert v.name in {"router", "end-node", "sleepy-end-device"};
    }
  }

  /** The role names hold no space. */
  lemma RoleNamesTokens()
    ensures Token("router") && Token("end-node") && Token("sleepy-end-device")
  {
  }

  // ---------------------------------------------------------------- labels

  const FabricIdLabel := "fabric-id"
  const RoleLabel := "role"
  const XpanidLabel := "xpanid"
  const PskLabel := "psk"
  const Ip6LlaLabel := "ip6_lla"
  const Ip6MlaLabel := "ip6_mla"
  const PingLossLabel := "ping_loss"

  /** The labels `clear_state` stores None under, in its order. */
  function ClearLabels(): seq<string>
  {
    [RoleLabel, Ip6LlaLabel, Ip6MlaLabel, AddressLabel("Weave Legacy"), AddressLabel("Weave Thread"),
     Ping6SentLabel, XpanidLabel, PingLossLabel]
  }

  /** The store after `clear_state()`: None stored under each label in turn. */
  function ClearedStore(store: map<string, Value>): map<string, Value>
  {
    var s1 := StoreAfter(store, RoleLabel, Null);
    var s2 := StoreAfter(s1, Ip6LlaLabel, Null);
    var s3 := StoreAfter(s2, Ip6MlaLabel, Null);
    var s4 := StoreAfter(s3, AddressLabel("Weave Legacy"), Null);
    var s5 := StoreAfter(s4, AddressLabel("Weave Thread"), Null);
    var s6 := StoreAfter(s5, Ping6SentLabel, Null);
    var s7 := StoreAfter(s6, XpanidLabel, Null);
    StoreAfter(s7, PingLossLabel, Null)
  }

  /** The fields as seen after `clear_state()`, in a store whose fields share no watchable. */
  function ClearedView(view: map<string, Shown>, now: Value): map<string, Shown>
  {
    var v1 := ViewAfter(view, RoleLabel, Null, now);
    var v2 := ViewAfter(v1, Ip6LlaLabel, Null, now);
    var v3 := ViewAfter(v2, Ip6MlaLabel, Null, now);
    var v4 := ViewAfter(v3, AddressLabel("Weave Legacy"), Null, now);
    var v5 := ViewAfter(v4, AddressLabel("Weave Thread"), Null, now);
    var v6 := ViewAfter(v5, Ping6SentLabel, Null, now);
    var v7 := ViewAfter(v6, XpanidLabel, Null, now);
    ViewAfter(v7, PingLossLabel, Null, now)
  }

  /** `s` is `s0` with None stored under each field of `done`, where a field holding a watchable keeps it. */
  predicate ClearedFrom(s0: map<string, Value>, s: map<string, Value>, done: set<string>)
  {
    s.Keys == s0.Keys + done &&
    (forall f :: f in done ==> s[f] == if f in s0 && IsWatchable(s0[f]) then s0[f] else Null) &&
    (forall f :: f in s0 && f !in done ==> s[f] == s0[f])
  }

  /** Storing None under one more field clears it too, whether or not it was cleared before. */
  lemma ClearStep(s0: map<string, Value>, s: map<string, Value>, done: set<string>, g: string)
    requires ClearedFrom(s0, s, done)
    ensures ClearedFrom(s0, StoreAfter(s, g, Null), done + {g})
  {
  }

  /** Two stores of None in a row clear both fields. */
  lemma ClearTwo(s0: map<string, Value>, s: map<string, Value>, done: set<string>, a: string, b: string)
    requires ClearedFrom(s0, s, done)
    ensures ClearedFrom(s0, StoreAfter(StoreAfter(s, a, Null), b, Null), done + {a, b})
  {
    ClearStep(s0, s, done, a);
    ClearStep(s0, StoreAfter(s, a, Null), done + {a}, b);
    assert done + {a} + {b} == done + {a, b};
  }

  /** Four stores of None in a row clear all four fields. */
  lemma ClearFour(s0: map<string, Value>, s: map<string, Value>, done: set<string>, a: string, b: string, c: string, d: string)
    requires ClearedFrom(s0, s, done)
    ensures ClearedFrom(s0, StoreAfter(StoreAfter(StoreAfter(StoreAfter(s, a, Null), b, Null), c, Null), d, Null),
                        done + {a, b, c, d})
  {
    ClearTwo(s0, s, done, a, b);
    ClearTwo(s0, StoreAfter(StoreAfter(s, a, Null), b, Null), done + {a, b}, c, d);
    assert done + {a, b} + {c, d} == done + {a, b, c, d};
  }

  /** What a field of a store cleared this way reads as. */
  lemma ClearedFromReads(s0: map<string, Value>, s: map<string, Value>, done: set<string>, field: string)
    requires ClearedFrom(s0, s, done)
    ensures if field in done then
        GetDataOf(s, field, AsIs, Null) == if field in s0 && IsWatchable(s0[field]) then Ok(s0[field]) else Ok(Null)
      else
        (field in s <==> field in s0) && (field in s0 ==> s[field] == s0[field])
  {
  }

  /**
   * After `clear_state`, every label it names reads as None, except a label
   * holding a watchable, which keeps it (the watchable is set to None
   * instead); every other field keeps its value.
   */
  lemma ClearedReadsNone(store: map<string, Value>, field: string)
    ensures var r := ClearedStore(store);
      if field in ClearLabels() then
        GetDataOf(r, field, AsIs, Null) == if field in store && IsWatchable(store[field]) then Ok(store[field]) else Ok(Null)
      else
        (field in r <==> field in store) && (field in store ==> r[field] == store[field])
  {
    var legacy, thread := AddressLabel("Weave Legacy"), AddressLabel("Weave Thread");
    var first, second := {RoleLabel, Ip6LlaLabel, Ip6MlaLabel, legacy}, {thread, Ping6SentLabel, XpanidLabel, PingLossLabel};
    var s4 := StoreAfter(StoreAfter(StoreAfter(StoreAfter(store, RoleLabel, Null), Ip6LlaLabel, Null), Ip6MlaLabel, Null), legacy, Null);
    assert ClearedFrom(store, store, {});
    ClearFour(store, store, {}, RoleLabel, Ip6LlaLabel, Ip6MlaLabel, legacy);
    ClearFour(store, s4, {} + first, thread, Ping6SentLabel, XpanidLabel, PingLossLabel);
    var done := {} + first + second;
    ClearedFromReads(store, ClearedStore(store), done, field);
    assert field in ClearLabels() <==> field in done;
  }

  /**
   * After `clear_state()`, each cleared field shows None and keeps its kind,
   * a history cell gaining a None entry stamped `now`; every other field is
   * shown as it was.
   */
  lemma {:induction false} ClearedViewShows(view: map<string, Shown>, now: Value, field: string)
    ensures ShownAt(ClearedView(view, now), field) ==
      if field in ClearLabels() then Some(ShownStored(ShownAt(view, field), Null, now)) else ShownAt(view, field)
  {
    ClearLabelsApart();
    ShownAtClearedEight(view, ClearLabels(), field, now);
  }

  /** The eight labels `clear_state` clears are different from one another. */
  lemma ClearLabelsApart()
    ensures var ls := ClearLabels(); forall i, j :: 0 <= i < j < |ls| ==> ls[i] != ls[j]
  {
    var legacy, thread := AddressLabel("Weave Legacy"), AddressLabel("Weave Thread");
    assert Ip6LlaLabel[4] != Ip6MlaLabel[4];
    assert legacy != thread by {
      assert legacy[13..25] == "Weave Legacy" && thread[13..25] == "Weave Thread";
      assert legacy[19] == legacy[13..25][6] && thread[19] == thread[13..25][6];
    }
  }

  // ------------------------------------------------------ command lines

  /** `' {}'.format(x) if x is not None else ''`, for an integer argument. */
  function Given(x: Option<int>): Option<string>
  {
    if x.Some? then Some(IntStr(x.value)) else None
  }

  /** `' {}'.format(x) if x else ''`, for an integer argument: 0 counts as not given. */
  function GivenTruthy(x: Option<int>): Option<string>
  {
    if x.Some? && x.value != 0 then Some(IntStr(x.value)) else None
  }

  lemma GivenTokens(x: Option<int>)
    ensures Given(x).Some? ==> Token(Given(x).value)
    ensures GivenTruthy(x).Some? ==> Token(GivenTruthy(x).value)
  {
    if x.Some? {
      IntStrToken(x.value);
    }
  }

  const NetworkKeyProp := "Network:Key"

  /** The command `setprop(key, value, data)` sends. */
  function SetpropCommand(key: string, value: string, data: bool): string
  {
    if data then "setprop " + key + " --data " + value else "setprop " + key + " " + value
  }

  /** `wpanctl` receives the key, `--data` exactly when asked for, then the value. */
  lemma SetpropArgv(key: string, value: string, data: bool)
    requires Token(key) && Token(value)
    ensures Argv(SetpropCommand(key, value, data)) ==
      ["setprop", key] + (if data then ["--data"] else []) + [value]
  {
    var words := ["setprop", key] + (if data then ["--data"] else []) + [value];
    if data {
      assert words == ["setprop", key, "--data", value];
      JoinCons(" ", "setprop", [key, "--data", value]);
      JoinCons(" ", key, ["--data", value]);
      JoinPair("--data", value);
    } else {
      assert words == ["setprop", key, value];
      JoinCons(" ", "setprop", [key, value]);
      JoinPair(key, value);
    }
    assert SetpropCommand(key, value, data) == Join(" ", words);
    ArgvJoin(words);
  }

  /** The options of `form`, in the order the command writes them. */
  const FormShape := [Valued("-c", None), Valued("-x", None), Valued("-p", None), Valued("-M", None)]

  /** The channel always; `-x` and `-M` when not empty, `-p` (in hex) when not zero. */
  function FormArgs(channel: int, xpanid: Option<string>, panid: Option<int>, meshLocalPrefix: Option<string>): seq<Arg>
  {
    [Val(Some(IntStr(channel))),
     Val(if TruthyStr(xpanid) then xpanid else None),
     Val(if panid.Some? && panid.value != 0 then Some(PyHex(panid.value)) else None),
     Val(if TruthyStr(meshLocalPrefix) then meshLocalPrefix else None)]
  }

  function FormParts(channel: int, xpanid: Option<string>, panid: Option<int>, meshLocalPrefix: Option<string>): seq<Part>
  {
    FillAll(FormShape, FormArgs(channel, xpanid, panid, meshLocalPrefix))
  }

  /** The `form` command: name and role, the channel, then `-x`, `-p` (in hex) and `-M` when given and not empty or zero. */
  function FormCommand(name: string, role: RoleKey, channel: int, xpanid: Option<string>, panid: Option<int>,
                       meshLocalPrefix: Option<string>): string
  {
    Join(" ", ["form", name, "-T", RoleText(role)]) + PartsText(FormParts(channel, xpanid, panid, meshLocalPrefix))
  }

  /** The src `form` command: no optional flags, and the role after the 0x82 rewrite. */
  function FormCommandSrc(name: string, role: RoleKey, channel: int): string
  {
    Join(" ", ["form", name, "-T", RoleText(SrcRoleArg(role)), "-c", IntStr(channel)])
  }

  /** `form` reads back as name, role, and exactly the options that were given, in their order. */
  lemma FormReadsBack(name: string, role: RoleKey, channel: int, xpanid: Option<string>, panid: Option<int>,
                      meshLocalPrefix: Option<string>)
    requires Token(name) && Token(RoleText(role))
    requires TruthyStr(xpanid) ==> Token(xpanid.value)
    requires TruthyStr(meshLocalPrefix) ==> Token(meshLocalPrefix.value)
    ensures var argv := Argv(FormCommand(name, role, channel, xpanid, panid, meshLocalPrefix));
      |argv| >= 4 && argv[..4] == ["form", name, "-T", RoleText(role)] &&
      ReadParts(FormShape, argv[4..]) == Some(FormParts(channel, xpanid, panid, meshLocalPrefix))
  {
    var head := ["form", name, "-T", RoleText(role)];
    var xs := FormArgs(channel, xpanid, panid, meshLocalPrefix);
    FormArgTokens(channel, xpanid, panid, meshLocalPrefix);
    FormShapeOk();
    ReadsBack(head, FormShape, xs);
  }

  lemma FormArgTokens(channel: int, xpanid: Option<string>, panid: Option<int>, meshLocalPrefix: Option<string>)
    requires TruthyStr(xpanid) ==> Token(xpanid.value)
    requires TruthyStr(meshLocalPrefix) ==> Token(meshLocalPrefix.value)
    ensures |FormArgs(channel, xpanid, panid, meshLocalPrefix)| == |FormShape|
    ensures ArgTokens(FormArgs(channel, xpanid, panid, meshLocalPrefix))
  {
    IntStrToken(channel);
    if panid.Some? {
      PyHexToken(panid.value);
    }
  }

  lemma FormShapeOk()
    ensures DistinctFlags(FormShape) && FlagTokens(FormShape)
  {
    ShortFlags(FormShape);
  }

  /** src `form` sends what silk `form` sends without options, for every role the table knows. */
  lemma FormSrcAgrees(name: string, key: RoleKey, channel: int)
    requires Roles(key).Some?
    ensures FormCommandSrc(name, Roles(key).value, channel) ==
      FormCommand(name, Roles(key).value, channel, None, None, None)
  {
    SrcRoleRewriteUnreached(key);
    var role := Roles(key).value;
    var head := ["form", name, "-T", RoleText(role)];
    var ps := FormParts(channel, None, None, None);
    PartsTextJoin(head, ps);
    FormChannelOnly(channel);
    assert head + ["-c", IntStr(channel)] == ["form", name, "-T", RoleText(role), "-c", IntStr(channel)];
  }

  /** With none of the optional arguments, `form` passes only the channel. */
  lemma FormChannelOnly(channel: int)
    ensures PartsWords(FormParts(channel, None, None, None)) == ["-c", IntStr(channel)]
  {
    var ps := FormParts(channel, None, None, None);
    assert ps == [Valued("-c", Some(IntStr(channel)))] + ps[1..];
    assert forall i :: 0 <= i < |ps[1..]| ==> PartWords(ps[1..][i]) == [];
    PartsWordsUnset(ps[1..]);
  }

  /** Parts none of which is set write no words. */
  lemma {:induction false} PartsWordsUnset(ps: seq<Part>)
    requires forall i :: 0 <= i < |ps| ==> PartWords(ps[i]) == []
    ensures PartsWords(ps) == []
  {
    if ps != [] {
      PartsWordsUnset(ps[1..]);
    }
  }

  /** `'%x' % i`: a negative number keeps its sign in front of the digits. */
  function PercentX(i: int): string
  {
    if i < 0 then "-" + Hex(-i) else Hex(i)
  }

  /** The words of the `join` command (also the provisional join's): name, role, channel, xpanid and `0x`-prefixed panid. */
  function JoinWords(name: string, role: RoleKey, channel: int, xpanid: string, panid: int): seq<string>
  {
    ["join", name, "-T", RoleText(role), "-c", IntStr(channel), "-x", xpanid, "-p", "0x" + PercentX(panid)]
  }

  /** The `join` command: its words, written with single spaces between them as the format string does. */
  function JoinCommand(name: string, role: RoleKey, channel: int, xpanid: string, panid: int): string
  {
    Join(" ", JoinWords(name, role, channel, xpanid, panid))
  }

  /** The src `join` command: the same, after the 0x82 rewrite. */
  function JoinCommandSrc(name: string, role: RoleKey, channel: int, xpanid: string, panid: int): string
  {
    JoinCommand(name, SrcRoleArg(role), channel, xpanid, panid)
  }

  /** `join` reads back: the words in order, the channel in decimal and a non-negative panid in hex. */
  lemma JoinReadsBack(name: string, role: RoleKey, channel: int, xpanid: string, panid: int)
    requires Token(name) && Token(RoleText(role)) && Token(xpanid)
    ensures var argv := Argv(JoinCommand(name, role, channel, xpanid, panid));
      argv == JoinWords(name, role, channel, xpanid, panid) &&
      ParseInt(argv[5], 10) == Ok(channel) &&
      (panid >= 0 ==> ParseInt(argv[9], 16) == Ok(panid))
  {
    JoinArgv(name, role, channel, xpanid, panid);
    JoinNumbers(channel, panid);
  }

  /** The channel reads back in decimal, a non-negative panid after its `0x` in hex. */
  lemma JoinNumbers(channel: int, panid: int)
    ensures ParseInt(IntStr(channel), 10) == Ok(channel)
    ensures panid >= 0 ==> ParseInt("0x" + PercentX(panid), 16) == Ok(panid)
  {
    ParseDecOfIntStr(channel);
    if panid >= 0 {
      assert PadZeros(Hex(panid), 0) == Hex(panid);
      ParseHexOfPrefixed(panid, 0);
    }
  }

  /** `wpanctl` receives the words of `join` one by one. */
  lemma JoinArgv(name: string, role: RoleKey, channel: int, xpanid: string, panid: int)
    requires Token(name) && Token(RoleText(role)) && Token(xpanid)
    ensures Argv(JoinCommand(name, role, channel, xpanid, panid)) == JoinWords(name, role, channel, xpanid, panid)
  {
    JoinWordsTokens(name, role, channel, xpanid, panid);
    ArgvJoin(JoinWords(name, role, channel, xpanid, panid));
  }

  lemma JoinWordsTokens(name: string, role: RoleKey, channel: int, xpanid: string, panid: int)
    requires Token(name) && Token(RoleText(role)) && Token(xpanid)
    ensures forall k :: 0 <= k < |JoinWords(name, role, channel, xpanid, panid)| ==> Token(JoinWords(name, role, channel, xpanid, panid)[k])
  {
    IntStrToken(channel);
    PercentXToken(panid);
    JoinFlagsTokens();
    var ws := JoinWords(name, role, channel, xpanid, panid);
    forall k | 0 <= k < |ws| ensures Token(ws[k]) {
      if k == 9 {
        assert ws[k] == "0x" + PercentX(panid);
      }
    }
  }

  /** The fixed words of the `join` command hold no space. */
  lemma JoinFlagsTokens()
    ensures Token("join") && Token("-T") && Token("-c") && Token("-x") && Token("-p")
  {
  }

  /** `'0x%x' % panid` holds no space. */
  lemma PercentXToken(i: int)
    ensures Token("0x" + PercentX(i))
  {
    var h := Hex(if i < 0 then -i else i);
    assert Free(h, ' ');
    assert Free("0x", ' ') && Free("-", ' ');
    if i < 0 {
      FreeConcat("-", h, ' ');
    }
    FreeConcat("0x", PercentX(i), ' ');
  }

  /** src `join` sends what silk `join` sends, for every role the table knows. */
  lemma JoinSrcAgrees(name: string, key: RoleKey, channel: int, xpanid: string, panid: int)
    requires Roles(key).Some?
    ensures JoinCommandSrc(name, Roles(key).value, channel, xpanid, panid) ==
      JoinCommand(name, Roles(key).value, channel, xpanid, panid)
  {
    SrcRoleRewriteUnreached(key);
  }

  /** `permit_join(period)`: a missing or zero period means 240 seconds. */
  function PermitJoinCommand(period: Option<int>): string
  {
    "permit-join " + IntStr(if period.Some? && period.value != 0 then period.value else 240)
  }

  /** The period `wpanctl` reads is never zero: the one given, or 240. */
  lemma PermitJoinReadsBack(period: Option<int>)
    ensures var argv := Argv(PermitJoinCommand(period));
      |argv| == 2 && argv[0] == "permit-join" &&
      ParseInt(argv[1], 10) == Ok(if period.Some? && period.value != 0 then period.value else 240)
  {
    var p := if period.Some? && period.value != 0 then period.value else 240;
    IntStrToken(p);
    assert PermitJoinCommand(period) == Join(" ", ["permit-join", IntStr(p)]);
    ArgvJoin(["permit-join", IntStr(p)]);
    ParseDecOfIntStr(p);
  }

  /** The duration `permit_join_new` sends: 240 when a port is given without one. */
  function JoinDuration(duration: Option<int>, port: Option<int>): Option<int>
  {
    if port.Some? && duration.None? then Some(240) else duration
  }

  /** The traffic-type suffix: `--udp` for udp alone, `--tcp` for tcp alone, nothing for both. */
  function TrafficFlag(udp: bool, tcp: bool): seq<string>
  {
    if udp && !tcp then ["--udp"] else if tcp && !udp then ["--tcp"] else []
  }

  /** The `permit_join_new` command: duration, then port, when present, then the traffic flag, each after a space. */
  function PermitJoinNewCommand(duration: Option<int>, port: Option<int>, udp: bool, tcp: bool): string
  {
    Join(" ", ["permit-join"] + JoinPositional(duration, port) + TrafficFlag(udp, tcp))
  }

  /** What `permit-join` means to a reader: duration and port by position, and which traffic is allowed. */
  datatype JoinWindow = JoinWindow(duration: Option<int>, port: Option<int>, udp: bool, tcp: bool)

  function ReadPermitJoin(argv: seq<string>): Option<JoinWindow>
  {
    if argv == [] || argv[0] != "permit-join" then None
    else
      var last := if |argv| > 1 then argv[|argv| - 1] else "";
      var udp := last != "--tcp";
      var tcp := last != "--udp";
      var positional := if last == "--udp" || last == "--tcp" then argv[1..|argv| - 1] else argv[1..];
      if |positional| > 2 then None
      else if positional == [] then Some(JoinWindow(None, None, udp, tcp))
      else
        var d := ParseInt(positional[0], 10);
        var p := if |positional| == 2 then ParseInt(positional[1], 10) else Ok(0);
        if d.Err? || p.Err? then None
        else Some(JoinWindow(Some(d.value), if |positional| == 2 then Some(p.value) else None, udp, tcp))
  }

  /** The duration and port words of `permit_join_new`, in that order. */
  function JoinPositional(duration: Option<int>, port: Option<int>): seq<string>
  {
    var d := JoinDuration(duration, port);
    (if d.Some? then [IntStr(d.value)] else []) + (if port.Some? then [IntStr(port.value)] else [])
  }

  /** `wpanctl` receives `permit-join`, the positional words, then the traffic flag; no positional word looks like a flag. */
  lemma PermitJoinNewArgv(duration: Option<int>, port: Option<int>, udp: bool, tcp: bool)
    ensures var pos := JoinPositional(duration, port);
      Argv(PermitJoinNewCommand(duration, port, udp, tcp)) == ["permit-join"] + pos + TrafficFlag(udp, tcp) &&
      |pos| <= 2 && forall k :: 0 <= k < |pos| ==> pos[k] != "--udp" && pos[k] != "--tcp"
  {
    var d := JoinDuration(duration, port);
    var pos := JoinPositional(duration, port);
    var tf := TrafficFlag(udp, tcp);
    PositionalTokens(duration, port);
    PositionalWords(pos, tf);
    ArgvJoin(["permit-join"] + pos + tf);
  }

  /** Each positional word is a number: a token, and no traffic flag. */
  lemma PositionalTokens(duration: Option<int>, port: Option<int>)
    ensures var pos := JoinPositional(duration, port);
      forall k :: 0 <= k < |pos| ==> Token(pos[k]) && pos[k] != "--udp" && pos[k] != "--tcp"
  {
    var d := JoinDuration(duration, port);
    if d.Some? {
      IntStrToken(d.value);
      IntStrNotFlag(d.value);
    }
    if port.Some? {
      IntStrToken(port.value);
      IntStrNotFlag(port.value);
    }
  }

  /**
   * `permit_join_new` reads back by position: since a port never goes out
   * without a duration in front of it, the port is never taken for the
   * duration, and the traffic allowed is the one asked for.
   */
  lemma PermitJoinNewReadsBack(duration: Option<int>, port: Option<int>, udp: bool, tcp: bool)
    requires udp || tcp
    ensures ReadPermitJoin(Argv(PermitJoinNewCommand(duration, port, udp, tcp))) ==
      Some(JoinWindow(JoinDuration(duration, port), port, udp, tcp))
  {
    var d := JoinDuration(duration, port);
    var pos := JoinPositional(duration, port);
    PermitJoinNewArgv(duration, port, udp, tcp);
    ReadPositional(pos, udp, tcp);
    if d.Some? {
      ParseDecOfIntStr(d.value);
      assert pos[0] == IntStr(d.value);
    }
    if port.Some? {
      ParseDecOfIntStr(port.value);
      assert pos[1] == IntStr(port.value);
    }
  }

  /** A number is never taken for a traffic flag. */
  lemma IntStrNotFlag(i: int)
    ensures IntStr(i) != "--udp" && IntStr(i) != "--tcp"
  {
    var s := IntStr(i);
    if i < 0 {
      assert s[1] == Dec(-i)[0];
    } else {
      assert s[0] == Dec(i)[0];
    }
  }

  lemma PositionalWords(pos: seq<string>, tf: seq<string>)
    requires forall k :: 0 <= k < |pos| ==> Token(pos[k])
    requires tf == [] || tf == ["--udp"] || tf == ["--tcp"]
    ensures forall k :: 0 <= k < |["permit-join"] + pos + tf| ==> Token((["permit-join"] + pos + tf)[k])
  {
    var words := ["permit-join"] + pos + tf;
    forall k | 0 <= k < |words| ensures Token(words[k]) {
      if 0 < k <= |pos| {
        assert words[k] == pos[k - 1];
      }
    }
  }

  /** Positional words that are not traffic flags, then the flag: read back as the words and the traffic. */
  lemma ReadPositional(pos: seq<string>, udp: bool, tcp: bool)
    requires udp || tcp
    requires |pos| <= 2 && forall k :: 0 <= k < |pos| ==> pos[k] != "--udp" && pos[k] != "--tcp"
    ensures var argv := ["permit-join"] + pos + TrafficFlag(udp, tcp);
      ReadPermitJoin(argv) ==
        if pos == [] then Some(JoinWindow(None, None, udp, tcp))
        else if ParseInt(pos[0], 10).Err? || (|pos| == 2 && ParseInt(pos[1], 10).Err?) then None
        else Some(JoinWindow(Some(ParseInt(pos[0], 10).value), if |pos| == 2 then Some(ParseInt(pos[1], 10).value) else None, udp, tcp))
  {
    var tf := TrafficFlag(udp, tcp);
    var argv := ["permit-join"] + pos + tf;
    assert argv[0] == "permit-join";
    if tf == [] {
      assert argv[1..] == pos;
      if |argv| > 1 {
        assert argv[|argv| - 1] == pos[|pos| - 1];
      }
    } else {
      assert argv[|argv| - 1] == tf[0];
      assert argv[1..|argv| - 1] == pos;
    }
  }

  /** The options of `scan -d`: `-c`, `-j`, `-f`, `-p`. */
  const DiscoverScanShape := [Valued("-c", None), Switch("-j", false), Switch("-f", false), Valued("-p", None)]

  /** A zero channel or panid filter counts as not given. */
  function DiscoverScanOptions(channel: Option<int>, joinerOnly: bool, filtering: bool, panidFilter: Option<int>): seq<Arg>
  {
    [Val(GivenTruthy(channel)), On(joinerOnly), On(filtering), Val(GivenTruthy(panidFilter))]
  }

  function DiscoverScanParts(channel: Option<int>, joinerOnly: bool, filtering: bool, panidFilter: Option<int>): seq<Part>
  {
    FillAll(DiscoverScanShape, DiscoverScanOptions(channel, joinerOnly, filtering, panidFilter))
  }

  /** The `scan -d` command of `get_discover_scan`. */
  function DiscoverScanCommand(channel: Option<int>, joinerOnly: bool, filtering: bool, panidFilter: Option<int>): string
  {
    Join(" ", ["scan", "-d", ""]) + PartsText(DiscoverScanParts(channel, joinerOnly, filtering, panidFilter))
  }

  lemma DiscoverScanShapeOk()
    ensures DistinctFlags(DiscoverScanShape) && FlagTokens(DiscoverScanShape)
  {
    ShortFlags(DiscoverScanShape);
  }

  /** The doubled space after `-d` is harmless: the options read back as given. */
  lemma DiscoverScanReadsBack(channel: Option<int>, joinerOnly: bool, filtering: bool, panidFilter: Option<int>)
    ensures var argv := Argv(DiscoverScanCommand(channel, joinerOnly, filtering, panidFilter));
      |argv| >= 2 && argv[..2] == ["scan", "-d"] &&
      ReadParts(DiscoverScanShape, argv[2..]) == Some(DiscoverScanParts(channel, joinerOnly, filtering, panidFilter))
  {
    DiscoverScanShapeOk();
    GivenTokens(channel);
    GivenTokens(panidFilter);
    ReadsBackPadded(["scan", "-d"], DiscoverScanShape, DiscoverScanOptions(channel, joinerOnly, filtering, panidFilter));
  }

  /** The arguments of `add_prefix`. */
  datatype PrefixArgs = PrefixArgs(
    prefix: string, prefixLen: Option<int>, priority: Option<int>, stable: bool, onMesh: bool, slaac: bool,
    dhcp: bool, configure: bool, defaultRoute: bool, preferred: bool)

  /** The fixed order of the options of `add-prefix`: `-l -P -s -f -a -d -c -r -o`. */
  const AddPrefixShape := [Valued("-l", None), Valued("-P", None), Switch("-s", false), Switch("-f", false),
    Switch("-a", false), Switch("-d", false), Switch("-c", false), Switch("-r", false), Switch("-o", false)]

  function AddPrefixOptions(a: PrefixArgs): seq<Arg>
  {
    [Val(Given(a.prefixLen)), Val(Given(a.priority)), On(a.stable), On(a.preferred), On(a.slaac), On(a.dhcp),
     On(a.configure), On(a.defaultRoute), On(a.onMesh)]
  }

  function AddPrefixParts(a: PrefixArgs): seq<Part>
  {
    FillAll(AddPrefixShape, AddPrefixOptions(a))
  }

  function AddPrefixCommand(a: PrefixArgs): string
  {
    Join(" ", ["add-prefix", a.prefix]) + PartsText(AddPrefixParts(a))
  }

  lemma AddPrefixShapeOk()
    ensures DistinctFlags(AddPrefixShape) && FlagTokens(AddPrefixShape)
  {
    ShortFlags(AddPrefixShape);
  }

  /** `add-prefix` reads back, against the fixed order of flags alone, as exactly the options that were set. */
  lemma AddPrefixReadsBack(a: PrefixArgs)
    requires Token(a.prefix)
    ensures var argv := Argv(AddPrefixCommand(a));
      |argv| >= 2 && argv[..2] == ["add-prefix", a.prefix] && ReadParts(AddPrefixShape, argv[2..]) == Some(AddPrefixParts(a))
  {
    AddPrefixShapeOk();
    GivenTokens(a.prefixLen);
    GivenTokens(a.priority);
    ReadsBack(["add-prefix", a.prefix], AddPrefixShape, AddPrefixOptions(a));
  }

  const RemovePrefixShape := [Valued("-l", None)]

  function RemovePrefixParts(prefixLen: Option<int>): seq<Part>
  {
    FillAll(RemovePrefixShape, [Val(Given(prefixLen))])
  }

  /** The `remove-prefix` command: `-l` when given. */
  function RemovePrefixCommand(prefix: string, prefixLen: Option<int>): string
  {
    Join(" ", ["remove-prefix", prefix]) + PartsText(RemovePrefixParts(prefixLen))
  }

  lemma RemovePrefixReadsBack(prefix: string, prefixLen: Option<int>)
    requires Token(prefix)
    ensures var argv := Argv(RemovePrefixCommand(prefix, prefixLen));
      |argv| >= 2 && argv[..2] == ["remove-prefix", prefix] &&
      ReadParts(RemovePrefixShape, argv[2..]) == Some(RemovePrefixParts(prefixLen))
  {
    GivenTokens(prefixLen);
    ShortFlags(RemovePrefixShape);
    ReadsBack(["remove-prefix", prefix], RemovePrefixShape, [Val(Given(prefixLen))]);
  }

  /** The arguments of `add_route_using_prefix` and `remove_route`. */
  datatype RouteArgs = RouteArgs(prefix: string, prefixLen: Option<int>, priority: Option<int>, stable: bool)

  /** `-l` and `-p`, when given. */
  const RouteShape := [Valued("-l", None), Valued("-p", None)]

  function RouteOptions(a: RouteArgs): seq<Arg>
  {
    [Val(Given(a.prefixLen)), Val(Given(a.priority))]
  }

  function RouteParts(a: RouteArgs): seq<Part>
  {
    FillAll(RouteShape, RouteOptions(a))
  }

  /** The options of `add-route`: `-l`, `-p`, and `-n` exactly when the route is not stable. */
  const AddRouteShape := RouteShape + [Switch("-n", false)]

  function AddRouteParts(a: RouteArgs): seq<Part>
  {
    FillAll(AddRouteShape, RouteOptions(a) + [On(!a.stable)])
  }

  /** The `add-route` command of silk's `add_route_using_prefix`. */
  function AddRouteCommand(a: RouteArgs): string
  {
    Join(" ", ["add-route", a.prefix]) + PartsText(AddRouteParts(a))
  }

  lemma RouteShapeOk()
    ensures DistinctFlags(RouteShape) && FlagTokens(RouteShape)
    ensures DistinctFlags(AddRouteShape) && FlagTokens(AddRouteShape)
  {
    ShortFlags(RouteShape);
    ShortFlags(AddRouteShape);
  }

  /** `add-route` reads back as the options given, with `-n` present exactly when the route is not stable. */
  lemma AddRouteReadsBack(a: RouteArgs)
    requires Token(a.prefix)
    ensures var argv := Argv(AddRouteCommand(a));
      |argv| >= 2 && argv[..2] == ["add-route", a.prefix] && ReadParts(AddRouteShape, argv[2..]) == Some(AddRouteParts(a))
    ensures AddRouteParts(a)[2] == Switch("-n", !a.stable)
  {
    RouteShapeOk();
    GivenTokens(a.prefixLen);
    GivenTokens(a.priority);
    ReadsBack(["add-route", a.prefix], AddRouteShape, RouteOptions(a) + [On(!a.stable)]);
  }

  /** The `add-route` command of src's `add_route`, as written: `'-n'` is appended without a space. */
  function AddRouteCommandSrc(a: RouteArgs): string
  {
    Join(" ", ["add-route", a.prefix]) + PartsText(RouteParts(a)) + (if a.stable then "" else "-n")
  }

  /** Appending text to a join glues it onto the last part. */
  lemma {:induction false} JoinGlue(sep: string, ws: seq<string>, x: string)
    requires ws != []
    ensures Join(sep, ws) + x == Join(sep, ws[..|ws| - 1] + [ws[|ws| - 1] + x])
    decreases |ws|
  {
    if |ws| > 1 {
      JoinGlue(sep, ws[1..], x);
      assert (ws[..|ws| - 1] + [ws[|ws| - 1] + x])[1..] == ws[1..][..|ws[1..]| - 1] + [ws[1..][|ws[1..]| - 1] + x];
    }
  }

  /** The non-stable `add-route` parts are the route's parts and then `-n`. */
  lemma AddRouteWords(a: RouteArgs)
    requires !a.stable
    ensures PartsWords(AddRouteParts(a)) == PartsWords(RouteParts(a)) + ["-n"]
  {
    var ps := RouteParts(a);
    var qs := AddRouteParts(a);
    assert qs == ps + [Switch("-n", true)];
    PartsWordsAppend(ps, [Switch("-n", true)]);
    assert PartsWords([Switch("-n", true)]) == ["-n"];
  }

  /** Tokens with one more token: as a word of its own, or glued onto the last word. */
  lemma GlueArgv(ws: seq<string>, x: string)
    requires ws != [] && forall k :: 0 <= k < |ws| ==> Token(ws[k])
    requires Token(x)
    ensures Argv(Join(" ", ws + [x])) == ws + [x]
    ensures Argv(Join(" ", ws) + x) == ws[..|ws| - 1] + [ws[|ws| - 1] + x]
  {
    var n := |ws|;
    TokensSnoc(ws, x);
    ArgvJoin(ws + [x]);
    JoinGlue(" ", ws, x);
    var last := ws[n - 1] + x;
    TokenConcat(ws[n - 1], x);
    TokensSnoc(ws[..n - 1], last);
    ArgvJoin(ws[..n - 1] + [last]);
  }

  lemma TokensSnoc(ws: seq<string>, x: string)
    requires forall k :: 0 <= k < |ws| ==> Token(ws[k])
    requires Token(x)
    ensures forall k :: 0 <= k < |ws + [x]| ==> Token((ws + [x])[k])
  {
    forall k | 0 <= k < |ws + [x]| ensures Token((ws + [x])[k]) {
      if k < |ws| {
        assert (ws + [x])[k] == ws[k];
      }
    }
  }

  lemma TokenConcat(a: string, b: string)
    requires Token(a) && Token(b)
    ensures Token(a + b)
  {
    var c := a + b;
    forall i | 0 <= i < |c| ensures c[i] != ' ' {
      if i >= |a| {
        assert c[i] == b[i - |a|];
      }
    }
  }

  /** The words of the route command before any `-n`: the head, then the options given. */
  lemma RouteWordsTokens(a: RouteArgs)
    requires Token(a.prefix)
    ensures var ws := ["add-route", a.prefix] + PartsWords(RouteParts(a));
      forall k :: 0 <= k < |ws| ==> Token(ws[k])
    ensures Join(" ", ["add-route", a.prefix]) + PartsText(RouteParts(a)) ==
      Join(" ", ["add-route", a.prefix] + PartsWords(RouteParts(a)))
  {
    var ps := RouteParts(a);
    var head := ["add-route", a.prefix];
    RouteShapeOk();
    GivenTokens(a.prefixLen);
    GivenTokens(a.priority);
    FillAllKeeps(RouteShape, RouteOptions(a));
    PartsTextJoin(head, ps);
    PartsWordsTokens(ps);
    var ws := head + PartsWords(ps);
    forall k | 0 <= k < |ws| ensures Token(ws[k]) {
      if k >= 2 {
        assert ws[k] == PartsWords(ps)[k - 2];
      }
    }
  }

  /**
   * As written, src's `add_route` loses the non-stable flag: `wpanctl`
   * receives one word fewer than the silk command, the last one carrying
   * `-n` glued on (the priority `1-n`, the prefix length `64-n`, or the prefix itself `fd00::-n`).
   */
  lemma AddRouteSrcGluesFlag(a: RouteArgs)
    requires Token(a.prefix) && !a.stable
    ensures var good := Argv(AddRouteCommand(a));
      var bad := Argv(AddRouteCommandSrc(a));
      |bad| >= 1 && |bad| == |good| - 1 && good[|good| - 1] == "-n" &&
      bad[..|bad| - 1] == good[..|bad| - 1] && bad[|bad| - 1] == good[|bad| - 1] + "-n"
  {
    var head := ["add-route", a.prefix];
    var ws := head + PartsWords(RouteParts(a));
    RouteWordsTokens(a);
    AddRouteWords(a);
    PartsTextJoin(head, AddRouteParts(a));
    assert head + PartsWords(AddRouteParts(a)) == ws + ["-n"];
    assert AddRouteCommand(a) == Join(" ", ws + ["-n"]);
    assert AddRouteCommandSrc(a) == Join(" ", ws) + "-n";
    GlueArgv(ws, "-n");
  }

  /** The words of parts written one after another. */
  lemma {:induction false} PartsWordsAppend(a: seq<Part>, b: seq<Part>)
    ensures PartsWords(a + b) == PartsWords(a) + PartsWords(b)
    decreases |a|
  {
    if a == [] {
      assert a + b == b;
    } else {
      assert (a + b)[0] == a[0] && (a + b)[1..] == a[1..] + b;
      PartsWordsAppend(a[1..], b);
    }
  }

  /** A concrete case: the non-stable route to `fd00::` becomes a route to the prefix `fd00::-n`. */
  lemma AddRouteSrcExample()
    ensures AddRouteCommandSrc(RouteArgs("fd00::", None, None, false)) == "add-route fd00::-n"
    ensures AddRouteCommand(RouteArgs("fd00::", None, None, false)) == "add-route fd00:: -n"
  {
    var a := RouteArgs("fd00::", None, None, false);
    var head := Join(" ", ["add-route", "fd00::"]);
    assert head == "add-route fd00::";
    assert RouteParts(a) == [Valued("-l", None), Valued("-p", None)];
    assert PartsText(RouteParts(a)) == "";
    assert AddRouteParts(a) == [Valued("-l", None), Valued("-p", None), Switch("-n", true)];
    assert PartsText(AddRouteParts(a)[2..]) == " -n";
    assert PartsText(AddRouteParts(a)) == " -n";
  }

  /** The `remove-route` command: `-l` and `-p` when given. */
  function RemoveRouteCommand(a: RouteArgs): string
  {
    Join(" ", ["remove-route", a.prefix]) + PartsText(RouteParts(a))
  }

  lemma RemoveRouteReadsBack(a: RouteArgs)
    requires Token(a.prefix)
    ensures var argv := Argv(RemoveRouteCommand(a));
      |argv| >= 2 && argv[..2] == ["remove-route", a.prefix] && ReadParts(RouteShape, argv[2..]) == Some(RouteParts(a))
  {
    RouteShapeOk();
    GivenTokens(a.prefixLen);
    GivenTokens(a.priority);
    ReadsBack(["remove-route", a.prefix], RouteShape, RouteOptions(a));
  }

  // ------------------------------------------------------- properties

  /** `_update_prop`: action, property, `-d` for binary data, then the value after `-v`. */
  function UpdatePropCommand(action: string, prop: string, value: string, binary: bool): string
  {
    action + " " + prop + " " + (if binary then "-d " else "") + "-v " + value
  }

  datatype PropUpdate = PropUpdate(action: string, prop: string, value: string, binary: bool)

  /** Reads an update back: the first two words, an optional `-d`, and everything after `-v ` as the value. */
  function ReadUpdateProp(cmd: string): Option<PropUpdate>
  {
    var i :- Find(cmd, " ");
    var rest := cmd[i + 1..];
    var j :- Find(rest, " ");
    var tail := rest[j + 1..];
    if StartsWith(tail, "-d -v ") then Some(PropUpdate(cmd[..i], rest[..j], tail[6..], true))
    else if StartsWith(tail, "-v ") then Some(PropUpdate(cmd[..i], rest[..j], tail[3..], false))
    else None
  }

  /** The first space of `a + " " + b`, for `a` without one, is right after `a`. */
  lemma FindAfterToken(a: string, b: string)
    requires Token(a)
    ensures Find(a + " " + b, " ") == Some(|a|)
  {
    var s := a + " " + b;
    assert At(s, |a|, " ");
    forall i | 0 <= i < |a| ensures !At(s, i, " ") {
      assert s[i] == a[i];
    }
    FindAt(s, " ", |a|);
  }

  /**
   * Any value comes back whole, even one that starts with `-` or holds
   * spaces: that is what the `-v` in front of it is for.
   */
  lemma UpdatePropReadsBack(action: string, prop: string, value: string, binary: bool)
    requires Token(action) && Token(prop)
    ensures ReadUpdateProp(UpdatePropCommand(action, prop, value, binary)) == Some(PropUpdate(action, prop, value, binary))
  {
    var tail := (if binary then "-d " else "") + "-v " + value;
    assert UpdatePropCommand(action, prop, value, binary) == action + " " + (prop + " " + tail);
    ReadUpdatePropHead(action, prop, tail);
    UpdatePropTail(value, binary);
  }

  /** After the two words: `-d -v ` and the value for binary data, `-v ` and the value otherwise. */
  lemma UpdatePropTail(value: string, binary: bool)
    ensures var tail := (if binary then "-d " else "") + "-v " + value;
      (StartsWith(tail, "-d -v ") <==> binary) &&
      (binary ==> tail[6..] == value) &&
      (!binary ==> StartsWith(tail, "-v ") && tail[3..] == value)
  {
    var tail := (if binary then "-d " else "") + "-v " + value;
    if binary {
      assert tail[..6] == "-d -v " && tail[6..] == value;
    } else {
      assert tail[1] == 'v';
      assert tail[..3] == "-v " && tail[3..] == value;
    }
  }

  /** The first two words of an update are read off up to their spaces, whatever follows. */
  lemma ReadUpdatePropHead(action: string, prop: string, tail: string)
    requires Token(action) && Token(prop)
    ensures ReadUpdateProp(action + " " + (prop + " " + tail)) ==
      if StartsWith(tail, "-d -v ") then Some(PropUpdate(action, prop, tail[6..], true))
      else if StartsWith(tail, "-v ") then Some(PropUpdate(action, prop, tail[3..], false))
      else None
  {
    var rest := prop + " " + tail;
    var cmd := action + " " + rest;
    FindAfterToken(action, rest);
    assert cmd[|action| + 1..] == rest && cmd[..|action|] == action;
    FindAfterToken(prop, tail);
    assert rest[|prop| + 1..] == tail && rest[..|prop|] == prop;
  }

  /** `getprop`: the text after the first `=` (up to a second one), stripped; the reply itself when it has no `=`. */
  function GetpropValue(reply: string): string
  {
    if Contains(reply, "=") then
      var parts := SplitOn(reply, '=');
      assert |parts| >= 2;
      Strip(parts[1])
    else reply
  }

  /** A `name = value` reply gives the value without its padding; a reply without `=` comes back as it is. */
  lemma GetpropReadsSetting(name: string, value: string)
    requires Free(name, '=') && Free(value, '=')
    ensures GetpropValue(name + "=" + value) == Strip(value)
    ensures GetpropValue(name) == name
  {
    var reply := name + "=" + value;
    assert At(reply, |name|, "=");
    assert Join("=", [name, value]) == reply;
    SplitOnJoin([name, value], '=');
    NotFoundInFree(name, '=');
  }

  /** Python 2's `encode('ascii', 'ignore')`: characters outside ASCII are dropped. */
  function AsciiIgnore(s: string): (r: string)
    ensures |r| <= |s|
  {
    if s == [] then [] else (if s[0] as int < 128 then [s[0]] else []) + AsciiIgnore(s[1..])
  }

  /** src `getprop`: a unicode reply is first encoded to ASCII, dropping what does not fit. */
  function GetpropValueSrc(reply: string, isUnicode: bool): string
  {
    GetpropValue(if isUnicode then AsciiIgnore(reply) else reply)
  }

  /** An ASCII reply reads the same in both trees. */
  lemma {:induction false} GetpropSrcAgrees(reply: string, isUnicode: bool)
    requires forall i :: 0 <= i < |reply| ==> reply[i] as int < 128
    ensures GetpropValueSrc(reply, isUnicode) == GetpropValue(reply)
  {
    AsciiIgnoreKeeps(reply);
  }

  lemma {:induction false} AsciiIgnoreKeeps(s: string)
    requires forall i :: 0 <= i < |s| ==> s[i] as int < 128
    ensures AsciiIgnore(s) == s
  {
    if s != [] {
      AsciiIgnoreKeeps(s[1..]);
      assert [s[0]] + s[1..] == s;
    }
  }

  /** The queries `__get_network_properties` queues, each filling a store label from the reply it expects. */
  function NetworkPropertyCalls(action: string): (r: seq<Call>)
    ensures |r| == 7 && forall k :: 0 <= k < |r| ==> r[k].Queued? && r[k].action == action && r[k].timeout == 20
  {
    [Queued(action, "getprop channel", Some(" [0-9]{2}$"), 20, Some(ChannelLabel)),
     Queued(action, "getprop panid", Some("0x[0-9a-fA-F]{4}$"), 20, Some(PanidLabel)),
     Queued(action, "getprop xpanid", Some("0x[a-fA-F0-9]{16}$"), 20, Some(XpanidLabel)),
     Queued(action, "get IPv6:LinkLocalAddress", Some(Ip6LlaRegex), 20, Some(Ip6LlaLabel)),
     Queued(action, "get IPv6:MeshLocalAddress", Some(Ip6MlaRegex), 20, Some(Ip6MlaLabel)),
     Queued(action, "getprop Network:Key", Some("\\[[0-9a-fA-F]{32}\\]"), 20, Some(PskLabel)),
     Queued(action, "status", Some("AllowingJoin"), 20, None)]
  }

  const Ip6LlaRegex := "fe80[a-fA-F0-9:]+"
  const Ip6MlaRegex := "[fF][dD][a-fA-F0-9:]+"

  // ---------------------------------------------------------------- the node

  /**
   * A call the node makes: `Run` is `wpanctl(action, command, timeout)`,
   * which waits for the reply; `Queued` is `wpanctl_async(action, command,
   * expect, timeout, field)`, whose match of `expect` is stored under
   * `field`; `GetAddr` is the dev board's `_get_addr(action)` hook, which
   * this model does not look into.
   */
  datatype Call =
    | Run(action: string, command: string, timeout: int)
    | Queued(action: string, command: string, expected: Option<string>, timeout: int, field: Option<string>)
    | GetAddr(action: string)

  /** The call that sets the network key. */
  function SetKeyCall(action: string, psk: string): Call
  {
    Queued(action, SetpropCommand(NetworkKeyProp, psk, true), None, 1, None)
  }

  /** A `wpanctl` that records every call, in order, and answers a synchronous one with the reply it is handed. */
  class Wpanctl {
    var calls: seq<Call>

    constructor ()
      ensures calls == []
    {
      calls := [];
    }

    /** `wpanctl(action, command, timeout)`: recorded, answered with `reply`. */
    method Run(action: string, command: string, timeout: int, reply: string) returns (out: string)
      modifies this
      ensures calls == old(calls) + [Call.Run(action, command, timeout)] && out == reply
    {
      calls := calls + [Call.Run(action, command, timeout)];
      out := reply;
    }

    /** `wpanctl_async(action, command, expect, timeout, field)`: recorded. */
    method Queue(action: string, command: string, expected: Option<string>, timeout: int, field: Option<string>)
      modifies this
      ensures calls == old(calls) + [Queued(action, command, expected, timeout, field)]
    {
      calls := calls + [Queued(action, command, expected, timeout, field)];
    }

    /** The dev board's `_get_addr(action)`: recorded. */
    method GetAddrHook(action: string)
      modifies this
      ensures calls == old(calls) + [GetAddr(action)]
    {
      calls := calls + [GetAddr(action)];
    }
  }

  /**
   * `clear_state()`: None is stored under each of the labels, in order; in a
   * store whose fields share no watchable, each watchable held under one of
   * them is set to None.
   */
  method ClearState(n: BaseNode, now: Value)
    modifies n, HeldBy(n.store)
    ensures n.store == ClearedStore(old(n.store)) && n.error == old(n.error)
    ensures old(Apart(n.store)) ==> Apart(n.store) && ViewOf(n.store) == ClearedView(old(ViewOf(n.store)), now)
  {
    n.StoreValue(Null, RoleLabel, now);
    n.StoreValue(Null, Ip6LlaLabel, now);
    n.StoreValue(Null, Ip6MlaLabel, now);
    n.StoreValue(Null, AddressLabel("Weave Legacy"), now);
    n.StoreValue(Null, AddressLabel("Weave Thread"), now);
    n.StoreValue(Null, Ping6SentLabel, now);
    n.StoreValue(Null, XpanidLabel, now);
    n.StoreValue(Null, PingLossLabel, now);
  }

  /** `leave()`: the leave command is queued, then the state is cleared. */
  method Leave(n: BaseNode, w: Wpanctl, now: Value)
    modifies n, HeldBy(n.store), w
    ensures w.calls == old(w.calls) + [Queued("leave", "leave", Some("Leaving current WPAN. . ."), 60, None)]
    ensures n.store == ClearedStore(old(n.store)) && n.error == old(n.error)
    ensures old(Apart(n.store)) ==> Apart(n.store) && ViewOf(n.store) == ClearedView(old(ViewOf(n.store)), now)
  {
    QueueBeside(n, w, "leave", "leave", Some("Leaving current WPAN. . ."), 60, None);
    assert w !in HeldBy(n.store);
    ClearState(n, now);
  }

  /**
   * `form(network, role, xpanid, panid, mesh_local_prefix, add_ip_addr)`:
   * the fabric id is stored and the network key set before the role is
   * looked up, so an unknown role raises KeyError after those two steps;
   * otherwise the role number is stored, the form command queued, the
   * network properties queried, and the addresses fetched when asked for.
   */
  method FormNetwork(n: BaseNode, w: Wpanctl, network: WpanCredentials, role: RoleKey, xpanid: Option<string>,
              panid: Option<int>, meshLocalPrefix: Option<string>, addIpAddr: bool, now: Value)
    returns (r: Result<()>)
    modifies n, n.Target(FabricIdLabel), n.Target(RoleLabel), w
    ensures n.error == old(n.error)
    ensures old(Apart(n.store)) ==> Apart(n.store)
    ensures old(Apart(n.store)) && Roles(role).None? ==> ViewOf(n.store) == ViewAfter(old(ViewOf(n.store)), FabricIdLabel, Str(network.fabricId), now)
    ensures old(Apart(n.store)) && Roles(role).Some? ==>
      ViewOf(n.store) == ViewAfter(ViewAfter(old(ViewOf(n.store)), FabricIdLabel, Str(network.fabricId), now), RoleLabel, RoleValue(Roles(role).value), now)
    ensures Roles(role).None? ==>
      r == Err(KeyError) &&
      n.store == StoreAfter(old(n.store), FabricIdLabel, Str(network.fabricId)) &&
      w.calls == old(w.calls) + [SetKeyCall("form", network.psk)]
    ensures Roles(role).Some? ==>
      var v := Roles(role).value;
      r == Ok(()) &&
      n.store == StoreAfter(StoreAfter(old(n.store), FabricIdLabel, Str(network.fabricId)), RoleLabel, RoleValue(v)) &&
      w.calls == old(w.calls) + [SetKeyCall("form", network.psk)] +
        AttachCalls("form", FormCommand(network.name, v, network.channel, xpanid, panid, meshLocalPrefix),
                    "Successfully formed!", addIpAddr)
  {
    StoreFabricThenKey(n, w, network, now);
    var found := Roles(role);
    if found.None? {
      return Err(KeyError);
    }
    var v := found.value;
    StoreRoleThenAttach(n, w, v, "form", FormCommand(network.name, v, network.channel, xpanid, panid, meshLocalPrefix),
                        "Successfully formed!", addIpAddr, now);
    r := Ok(());
  }

  /** `__get_network_properties(action)`: the seven queries, in order. */
  method QueueNetworkProperties(w: Wpanctl, action: string)
    modifies w
    ensures w.calls == old(w.calls) + NetworkPropertyCalls(action)
  {
    w.Queue(action, "getprop channel", Some(" [0-9]{2}$"), 20, Some(ChannelLabel));
    w.Queue(action, "getprop panid", Some("0x[0-9a-fA-F]{4}$"), 20, Some(PanidLabel));
    w.Queue(action, "getprop xpanid", Some("0x[a-fA-F0-9]{16}$"), 20, Some(XpanidLabel));
    w.Queue(action, "get IPv6:LinkLocalAddress", Some(Ip6LlaRegex), 20, Some(Ip6LlaLabel));
    w.Queue(action, "get IPv6:MeshLocalAddress", Some(Ip6MlaRegex), 20, Some(Ip6MlaLabel));
    w.Queue(action, "getprop Network:Key", Some("\\[[0-9a-fA-F]{32}\\]"), 20, Some(PskLabel));
    w.Queue(action, "status", Some("AllowingJoin"), 20, None);
  }

  /**
   * The calls of a `form` or `join` once its role is known: the command,
   * waited on for up to 60 seconds, the property queries, then `_get_addr`
   * when asked for.
   */
  function AttachCalls(action: string, command: string, reply: string, getAddr: bool): (r: seq<Call>)
    ensures |r| == if getAddr then 9 else 8
    ensures r[0] == Queued(action, command, Some(reply), 60, None)
    ensures r[1..8] == NetworkPropertyCalls(action)
    ensures getAddr ==> r[8] == GetAddr(action)
  {
    [Queued(action, command, Some(reply), 60, None)] + NetworkPropertyCalls(action) + (if getAddr then [GetAddr(action)] else [])
  }

  /** The shared head of `form`: the fabric id is stored, then the network key is set. */
  method StoreFabricThenKey(n: BaseNode, w: Wpanctl, network: WpanCredentials, now: Value)
    modifies n, n.Target(FabricIdLabel), w
    ensures n.error == old(n.error)
    ensures n.store == StoreAfter(old(n.store), FabricIdLabel, Str(network.fabricId))
    ensures old(Apart(n.store)) ==> Apart(n.store) && ViewOf(n.store) == ViewAfter(old(ViewOf(n.store)), FabricIdLabel, Str(network.fabricId), now)
    ensures w.calls == old(w.calls) + [SetKeyCall("form", network.psk)]
  {
    n.StoreValue(Str(network.fabricId), FabricIdLabel, now);
    QueueBeside(n, w, "form", SetpropCommand(NetworkKeyProp, network.psk, true), None, 1, None);
  }

  /** A `wpanctl_async` call made beside a node: the fields the node shows stay as they were. */
  method QueueBeside(n: BaseNode, w: Wpanctl, action: string, command: string, expected: Option<string>, timeout: int,
                     field: Option<string>)
    modifies w
    ensures w.calls == old(w.calls) + [Queued(action, command, expected, timeout, field)]
    ensures ViewOf(n.store) == old(ViewOf(n.store))
  {
    assert w !in HeldBy(n.store);
    w.Queue(action, command, expected, timeout, field);
    ViewOfFramed(n.store);
  }

  /** The fields as seen after the fabric id and then the xpanid of `network` are stored. */
  function JoinedView(view: map<string, Shown>, network: WpanCredentials, now: Value): map<string, Shown>
  {
    ViewAfter(ViewAfter(view, FabricIdLabel, Str(network.fabricId), now), XpanidLabel, Str(network.xpanid), now)
  }

  /** The shared head of `join`: the fabric id and xpanid are stored, then the network key is set. */
  method StoreJoinCredentials(n: BaseNode, w: Wpanctl, network: WpanCredentials, now: Value)
    modifies n, n.Target(FabricIdLabel), n.Target(XpanidLabel), w
    ensures n.error == old(n.error)
    ensures n.store == StoreAfter(StoreAfter(old(n.store), FabricIdLabel, Str(network.fabricId)), XpanidLabel, Str(network.xpanid))
    ensures old(Apart(n.store)) ==> Apart(n.store) && ViewOf(n.store) == JoinedView(old(ViewOf(n.store)), network, now)
    ensures w.calls == old(w.calls) + [SetKeyCall("join", network.psk)]
  {
    n.StoreValue(Str(network.fabricId), FabricIdLabel, now);
    n.StoreValue(Str(network.xpanid), XpanidLabel, now);
    QueueBeside(n, w, "join", SetpropCommand(NetworkKeyProp, network.psk, true), None, 1, None);
  }

  /** The shared tail of `form` and `join`: the role is stored, then the command and the follow-up queries are queued. */
  method StoreRoleThenAttach(n: BaseNode, w: Wpanctl, v: RoleKey, action: string, command: string, reply: string,
                             getAddr: bool, now: Value)
    modifies n, n.Target(RoleLabel), w
    ensures n.error == old(n.error)
    ensures n.store == StoreAfter(old(n.store), RoleLabel, RoleValue(v))
    ensures old(Apart(n.store)) ==> Apart(n.store) && ViewOf(n.store) == ViewAfter(old(ViewOf(n.store)), RoleLabel, RoleValue(v), now)
    ensures w.calls == old(w.calls) + AttachCalls(action, command, reply, getAddr)
  {
    n.StoreValue(RoleValue(v), RoleLabel, now);
    QueueAttach(n, w, action, command, reply, getAddr);
  }

  /** The calls of a `form` or `join` once its role is known, made beside the node: the fields it shows stay. */
  method QueueAttach(n: BaseNode, w: Wpanctl, action: string, command: string, reply: string, getAddr: bool)
    modifies w
    ensures w.calls == old(w.calls) + AttachCalls(action, command, reply, getAddr)
    ensures ViewOf(n.store) == old(ViewOf(n.store))
  {
    assert w !in HeldBy(n.store);
    w.Queue(action, command, Some(reply), 60, None);
    QueueNetworkProperties(w, action);
    if getAddr {
      w.GetAddrHook(action);
    }    ViewOfFramed(n.store);
  }

  /**
   * `join(network, role, add_ip_addr)`: the fabric id and xpanid are stored
   * and the network key set before the role is looked up; then as `form`,
   * with the join command.
   */
  method JoinNetwork(n: BaseNode, w: Wpanctl, network: WpanCredentials, role: RoleKey, addIpAddr: bool, now: Value)
    returns (r: Result<()>)
    modifies n, n.Target(FabricIdLabel), n.Target(XpanidLabel), n.Target(RoleLabel), w
    ensures n.error == old(n.error)
    ensures old(Apart(n.store)) ==> Apart(n.store)
    ensures old(Apart(n.store)) && Roles(role).None? ==> ViewOf(n.store) == JoinedView(old(ViewOf(n.store)), network, now)
    ensures old(Apart(n.store)) && Roles(role).Some? ==>
      ViewOf(n.store) == ViewAfter(JoinedView(old(ViewOf(n.store)), network, now), RoleLabel, RoleValue(Roles(role).value), now)
    ensures Roles(role).None? ==>
      r == Err(KeyError) && n.store == StoreAfter(StoreAfter(old(n.store), FabricIdLabel, Str(network.fabricId)), XpanidLabel, Str(network.xpanid)) &&
      w.calls == old(w.calls) + [SetKeyCall("join", network.psk)]
    ensures Roles(role).Some? ==>
      var v := Roles(role).value;
      r == Ok(()) && n.store == StoreAfter(StoreAfter(StoreAfter(old(n.store), FabricIdLabel, Str(network.fabricId)), XpanidLabel, Str(network.xpanid)), RoleLabel, RoleValue(v)) &&
      w.calls == old(w.calls) + [SetKeyCall("join", network.psk)] +
        AttachCalls("join", JoinCommand(network.name, v, network.channel, network.xpanid, network.panid),
                    "Successfully Joined!", addIpAddr)
  {
    StoreJoinCredentials(n, w, network, now);
    assert n.Target(RoleLabel) == old(n.Target(RoleLabel));
    var found := Roles(role);
    if found.None? {
      return Err(KeyError);
    }
    var v := found.value;
    StoreRoleThenAttach(n, w, v, "join", JoinCommand(network.name, v, network.channel, network.xpanid, network.panid),
                        "Successfully Joined!", addIpAddr, now);
    r := Ok(());
  }

  /** src `form(network, role)`: no optional flags, the role after the 0x82 rewrite, and always `_get_addr`. */
  method FormNetworkSrc(n: BaseNode, w: Wpanctl, network: WpanCredentials, role: RoleKey, now: Value)
    returns (r: Result<()>)
    modifies n, n.Target(FabricIdLabel), n.Target(RoleLabel), w
    ensures n.error == old(n.error)
    ensures old(Apart(n.store)) ==> Apart(n.store)
    ensures old(Apart(n.store)) && Roles(role).None? ==> ViewOf(n.store) == ViewAfter(old(ViewOf(n.store)), FabricIdLabel, Str(network.fabricId), now)
    ensures old(Apart(n.store)) && Roles(role).Some? ==>
      ViewOf(n.store) == ViewAfter(ViewAfter(old(ViewOf(n.store)), FabricIdLabel, Str(network.fabricId), now), RoleLabel, RoleValue(Roles(role).value), now)
    ensures Roles(role).None? ==>
      r == Err(KeyError) && n.store == StoreAfter(old(n.store), FabricIdLabel, Str(network.fabricId)) &&
      w.calls == old(w.calls) + [SetKeyCall("form", network.psk)]
    ensures Roles(role).Some? ==>
      var v := Roles(role).value;
      r == Ok(()) && n.store == StoreAfter(StoreAfter(old(n.store), FabricIdLabel, Str(network.fabricId)), RoleLabel, RoleValue(v)) &&
      w.calls == old(w.calls) + [SetKeyCall("form", network.psk)] +
        AttachCalls("form", FormCommandSrc(network.name, v, network.channel), "Successfully formed!", true)
  {
    StoreFabricThenKey(n, w, network, now);
    var found := Roles(role);
    if found.None? {
      return Err(KeyError);
    }
    var v := found.value;
    StoreRoleThenAttach(n, w, v, "form", FormCommandSrc(network.name, v, network.channel),
                        "Successfully formed!", true, now);
    r := Ok(());
  }

  /** src `join(network, role)`: the join command after the 0x82 rewrite, and always `_get_addr`. */
  method JoinNetworkSrc(n: BaseNode, w: Wpanctl, network: WpanCredentials, role: RoleKey, now: Value)
    returns (r: Result<()>)
    modifies n, n.Target(FabricIdLabel), n.Target(XpanidLabel), n.Target(RoleLabel), w
    ensures n.error == old(n.error)
    ensures old(Apart(n.store)) ==> Apart(n.store)
    ensures old(Apart(n.store)) && Roles(role).None? ==> ViewOf(n.store) == JoinedView(old(ViewOf(n.store)), network, now)
    ensures old(Apart(n.store)) && Roles(role).Some? ==>
      ViewOf(n.store) == ViewAfter(JoinedView(old(ViewOf(n.store)), network, now), RoleLabel, RoleValue(Roles(role).value), now)
    ensures Roles(role).None? ==>
      r == Err(KeyError) && n.store == StoreAfter(StoreAfter(old(n.store), FabricIdLabel, Str(network.fabricId)), XpanidLabel, Str(network.xpanid)) &&
      w.calls == old(w.calls) + [SetKeyCall("join", network.psk)]
    ensures Roles(role).Some? ==>
      var v := Roles(role).value;
      r == Ok(()) && n.store == StoreAfter(StoreAfter(StoreAfter(old(n.store), FabricIdLabel, Str(network.fabricId)), XpanidLabel, Str(network.xpanid)), RoleLabel, RoleValue(v)) &&
      w.calls == old(w.calls) + [SetKeyCall("join", network.psk)] +
        AttachCalls("join", JoinCommandSrc(network.name, v, network.channel, network.xpanid, network.panid),
                    "Successfully Joined!", true)
  {
    StoreJoinCredentials(n, w, network, now);
    assert n.Target(RoleLabel) == old(n.Target(RoleLabel));
    var found := Roles(role);
    if found.None? {
      return Err(KeyError);
    }
    var v := found.value;
    StoreRoleThenAttach(n, w, v, "join", JoinCommandSrc(network.name, v, network.channel, network.xpanid, network.panid),
                        "Successfully Joined!", true, now);
    r := Ok(());
  }

  /** `permit_join(period)`: the steering data is set, then joining permitted for the period, 240 seconds when none is given. */
  method PermitJoin(w: Wpanctl, period: Option<int>)
    modifies w
    ensures w.calls == old(w.calls) +
      [Queued("permit-join", "setprop OpenThread:SteeringData:SetWhenJoinable true", Some(""), 5, None),
       Queued("permit-join", PermitJoinCommand(period), Some("Permitting Joining on the current WPAN"), 10, None)]
  {
    w.Queue("permit-join", "setprop OpenThread:SteeringData:SetWhenJoinable true", Some(""), 5, None);
    w.Queue("permit-join", PermitJoinCommand(period), Some("Permitting Joining on the current WPAN"), 10, None);
  }

  /**
   * `permit_join_new(duration_sec, port, udp, tcp)`: with neither traffic
   * type it returns the empty string without calling `wpanctl`; otherwise it
   * returns the reply to the command.
   */
  method PermitJoinNew(w: Wpanctl, duration: Option<int>, port: Option<int>, udp: bool, tcp: bool, reply: string)
    returns (out: string)
    modifies w
    ensures !udp && !tcp ==> out == "" && w.calls == old(w.calls)
    ensures udp || tcp ==>
      out == reply && w.calls == old(w.calls) + [Call.Run("permit-join", PermitJoinNewCommand(duration, port, udp, tcp), 5)]
  {
    if !udp && !tcp {
      return "";
    }
    out := w.Run("permit-join", PermitJoinNewCommand(duration, port, udp, tcp), 5, reply);
  }

  /** `get_discover_scan(...)`: the reply to the `scan -d` command. */
  method GetDiscoverScan(w: Wpanctl, channel: Option<int>, joinerOnly: bool, filtering: bool, panidFilter: Option<int>,
                         reply: string)
    returns (out: string)
    modifies w
    ensures out == reply &&
      w.calls == old(w.calls) + [Call.Run("scan", DiscoverScanCommand(channel, joinerOnly, filtering, panidFilter), 20)]
  {
    out := w.Run("scan", DiscoverScanCommand(channel, joinerOnly, filtering, panidFilter), 20, reply);
  }

  /** `add_prefix(...)`: the reply to the `add-prefix` command. */
  method AddPrefix(w: Wpanctl, a: PrefixArgs, reply: string) returns (out: string)
    modifies w
    ensures out == reply && w.calls == old(w.calls) + [Call.Run("add-prefix", AddPrefixCommand(a), 20)]
  {
    out := w.Run("add-prefix", AddPrefixCommand(a), 20, reply);
  }

  /** `remove_prefix(prefix, prefix_len)`: the reply to the `remove-prefix` command. */
  method RemovePrefix(w: Wpanctl, prefix: string, prefixLen: Option<int>, reply: string) returns (out: string)
    modifies w
    ensures out == reply && w.calls == old(w.calls) + [Call.Run("remove-prefix", RemovePrefixCommand(prefix, prefixLen), 20)]
  {
    out := w.Run("remove-prefix", RemovePrefixCommand(prefix, prefixLen), 20, reply);
  }

  /** `add_route_using_prefix(...)`: the reply to the `add-route` command. */
  method AddRouteUsingPrefix(w: Wpanctl, a: RouteArgs, reply: string) returns (out: string)
    modifies w
    ensures out == reply && w.calls == old(w.calls) + [Call.Run("add-route", AddRouteCommand(a), 20)]
  {
    out := w.Run("add-route", AddRouteCommand(a), 20, reply);
  }

  /** `remove_route(...)`: the reply to the `remove-route` command. */
  method RemoveRoute(w: Wpanctl, a: RouteArgs, reply: string) returns (out: string)
    modifies w
    ensures out == reply && w.calls == old(w.calls) + [Call.Run("remove-route", RemoveRouteCommand(a), 20)]
  {
    out := w.Run("remove-route", RemoveRouteCommand(a), 20, reply);
  }

  /** src `add_route(...)`: the reply to the `add-route` command with `-n` glued on. */
  method AddRouteSrc(w: Wpanctl, a: RouteArgs, reply: string) returns (out: string)
    modifies w
    ensures out == reply && w.calls == old(w.calls) + [Call.Run("add-route", AddRouteCommandSrc(a), 20)]
  {
    out := w.Run("add-route", AddRouteCommandSrc(a), 20, reply);
  }

  /**
   * src `remove_route(...)` as written: `wpanctl` takes a timeout the call
   * does not pass, so it raises TypeError and nothing is sent.
   */
  method RemoveRouteSrc(w: Wpanctl, a: RouteArgs) returns (r: Result<string>)
    modifies w
    ensures r == Err(TypeError) && w.calls == old(w.calls)
  {
    r := Err(TypeError);
  }

  /** `setprop(key, value, data)`: the reply to the `setprop` command, sent with a 2 second timeout. */
  method Setprop(w: Wpanctl, key: string, value: string, data: bool, reply: string) returns (out: string)
    modifies w
    ensures out == reply && w.calls == old(w.calls) + [Call.Run("setprop", SetpropCommand(key, value, data), 2)]
  {
    out := w.Run("setprop", SetpropCommand(key, value, data), 2, reply);
  }

  /** `getprop(property_name)`: the value the reply gives for the property. */
  method Getprop(w: Wpanctl, name: string, reply: string) returns (out: string)
    modifies w
    ensures out == GetpropValue(reply) && w.calls == old(w.calls) + [Call.Run("getprop", "getprop " + name, 2)]
  {
    var prop := w.Run("getprop", "getprop " + name, 2, reply);
    out := GetpropValue(prop);
  }

  /** src `getprop(property_name)`: as `getprop`, after a unicode reply is encoded to ASCII. */
  method GetpropSrc(w: Wpanctl, name: string, reply: string, isUnicode: bool) returns (out: string)
    modifies w
    ensures out == GetpropValueSrc(reply, isUnicode) && w.calls == old(w.calls) + [Call.Run("getprop", "getprop " + name, 2)]
  {
    var prop := w.Run("getprop", "getprop " + name, 2, reply);
    out := GetpropValueSrc(prop, isUnicode);
  }

  /** `_update_prop(action, prop_name, value, binary_data)`, behind `set`, `add` and `remove`. */
  method UpdateProp(w: Wpanctl, action: string, prop: string, value: string, binary: bool, reply: string)
    returns (out: string)
    modifies w
    ensures out == reply && w.calls == old(w.calls) + [Call.Run(action, UpdatePropCommand(action, prop, value, binary), 2)]
  {
    out := w.Run(action, UpdatePropCommand(action, prop, value, binary), 2, reply);
  }
}
