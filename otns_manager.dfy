/**
 * OTNS bookkeeping (silk/tools/otns_manager.py).
 *
 * A Silk test case reports each dev board to the OTNS dispatcher as an OTNS
 * node. Each node sends UDP status events (an 11-byte little-endian header
 * and the ASCII message) and asks the gRPC service to add, delete and move
 * it. Each node keeps its extended address, role, children and router
 * neighbors, and sends an event only when one of them really changes. The
 * manager keeps one node per board, a history summary per node id, and
 * applies the status lines wpantund logs.
 */
module OtnsManager {
  import opened PyCore
  import opened PyInt

  newtype byte = x: int | 0 <= x < 256

  // ================================================================ events

  /** `EventType.ALARM_FIRED` and `EventType.OTNS_STATUS_PUSH`. */
  const AlarmFired: nat := 0
  const OtnsStatusPush: nat := 5

  /** The range of the `Q` field of `struct.pack`. */
  const U64: nat := 0x1_0000_0000_0000_0000

  /** An OTNS event; the `length` attribute of the source is always `|data|`. */
  datatype Event = Event(delay: int, event: nat, data: seq<byte>)

  predicate IsAscii(s: string)
  {
    forall i :: 0 <= i < |s| ==> s[i] as int < 128
  }

  /** `s.encode("ascii")`. */
  function AsciiEncode(s: string): (r: Result<seq<byte>>)
    ensures r.Ok? <==> IsAscii(s)
    ensures r.Ok? ==> |r.value| == |s| && forall i :: 0 <= i < |s| ==> r.value[i] as int == s[i] as int
    ensures r.Err? ==> r.error == UnicodeEncodeError
  {
    if s == [] then Ok([])
    else if s[0] as int >= 128 then Err(UnicodeEncodeError)
    else
      var rest :- AsciiEncode(s[1..]);
      assert forall i :: 1 <= i < |s| ==> s[i] == s[1..][i - 1];
      Ok([s[0] as int as byte] + rest)
  }

  /** The text of ASCII bytes, as the dispatcher reads a status message. */
  function AsciiText(bs: seq<byte>): (r: string)
    requires forall i :: 0 <= i < |bs| ==> bs[i] < 128
    ensures |r| == |bs| && forall i :: 0 <= i < |bs| ==> r[i] as int == bs[i] as int
  {
    seq(|bs|, i requires 0 <= i < |bs| => bs[i] as int as char)
  }

  /** `Event.status_event(message)`: a status push of the message in ASCII; non-ASCII text raises. */
  function StatusEvent(message: string): (r: Result<Event>)
    ensures r.Ok? <==> IsAscii(message)
    ensures r.Err? ==> r.error == UnicodeEncodeError
    ensures r.Ok? ==> r.value.delay == 0 && r.value.event == OtnsStatusPush && |r.value.data| == |message|
  {
    var data :- AsciiEncode(message);
    Ok(Event(0, OtnsStatusPush, data))
  }

  /** `Event.alarm_event(delay)`: an alarm with no data. */
  function AlarmEvent(delay: int): Event
  {
    Event(delay, AlarmFired, [])
  }

  /** The `k` low bytes of `n`, the lowest first. */
  function LittleEndian(n: nat, k: nat): (r: seq<byte>)
    ensures |r| == k
  {
    if k == 0 then [] else [(n % 256) as byte] + LittleEndian(n / 256, k - 1)
  }

  /** The number little-endian bytes spell. */
  function LittleEndianValue(bs: seq<byte>): nat
  {
    if bs == [] then 0 else bs[0] as nat + 256 * LittleEndianValue(bs[1..])
  }

  /**
   * `Event.to_bytes()`: `struct.pack("<QBH", delay, event, length) + data`,
   * or `struct.error` when a header field does not fit its width.
   */
  function ToBytes(e: Event): (r: Result<seq<byte>>)
    ensures r.Ok? <==> 0 <= e.delay < U64 && e.event < 256 && |e.data| < 0x1_0000
    ensures r.Err? ==> r.error == StructError
    ensures r.Ok? ==> |r.value| == 11 + |e.data| && r.value[11..] == e.data
  {
    if 0 <= e.delay < U64 && e.event < 256 && |e.data| < 0x1_0000 then
      Ok(LittleEndian(e.delay, 8) + LittleEndian(e.event, 1) + LittleEndian(|e.data|, 2) + e.data)
    else
      Err(StructError)
  }

  /**
   * How the OTNS dispatcher reads a UDP event: the header fields, then as
   * many data bytes as the length field says, which must be all the rest.
   */
  function FromBytes(bs: seq<byte>): Option<Event>
  {
    if |bs| < 11 || LittleEndianValue(bs[9..11]) != |bs| - 11 then None
    else Some(Event(LittleEndianValue(bs[..8]), LittleEndianValue(bs[8..9]), bs[11..]))
  }

  lemma {:induction false} LittleEndianRoundTrip(n: nat, k: nat)
    requires n < Pow(256, k)
    ensures LittleEndianValue(LittleEndian(n, k)) == n
  {
    if k > 0 {
      assert n / 256 < Pow(256, k - 1);
      LittleEndianRoundTrip(n / 256, k - 1);
      assert LittleEndian(n, k)[1..] == LittleEndian(n / 256, k - 1);
    }
  }

  /** Every event whose header fits reads back as itself. */
  lemma EventRoundTrip(e: Event)
    requires ToBytes(e).Ok?
    ensures FromBytes(ToBytes(e).value) == Some(e)
  {
    var bs := ToBytes(e).value;
    assert Pow(256, 8) == U64;
    LittleEndianRoundTrip(e.delay, 8);
    LittleEndianRoundTrip(e.event, 1);
    LittleEndianRoundTrip(|e.data|, 2);
    assert bs[..8] == LittleEndian(e.delay, 8);
    assert bs[8..9] == LittleEndian(e.event, 1);
    assert bs[9..11] == LittleEndian(|e.data|, 2);
  }

  lemma {:induction false} AsciiTextEncode(s: string)
    requires IsAscii(s)
    ensures var bs := AsciiEncode(s).value; (forall i :: 0 <= i < |bs| ==> bs[i] < 128) && AsciiText(bs) == s
  {
  }

  /**
   * A status message of ASCII text shorter than 65536 characters goes out
   * as 11 + its length bytes, and the dispatcher reads back a status push
   * carrying the same text.
   */
  lemma StatusEventRoundTrip(message: string)
    requires IsAscii(message) && |message| < 0x1_0000
    ensures StatusEvent(message).Ok? && ToBytes(StatusEvent(message).value).Ok?
    ensures |ToBytes(StatusEvent(message).value).value| == 11 + |message|
    ensures var d := FromBytes(ToBytes(StatusEvent(message).value).value);
      && d.Some? && d.value.event == OtnsStatusPush && d.value.delay == 0
      && (forall i :: 0 <= i < |d.value.data| ==> d.value.data[i] < 128) && AsciiText(d.value.data) == message
  {
    EventRoundTrip(StatusEvent(message).value);
    AsciiTextEncode(message);
  }

  /** `Event.alarm_event()` with its default delay of 1 is this 11-byte packet. */
  lemma AlarmPacket()
    ensures ToBytes(AlarmEvent(1)) == Ok([1, 0, 0, 0, 0, 0, 0, 0, 0, 0, 0])
  {
    ZeroBytes(7);
    ZeroBytes(1);
    ZeroBytes(2);
    assert LittleEndian(1, 8) == [1, 0, 0, 0, 0, 0, 0, 0];
    assert LittleEndian(0, 1) == [0];
    assert LittleEndian(0, 2) == [0, 0];
    var e := AlarmEvent(1);
    assert 0 <= e.delay < U64 && e.event < 256 && |e.data| < 0x1_0000;
    var bs: seq<byte> := [1, 0, 0, 0, 0, 0, 0, 0] + [0] + [0, 0] + [];
    assert ToBytes(e) == Ok(bs);
    assert bs == [1, 0, 0, 0, 0, 0, 0, 0, 0, 0, 0];
  }

  lemma {:induction false} ZeroBytes(k: nat)
    ensures LittleEndian(0, k) == seq(k, i => 0)
  {
    if k > 0 {
      ZeroBytes(k - 1);
    }
  }

  // ================================================================ nodes

  datatype RoleType = Disabled | Detached | Child | Router | Leader

  /** `RoleType.value`. */
  function RoleValue(r: RoleType): (v: nat)
    ensures v <= 4
  {
    match r
    case Disabled => 0
    case Detached => 1
    case Child => 2
    case Router => 3
    case Leader => 4
  }

  /** The gRPC requests a node makes on the manager's shared client. */
  datatype GrpcCall =
    | AddNode(x: int, y: int, nodeId: int)
    | DeleteNode(nodeId: int)
    | MoveNode(nodeId: int, x: int, y: int)

  /** `"{key}{:016x}".format(x)`: ASCII whatever `x` is, so encoding it cannot raise. */
  function StatusText(key: string, x: int): (r: string)
    requires IsAscii(key)
    ensures IsAscii(r)
  {
    HexAscii(x, 16);
    AsciiConcat(key, FormatHex(x, 16));
    key + FormatHex(x, 16)
  }

  /** The status an `[OTNS]` message stands for. */
  datatype StatusKind =
    | ExtaddrStatus(extaddr: int)
    | RoleStatus(role: RoleType)
    | ChildAddedStatus(child: int)
    | ChildRemovedStatus(child: int)
    | RouterAddedStatus(router: int)
    | RouterRemovedStatus(router: int)
    | OtherStatus(text: string)

  /** `"role={:1d}".format(role.value)`: one digit. */
  function RoleMessage(role: RoleType): (r: string)
    ensures IsAscii(r) && |r| == 6
  {
    var d := IntStr(RoleValue(role));
    assert |d| == 1 && '0' <= d[0] <= '4';
    AsciiConcat("role=", d);
    "role=" + d
  }

  /** The text of a status the node sends; each goes out as `ToBytes(StatusEvent(text))`. */
  function StatusMessage(k: StatusKind): (r: string)
    ensures !k.OtherStatus? ==> IsAscii(r)
  {
    match k
    case ExtaddrStatus(x) => StatusText("extaddr=", x)
    case RoleStatus(role) => RoleMessage(role)
    case ChildAddedStatus(c) => StatusText("child_added=", c)
    case ChildRemovedStatus(c) => StatusText("child_removed=", c)
    case RouterAddedStatus(x) => StatusText("router_added=", x)
    case RouterRemovedStatus(x) => StatusText("router_removed=", x)
    case OtherStatus(text) => text
  }

  /** The observable state of an `OtnsNode`; `sent` lists the statuses it sent, oldest first. */
  datatype NodeState = NodeState(
    nodeId: int, visX: int, visY: int,
    extaddr: int, role: RoleType, children: set<int>, neighbors: set<int>,
    onOtns: bool, sent: seq<StatusKind>)

  /** A new `OtnsNode`: its extended address is its id until the board reports one. */
  function InitialNode(nodeId: int, visX: int, visY: int): NodeState
  {
    NodeState(nodeId, visX, visY, nodeId, Disabled, {}, {}, false, [])
  }

  /** `update_extaddr`. */
  function UpdatedExtaddr(s: NodeState, extaddr: int): NodeState
  {
    if extaddr != s.extaddr then s.(extaddr := extaddr, sent := s.sent + [ExtaddrStatus(extaddr)]) else s
  }

  /** `update_role`. */
  function UpdatedRole(s: NodeState, role: RoleType): NodeState
  {
    if role != s.role then s.(role := role, sent := s.sent + [RoleStatus(role)]) else s
  }

  /** `add_child`. */
  function ChildAdded(s: NodeState, child: int): NodeState
  {
    if child !in s.children then s.(children := s.children + {child}, sent := s.sent + [ChildAddedStatus(child)]) else s
  }

  /** `remove_child`. */
  function ChildRemoved(s: NodeState, child: int): NodeState
  {
    if child in s.children then s.(children := s.children - {child}, sent := s.sent + [ChildRemovedStatus(child)]) else s
  }

  /** `add_router`. */
  function RouterAdded(s: NodeState, router: int): NodeState
  {
    if router !in s.neighbors then s.(neighbors := s.neighbors + {router}, sent := s.sent + [RouterAddedStatus(router)]) else s
  }

  /** `remove_router`. */
  function RouterRemoved(s: NodeState, router: int): NodeState
  {
    if router in s.neighbors then s.(neighbors := s.neighbors - {router}, sent := s.sent + [RouterRemovedStatus(router)]) else s
  }

  /** `create_otns_node`: the node and the calls it makes. */
  function Created(s: NodeState): NodeState
  {
    if s.onOtns then s else s.(sent := s.sent + [ExtaddrStatus(s.extaddr)], onOtns := true)
  }

  function CreateCalls(s: NodeState): seq<GrpcCall>
  {
    if s.onOtns then [] else [AddNode(s.visX, s.visY, s.nodeId)]
  }

  /** `delete_otns_node`. */
  function Deleted(s: NodeState): NodeState
  {
    if s.onOtns then s.(onOtns := false) else s
  }

  function DeleteCalls(s: NodeState): seq<GrpcCall>
  {
    if s.onOtns then [DeleteNode(s.nodeId)] else []
  }

  /** `update_vis_position`: the move is asked for whether or not the node is on OTNS. */
  function Moved(s: NodeState, x: int, y: int): NodeState
  {
    if x != s.visX || y != s.visY then s.(visX := x, visY := y) else s
  }

  function MoveCalls(s: NodeState, x: int, y: int): seq<GrpcCall>
  {
    if x != s.visX || y != s.visY then [MoveNode(s.nodeId, x, y)] else []
  }

  /** The shared `GRpcClient`, as the log of the requests it was asked to make. */
  class GrpcClient {
    var calls: seq<GrpcCall>

    constructor()
      ensures calls == []
    {
      calls := [];
    }
  }

  /** An `OtnsNode`: its fields change in place and its gRPC requests go to the shared client. */
  class OtnsNode {
    const nodeId: int
    var visX: int
    var visY: int
    var extaddr: int
    var role: RoleType
    var children: set<int>
    var neighbors: set<int>
    var nodeOnOtns: bool
    var sent: seq<StatusKind>
    const client: GrpcClient

    function State(): NodeState
      reads this
    {
      NodeState(nodeId, visX, visY, extaddr, role, children, neighbors, nodeOnOtns, sent)
    }

    constructor(nodeId: int, visX: int, visY: int, client: GrpcClient)
      requires nodeId > 0
      ensures State() == InitialNode(nodeId, visX, visY) && this.client == client
    {
      this.nodeId := nodeId;
      this.visX := visX;
      this.visY := visY;
      this.client := client;
      this.extaddr := nodeId;
      this.role := Disabled;
      this.children := {};
      this.neighbors := {};
      this.nodeOnOtns := false;
      this.sent := [];
    }

    method UpdateExtaddr(extaddr: int)
      modifies this
      ensures State() == UpdatedExtaddr(old(State()), extaddr)
    {
      if extaddr != this.extaddr {
        this.extaddr := extaddr;
        sent := sent + [ExtaddrStatus(extaddr)];
      }
    }

    method UpdateRole(role: RoleType)
      modifies this
      ensures State() == UpdatedRole(old(State()), role)
    {
      if role != this.role {
        this.role := role;
        sent := sent + [RoleStatus(role)];
      }
    }

    method AddChild(child: int)
      modifies this
      ensures State() == ChildAdded(old(State()), child)
    {
      if child !in children {
        children := children + {child};
        sent := sent + [ChildAddedStatus(child)];
      }
    }

    method RemoveChild(child: int)
      modifies this
      ensures State() == ChildRemoved(old(State()), child)
    {
      if child in children {
        children := children - {child};
        sent := sent + [ChildRemovedStatus(child)];
      }
    }

    method AddRouter(router: int)
      modifies this
      ensures State() == RouterAdded(old(State()), router)
    {
      if router !in neighbors {
        neighbors := neighbors + {router};
        sent := sent + [RouterAddedStatus(router)];
      }
    }

    method RemoveRouter(router: int)
      modifies this
      ensures State() == RouterRemoved(old(State()), router)
    {
      if router in neighbors {
        neighbors := neighbors - {router};
        sent := sent + [RouterRemovedStatus(router)];
      }
    }

    method CreateOtnsNode()
      modifies this, client
      ensures State() == Created(old(State()))
      ensures client.calls == old(client.calls) + CreateCalls(old(State()))
    {
      if nodeOnOtns {
        return;
      }
      client.calls := client.calls + [AddNode(visX, visY, nodeId)];
      sent := sent + [ExtaddrStatus(extaddr)];
      nodeOnOtns := true;
    }

    method DeleteOtnsNode()
      modifies this, client
      ensures State() == Deleted(old(State()))
      ensures client.calls == old(client.calls) + DeleteCalls(old(State()))
    {
      if !nodeOnOtns {
        return;
      }
      client.calls := client.calls + [DeleteNode(nodeId)];
      nodeOnOtns := false;
    }

    method UpdateVisPosition(x: int, y: int)
      modifies this, client
      ensures State() == Moved(old(State()), x, y)
      ensures client.calls == old(client.calls) + MoveCalls(old(State()), x, y)
    {
      if x != visX || y != visY {
        visX := x;
        visY := y;
        client.calls := client.calls + [MoveNode(nodeId, x, y)];
      }
    }
  }

  // ------------------------------------------------------------ node lemmas

  /**
   * `update_extaddr` and `update_role` leave the value given, send one event
   * exactly when it differs, and a second identical call changes nothing.
   */
  lemma ExtaddrUpdate(s: NodeState, extaddr: int)
    ensures UpdatedExtaddr(s, extaddr).extaddr == extaddr
    ensures UpdatedExtaddr(s, extaddr).sent == s.sent + (if extaddr != s.extaddr then [ExtaddrStatus(extaddr)] else [])
    ensures UpdatedExtaddr(s, extaddr) == s <==> extaddr == s.extaddr
    ensures UpdatedExtaddr(UpdatedExtaddr(s, extaddr), extaddr) == UpdatedExtaddr(s, extaddr)
  {
  }

  lemma RoleUpdate(s: NodeState, role: RoleType)
    ensures UpdatedRole(s, role).role == role
    ensures UpdatedRole(s, role).sent == s.sent + (if role != s.role then [RoleStatus(role)] else [])
    ensures UpdatedRole(s, role) == s <==> role == s.role
    ensures UpdatedRole(UpdatedRole(s, role), role) == UpdatedRole(s, role)
  {
  }

  /**
   * The child operations are set insertion and deletion; an event goes out
   * exactly when membership changes, and nothing else about the node does.
   */
  lemma ChildAddedSet(s: NodeState, child: int)
    ensures ChildAdded(s, child) == s.(children := s.children + {child}, sent := ChildAdded(s, child).sent)
    ensures ChildAdded(s, child).sent == s.sent + (if child in s.children then [] else [ChildAddedStatus(child)])
    ensures ChildAdded(ChildAdded(s, child), child) == ChildAdded(s, child)
  {
    if child in s.children {
      assert s.children + {child} == s.children;
    }
  }

  lemma ChildRemovedSet(s: NodeState, child: int)
    ensures ChildRemoved(s, child) == s.(children := s.children - {child}, sent := ChildRemoved(s, child).sent)
    ensures ChildRemoved(s, child).sent == s.sent + (if child in s.children then [ChildRemovedStatus(child)] else [])
    ensures ChildRemoved(ChildRemoved(s, child), child) == ChildRemoved(s, child)
  {
    if child !in s.children {
      assert s.children - {child} == s.children;
    }
  }

  lemma RouterAddedSet(s: NodeState, router: int)
    ensures RouterAdded(s, router) == s.(neighbors := s.neighbors + {router}, sent := RouterAdded(s, router).sent)
    ensures RouterAdded(s, router).sent == s.sent + (if router in s.neighbors then [] else [RouterAddedStatus(router)])
    ensures RouterAdded(RouterAdded(s, router), router) == RouterAdded(s, router)
  {
    if router in s.neighbors {
      assert s.neighbors + {router} == s.neighbors;
    }
  }

  lemma RouterRemovedSet(s: NodeState, router: int)
    ensures RouterRemoved(s, router) == s.(neighbors := s.neighbors - {router}, sent := RouterRemoved(s, router).sent)
    ensures RouterRemoved(s, router).sent == s.sent + (if router in s.neighbors then [RouterRemovedStatus(router)] else [])
    ensures RouterRemoved(RouterRemoved(s, router), router) == RouterRemoved(s, router)
  {
    if router !in s.neighbors {
      assert s.neighbors - {router} == s.neighbors;
    }
  }

  /** Adding then removing a new child restores the children and reports both steps. */
  lemma ChildAddRemove(s: NodeState, child: int)
    requires child !in s.children
    ensures ChildRemoved(ChildAdded(s, child), child).children == s.children
    ensures ChildRemoved(ChildAdded(s, child), child).sent == s.sent + [ChildAddedStatus(child), ChildRemovedStatus(child)]
  {
  }

  /**
   * `create_otns_node` and `delete_otns_node` set and clear the flag; a
   * second create, or a second delete, makes no request and sends nothing.
   */
  lemma CreateDelete(s: NodeState)
    ensures Created(s).onOtns && !Deleted(s).onOtns
    ensures Created(Created(s)) == Created(s) && CreateCalls(Created(s)) == []
    ensures Deleted(Deleted(s)) == Deleted(s) && DeleteCalls(Deleted(s)) == []
    ensures !s.onOtns ==> (CreateCalls(s) == [AddNode(s.visX, s.visY, s.nodeId)]
                           && Created(s).sent == s.sent + [ExtaddrStatus(s.extaddr)])
    ensures s.onOtns ==> DeleteCalls(s) == [DeleteNode(s.nodeId)] && Deleted(s).sent == s.sent
  {
  }

  /** `update_vis_position` moves the node only to a new place, and a repeat is a no-op. */
  lemma MoveOnce(s: NodeState, x: int, y: int)
    ensures Moved(s, x, y).visX == x && Moved(s, x, y).visY == y
    ensures Moved(Moved(s, x, y), x, y) == Moved(s, x, y) && MoveCalls(Moved(s, x, y), x, y) == []
    ensures MoveCalls(s, x, y) == [] <==> (x == s.visX && y == s.visY)
  {
  }

  lemma {:induction false} PadZerosAscii(s: string, width: nat)
    requires IsAscii(s)
    ensures IsAscii(PadZeros(s, width))
    decreases width - |s|
  {
    if |s| < width {
      PadZerosAscii("0" + s, width);
    }
  }

  lemma HexIsAscii(n: nat)
    ensures IsAscii(Hex(n))
  {
    var h := Hex(n);
    forall i | 0 <= i < |h| ensures h[i] as int < 128 {
      assert IsDigitIn(h[i], 16);
    }
  }

  lemma HexAscii(n: int, width: nat)
    ensures IsAscii(FormatHex(n, width))
  {
    if n < 0 {
      var w := if width > 0 then width - 1 else 0;
      HexIsAscii(-n);
      PadZerosAscii(Hex(-n), w);
      AsciiConcat("-", PadZeros(Hex(-n), w));
    } else {
      HexIsAscii(n);
      PadZerosAscii(Hex(n), width);
    }
  }

  lemma AsciiConcat(a: string, b: string)
    requires IsAscii(a) && IsAscii(b)
    ensures IsAscii(a + b)
  {
    assert forall i :: |a| <= i < |a + b| ==> (a + b)[i] == b[i - |a|];
  }

  // ================================================================ summaries

  /** One entry of a children or neighbors history: when, added or removed, and whom. */
  datatype LinkChange = LinkChange(time: int, added: bool, addr: int)

  /** The histories of an `OtnsNodeSummary`; timestamps are opaque numbers. */
  datatype Summary = Summary(
    nodeId: int,
    extaddrHistory: seq<(int, int)>,
    roleHistory: seq<(int, RoleType)>,
    childrenHistory: seq<LinkChange>,
    neighborsHistory: seq<LinkChange>)

  function NewSummary(nodeId: int): Summary
  {
    Summary(nodeId, [], [], [], [])
  }

  /** A value history with `v` noted at `time`: appended unless it is already the last value. */
  function Noted<T(==)>(h: seq<(int, T)>, time: int, v: T): seq<(int, T)>
  {
    if h == [] || h[|h| - 1].1 != v then h + [(time, v)] else h
  }

  /** No two neighbouring entries of the history hold the same value. */
  predicate NoRepeats<T(==)>(h: seq<(int, T)>)
  {
    forall i :: 0 < i < |h| ==> h[i - 1].1 != h[i].1
  }

  /** `extaddr_changed`, `role_changed`, `child_changed` and `neighbor_changed`. */
  function NoteExtaddr(sm: Summary, extaddr: int, time: int): Summary
  {
    sm.(extaddrHistory := Noted(sm.extaddrHistory, time, extaddr))
  }

  function NoteRole(sm: Summary, role: RoleType, time: int): Summary
  {
    sm.(roleHistory := Noted(sm.roleHistory, time, role))
  }

  function NoteChild(sm: Summary, added: bool, child: int, time: int): Summary
  {
    sm.(childrenHistory := sm.childrenHistory + [LinkChange(time, added, child)])
  }

  function NoteNeighbor(sm: Summary, added: bool, neighbor: int, time: int): Summary
  {
    sm.(neighborsHistory := sm.neighborsHistory + [LinkChange(time, added, neighbor)])
  }

  predicate SummaryValid(sm: Summary)
  {
    NoRepeats(sm.extaddrHistory) && NoRepeats(sm.roleHistory)
  }

  class OtnsNodeSummary {
    const nodeId: int
    var extaddrHistory: seq<(int, int)>
    var roleHistory: seq<(int, RoleType)>
    var childrenHistory: seq<LinkChange>
    var neighborsHistory: seq<LinkChange>

    function State(): Summary
      reads this
    {
      Summary(nodeId, extaddrHistory, roleHistory, childrenHistory, neighborsHistory)
    }

    constructor(nodeId: int)
      ensures State() == NewSummary(nodeId)
    {
      this.nodeId := nodeId;
      extaddrHistory := [];
      roleHistory := [];
      childrenHistory := [];
      neighborsHistory := [];
    }

    method ExtaddrChanged(extaddr: int, time: int)
      modifies this
      ensures State() == NoteExtaddr(old(State()), extaddr, time)
    {
      if extaddrHistory == [] || extaddrHistory[|extaddrHistory| - 1].1 != extaddr {
        extaddrHistory := extaddrHistory + [(time, extaddr)];
      }
    }

    method RoleChanged(role: RoleType, time: int)
      modifies this
      ensures State() == NoteRole(old(State()), role, time)
    {
      if roleHistory == [] || roleHistory[|roleHistory| - 1].1 != role {
        roleHistory := roleHistory + [(time, role)];
      }
    }

    method ChildChanged(added: bool, child: int, time: int)
      modifies this
      ensures State() == NoteChild(old(State()), added, child, time)
    {
      childrenHistory := childrenHistory + [LinkChange(time, added, child)];
    }

    method NeighborChanged(added: bool, neighbor: int, time: int)
      modifies this
      ensures State() == NoteNeighbor(old(State()), added, neighbor, time)
    {
      neighborsHistory := neighborsHistory + [LinkChange(time, added, neighbor)];
    }
  }

  /**
   * Noting a value keeps the history free of neighbouring repeats, ends it
   * with that value, adds at most one entry, and noting it again at any
   * later time changes nothing.
   */
  lemma NotedHistory<T>(h: seq<(int, T)>, time: int, later: int, v: T)
    requires NoRepeats(h)
    ensures var n := Noted(h, time, v);
      && NoRepeats(n) && n != [] && n[|n| - 1].1 == v
      && n[..|h|] == h && |h| <= |n| <= |h| + 1
      && (|n| == |h| + 1 <==> (h == [] || h[|h| - 1].1 != v))
      && Noted(n, later, v) == n
  {
  }

  /** Every summary update keeps both value histories free of neighbouring repeats. */
  lemma SummaryUpdatesValid(sm: Summary, extaddr: int, role: RoleType, added: bool, x: int, time: int)
    requires SummaryValid(sm)
    ensures SummaryValid(NoteExtaddr(sm, extaddr, time)) && SummaryValid(NoteRole(sm, role, time))
    ensures SummaryValid(NoteChild(sm, added, x, time)) && SummaryValid(NoteNeighbor(sm, added, x, time))
    ensures |NoteChild(sm, added, x, time).childrenHistory| == |sm.childrenHistory| + 1
    ensures |NoteNeighbor(sm, added, x, time).neighborsHistory| == |sm.neighborsHistory| + 1
  {
    NotedHistory(sm.extaddrHistory, time, time, extaddr);
    NotedHistory(sm.roleHistory, time, time, role);
  }

  // ================================================================ the manager

  /**
   * A dev board as the manager sees it: the node id it reports, the
   * position `get_otns_vis_position()` gives (None where it raises
   * ValueError) and the layout center used instead.
   */
  datatype Board = Board(name: string, nodeId: int, visPosition: Option<(int, int)>, layoutCenter: (int, int))

  /** The node `add_device` builds for a board, before it asks OTNS to create it. */
  function FreshNode(b: Board): NodeState
  {
    var pos := if b.visPosition.Some? then b.visPosition.value else b.layoutCenter;
    InitialNode(b.nodeId, pos.0, pos.1)
  }

  predicate Distinct<T(==)>(s: seq<T>)
  {
    forall i, j :: 0 <= i < j < |s| ==> s[i] != s[j]
  }

  /** `xs` lists the elements of `set`, each once, in some order. */
  ghost predicate Enumerates(xs: seq<int>, elems: set<int>)
  {
    Distinct(xs) && forall x :: x in xs <==> x in elems
  }

  /** The boards of `bs` but `b`, in order. */
  function Dropped(bs: seq<Board>, b: Board): (r: seq<Board>)
    ensures forall x :: x in r <==> x in bs && x != b
    ensures Distinct(bs) ==> Distinct(r)
  {
    if bs == [] then []
    else if bs[0] == b then Dropped(bs[1..], b)
    else
      var rest := Dropped(bs[1..], b);
      assert Distinct(bs) ==> Distinct(bs[1..]) && bs[0] !in rest;
      [bs[0]] + rest
  }

  /** The first of `boards` whose node has extended address `x`: the neighbor the loop of `update_status` finds. */
  function FirstWith(boards: seq<Board>, nodes: map<Board, NodeState>, x: int): (r: Option<Board>)
    requires forall b :: b in boards ==> b in nodes
    ensures r.Some? ==> r.value in boards && nodes[r.value].extaddr == x
    ensures r.None? <==> forall b :: b in boards ==> nodes[b].extaddr != x
  {
    if boards == [] then None
    else if nodes[boards[0]].extaddr == x then Some(boards[0])
    else FirstWith(boards[1..], nodes, x)
  }

  /** Board `b` is the first node with the address of one of `former`, so it loses the cleared node as a neighbor. */
  predicate LosesLink(boards: seq<Board>, nodes: map<Board, NodeState>, former: set<int>, b: Board)
    requires forall c :: c in boards ==> c in nodes
    requires b in nodes
  {
    nodes[b].extaddr in former && FirstWith(boards, nodes, nodes[b].extaddr) == Some(b)
  }

  function RouterRemovals(xs: seq<int>): (r: seq<StatusKind>)
    ensures |r| == |xs| && forall i :: 0 <= i < |xs| ==> r[i] == RouterRemovedStatus(xs[i])
  {
    seq(|xs|, i requires 0 <= i < |xs| => RouterRemovedStatus(xs[i]))
  }

  function ChildRemovals(xs: seq<int>): (r: seq<StatusKind>)
    ensures |r| == |xs| && forall i :: 0 <= i < |xs| ==> r[i] == ChildRemovedStatus(xs[i])
  {
    seq(|xs|, i requires 0 <= i < |xs| => ChildRemovedStatus(xs[i]))
  }

  /** What the regular expressions of `update_status` found in a `[OTNS]` status message. */
  datatype StatusMatches = StatusMatches(
    extaddr: Option<int>, role: Option<RoleType>,
    childAdded: Option<int>, childRemoved: Option<int>,
    routerAdded: Option<int>, routerRemoved: Option<int>,
    text: string)

  /** A wpantund log line: an `[OTNS]` status, an extended address read back, or anything else. */
  datatype LogLine = StatusLine(matches: StatusMatches) | ExtaddrResponse(extaddr: int) | OtherLine

  /** The first pattern that matched, in the order `update_status` tries them. */
  function Dispatch(m: StatusMatches): StatusKind
  {
    if m.extaddr.Some? then ExtaddrStatus(m.extaddr.value)
    else if m.role.Some? then RoleStatus(m.role.value)
    else if m.childAdded.Some? then ChildAddedStatus(m.childAdded.value)
    else if m.childRemoved.Some? then ChildRemovedStatus(m.childRemoved.value)
    else if m.routerAdded.Some? then RouterAddedStatus(m.routerAdded.value)
    else if m.routerRemoved.Some? then RouterRemovedStatus(m.routerRemoved.value)
    else OtherStatus(m.text)
  }

  /** What a status does to the node, before the clean-up of a DISABLED or DETACHED role. */
  function Applied(k: StatusKind, s: NodeState): NodeState
  {
    match k
    case ExtaddrStatus(x) => UpdatedExtaddr(s, x)
    case RoleStatus(role) => UpdatedRole(s, role)
    case ChildAddedStatus(c) => ChildAdded(s, c)
    case ChildRemovedStatus(c) => ChildRemoved(s, c)
    case RouterAddedStatus(x) => RouterAdded(s, x)
    case RouterRemovedStatus(x) => RouterRemoved(s, x)
    case OtherStatus(_) => s.(sent := s.sent + [k])
  }

  /** What a status adds to the node's summary. */
  function NoteStatus(k: StatusKind, sm: Summary, time: int): Summary
  {
    match k
    case ExtaddrStatus(x) => NoteExtaddr(sm, x, time)
    case RoleStatus(role) => NoteRole(sm, role, time)
    case ChildAddedStatus(c) => NoteChild(sm, true, c, time)
    case ChildRemovedStatus(c) => NoteChild(sm, false, c, time)
    case RouterAddedStatus(x) => NoteNeighbor(sm, true, x, time)
    case RouterRemovedStatus(x) => NoteNeighbor(sm, false, x, time)
    case OtherStatus(_) => sm
  }

  predicate Clears(role: RoleType)
  {
    role == Disabled || role == Detached
  }

  /** The map's keys are the boards, once each, and every node has a summary. */
  ghost predicate Tracked(boards: seq<Board>, nodes: map<Board, NodeState>, summaries: map<int, Summary>)
  {
    && Distinct(boards)
    && nodes.Keys == (set b | b in boards)
    && (forall b :: b in nodes ==> nodes[b].nodeId in summaries)
  }

  lemma TrackedAdd(boards: seq<Board>, nodes: map<Board, NodeState>, summaries: map<int, Summary>, b: Board, s: NodeState, sm: Summary)
    requires Tracked(boards, nodes, summaries) && b !in nodes && s.nodeId == b.nodeId
    ensures Tracked(boards + [b], nodes[b := s], summaries[b.nodeId := sm])
  {
  }

  lemma TrackedUpdate(boards: seq<Board>, nodes: map<Board, NodeState>, summaries: map<int, Summary>, b: Board, s: NodeState)
    requires Tracked(boards, nodes, summaries) && b in nodes && s.nodeId == nodes[b].nodeId
    ensures Tracked(boards, nodes[b := s], summaries)
  {
  }

  lemma TrackedNote(boards: seq<Board>, nodes: map<Board, NodeState>, summaries: map<int, Summary>, id: int, sm: Summary)
    requires Tracked(boards, nodes, summaries)
    ensures Tracked(boards, nodes, summaries[id := sm])
  {
  }

  lemma TrackedRemove(boards: seq<Board>, nodes: map<Board, NodeState>, summaries: map<int, Summary>, b: Board)
    requires Tracked(boards, nodes, summaries)
    ensures Tracked(Dropped(boards, b), nodes - {b}, summaries)
  {
  }

  /** A set with no element is empty. */
  lemma NoElement(s: set<int>)
    ensures (forall x :: x !in s) ==> s == {}
  {
    if forall x :: x !in s {
      assert forall x :: x in s <==> x in {};
    }
  }

  /** The search of `update_status` for the first managed node with address `x`. */
  method FindFirstWith(boards: seq<Board>, nodes: map<Board, NodeState>, x: int) returns (f: Option<Board>)
    requires forall b :: b in boards ==> b in nodes
    ensures f == FirstWith(boards, nodes, x)
  {
    var i := 0;
    while i < |boards|
      invariant 0 <= i <= |boards|
      invariant FirstWith(boards, nodes, x) == FirstWith(boards[i..], nodes, x)
    {
      if nodes[boards[i]].extaddr == x {
        return Some(boards[i]);
      }
      assert boards[i..][1..] == boards[i + 1..];
      i := i + 1;
    }
    return None;
  }

  /** The same boards with the same addresses. */
  ghost predicate SameAddresses(m: map<Board, NodeState>, n: map<Board, NodeState>)
  {
    m.Keys == n.Keys && forall b :: b in m ==> n[b].extaddr == m[b].extaddr && n[b].nodeId == m[b].nodeId
  }

  /** The search only looks at addresses. */
  lemma {:induction false} FirstWithSameAddresses(boards: seq<Board>, m: map<Board, NodeState>, n: map<Board, NodeState>, x: int)
    requires forall b :: b in boards ==> b in m
    requires SameAddresses(m, n)
    ensures FirstWith(boards, m, x) == FirstWith(boards, n, x)
  {
    if boards != [] {
      FirstWithSameAddresses(boards[1..], m, n, x);
    }
  }

  lemma TrackedSameIds(boards: seq<Board>, nodes: map<Board, NodeState>, next: map<Board, NodeState>, summaries: map<int, Summary>)
    requires Tracked(boards, nodes, summaries) && SameAddresses(nodes, next)
    ensures Tracked(boards, next, summaries)
  {
  }

  /**
   * The neighbor half of the clean-up: each former neighbor `x` of the
   * node, in the order the set yields them, leaves the node, and the first
   * managed node whose address is `x` drops the node's address.
   */
  method UnlinkNeighbors(boards: seq<Board>, nodes: map<Board, NodeState>, board: Board)
    returns (result: map<Board, NodeState>, order: seq<int>)
    requires forall b :: b in boards ==> b in nodes
    requires board in nodes
    ensures SameAddresses(nodes, result)
    ensures Enumerates(order, nodes[board].neighbors)
    ensures result[board] == nodes[board].(neighbors := {}, sent := nodes[board].sent + RouterRemovals(order))
    ensures forall b :: b in nodes && b != board ==>
      result[b] == if LosesLink(boards, nodes, nodes[board].neighbors, b)
                   then RouterRemoved(nodes[b], nodes[board].extaddr) else nodes[b]
  {
    var e := nodes[board].extaddr;
    var rest := nodes[board].neighbors;
    result := nodes;
    order := [];
    while rest != {}
      invariant Unlinking(boards, nodes, board, rest, order, result)
      decreases |rest|
    {
      NoElement(rest);
      var x :| x in rest;
      UnlinkStepKeeps(boards, nodes, board, rest, order, result, x);
      var r1 := result[board := RouterRemoved(result[board], x)];
      FirstWithSameAddresses(boards, nodes, r1, x);
      var f := FindFirstWith(boards, r1, x);
      result := if f.Some? then r1[f.value := RouterRemoved(r1[f.value], e)] else r1;
      order := order + [x];
      rest := rest - {x};
    }
  }

  /** The loop invariant of `UnlinkNeighbors`: the neighbors in `order` are done, those in `rest` are left. */
  ghost predicate Unlinking(boards: seq<Board>, nodes: map<Board, NodeState>, board: Board,
                            rest: set<int>, order: seq<int>, result: map<Board, NodeState>)
    requires forall b :: b in boards ==> b in nodes
    requires board in nodes
  {
    var s := nodes[board];
    && Splits(s.neighbors, rest, order)
    && SameAddresses(nodes, result)
    && result[board] == s.(neighbors := rest, sent := s.sent + RouterRemovals(order))
    && OthersUnlinked(boards, nodes, board, order, result)
  }

  /** `order` lists, once each, the elements of `all` that are not in `rest`. */
  ghost predicate Splits(all: set<int>, rest: set<int>, order: seq<int>)
  {
    rest <= all && Distinct(order) && forall x :: x in order <==> x in all && x !in rest
  }

  /** Each other node has dropped the node's address when it is the first with an address in `order`. */
  ghost predicate OthersUnlinked(boards: seq<Board>, nodes: map<Board, NodeState>, board: Board,
                                 order: seq<int>, result: map<Board, NodeState>)
    requires forall b :: b in boards ==> b in nodes
    requires board in nodes && nodes.Keys <= result.Keys
  {
    forall b :: b in nodes && b != board ==>
      result[b] == if nodes[b].extaddr in order && FirstWith(boards, nodes, nodes[b].extaddr) == Some(b)
                   then RouterRemoved(nodes[b], nodes[board].extaddr) else nodes[b]
  }

  /** One turn of the loop: neighbor `x` leaves the node and the node leaves the first node with address `x`. */
  function UnlinkStep(boards: seq<Board>, nodes: map<Board, NodeState>, board: Board, x: int, result: map<Board, NodeState>): map<Board, NodeState>
    requires forall b :: b in boards ==> b in nodes
    requires forall b :: b in nodes ==> b in result
    requires board in nodes
  {
    var r1 := result[board := RouterRemoved(result[board], x)];
    var f := FirstWith(boards, nodes, x);
    if f.Some? then r1[f.value := RouterRemoved(r1[f.value], nodes[board].extaddr)] else r1
  }

  lemma SplitsStep(all: set<int>, rest: set<int>, order: seq<int>, x: int)
    requires Splits(all, rest, order) && x in rest
    ensures Splits(all, rest - {x}, order + [x])
  {
  }

  lemma UnlinkStepKeeps(boards: seq<Board>, nodes: map<Board, NodeState>, board: Board,
                        rest: set<int>, order: seq<int>, result: map<Board, NodeState>, x: int)
    requires forall b :: b in boards ==> b in nodes
    requires board in nodes
    requires Unlinking(boards, nodes, board, rest, order, result) && x in rest
    ensures Unlinking(boards, nodes, board, rest - {x}, order + [x], UnlinkStep(boards, nodes, board, x, result))
  {
    var s := nodes[board];
    SplitsStep(s.neighbors, rest, order, x);
    UnlinkStepBoard(boards, nodes, board, rest, order, result, x);
    UnlinkStepOthers(boards, nodes, board, rest, order, result, x);
  }

  lemma UnlinkStepBoard(boards: seq<Board>, nodes: map<Board, NodeState>, board: Board,
                        rest: set<int>, order: seq<int>, result: map<Board, NodeState>, x: int)
    requires forall b :: b in boards ==> b in nodes
    requires board in nodes
    requires Unlinking(boards, nodes, board, rest, order, result) && x in rest
    ensures var s, next := nodes[board], UnlinkStep(boards, nodes, board, x, result);
      && SameAddresses(nodes, next)
      && next[board] == s.(neighbors := rest - {x}, sent := s.sent + RouterRemovals(order + [x]))
  {
    var s := nodes[board];
    assert SameAddresses(nodes, result) && result[board] == s.(neighbors := rest, sent := s.sent + RouterRemovals(order));
    UnlinkStepBoardFrom(boards, nodes, board, rest, order, result, x);
  }

  /** `UnlinkStepBoard` from the two facts about `result` it needs. */
  lemma UnlinkStepBoardFrom(boards: seq<Board>, nodes: map<Board, NodeState>, board: Board,
                            rest: set<int>, order: seq<int>, result: map<Board, NodeState>, x: int)
    requires forall b :: b in boards ==> b in nodes
    requires board in nodes && x in rest && SameAddresses(nodes, result)
    requires result[board] == nodes[board].(neighbors := rest, sent := nodes[board].sent + RouterRemovals(order))
    ensures var s, next := nodes[board], UnlinkStep(boards, nodes, board, x, result);
      && SameAddresses(nodes, next)
      && next[board] == s.(neighbors := rest - {x}, sent := s.sent + RouterRemovals(order + [x]))
  {
    var s := nodes[board];
    var t := s.(neighbors := rest - {x}, sent := s.sent + RouterRemovals(order + [x]));
    RemovedFromRest(s, rest, order, x);
    var r1 := result[board := RouterRemoved(result[board], x)];
    RemovedSameAddresses(nodes, result, board, x);
    var f := FirstWith(boards, nodes, x);
    if f == Some(board) {
      assert s.extaddr == x && x !in t.neighbors;
      assert RouterRemoved(t, s.extaddr) == t;
    }
  }

  /** Removing a neighbor still to go moves it from the rest to the removals sent. */
  lemma RemovedFromRest(s: NodeState, rest: set<int>, order: seq<int>, x: int)
    requires x in rest
    ensures RouterRemoved(s.(neighbors := rest, sent := s.sent + RouterRemovals(order)), x)
      == s.(neighbors := rest - {x}, sent := s.sent + RouterRemovals(order + [x]))
  {
    RouterRemovalsSnoc(order, x);
  }

  /** Removing a neighbor of one node keeps every node's address and id. */
  lemma RemovedSameAddresses(nodes: map<Board, NodeState>, result: map<Board, NodeState>, b: Board, x: int)
    requires SameAddresses(nodes, result) && b in result
    ensures SameAddresses(nodes, result[b := RouterRemoved(result[b], x)])
  {
  }

  lemma RouterRemovalsSnoc(order: seq<int>, x: int)
    ensures RouterRemovals(order + [x]) == RouterRemovals(order) + [RouterRemovedStatus(x)]
  {
  }

  lemma UnlinkStepOthers(boards: seq<Board>, nodes: map<Board, NodeState>, board: Board,
                         rest: set<int>, order: seq<int>, result: map<Board, NodeState>, x: int)
    requires forall b :: b in boards ==> b in nodes
    requires board in nodes
    requires Unlinking(boards, nodes, board, rest, order, result) && x in rest
    ensures OthersUnlinked(boards, nodes, board, order + [x], UnlinkStep(boards, nodes, board, x, result))
  {
    var next := UnlinkStep(boards, nodes, board, x, result);
    forall b | b in nodes && b != board
      ensures next[b] == if nodes[b].extaddr in order + [x] && FirstWith(boards, nodes, nodes[b].extaddr) == Some(b)
                         then RouterRemoved(nodes[b], nodes[board].extaddr) else nodes[b]
    {
      if nodes[b].extaddr == x && FirstWith(boards, nodes, x) == Some(b) {
        assert x !in order;
      }
    }
  }

  /** The child half of the clean-up: each child, in the order the set yields them, leaves the node. */
  method UnlinkChildren(s: NodeState) returns (t: NodeState, order: seq<int>)
    ensures Enumerates(order, s.children)
    ensures t == s.(children := {}, sent := s.sent + ChildRemovals(order))
  {
    var rest := s.children;
    t := s;
    order := [];
    while rest != {}
      invariant rest <= s.children
      invariant Distinct(order) && forall x :: x in order <==> x in s.children && x !in rest
      invariant t == s.(children := rest, sent := s.sent + ChildRemovals(order))
      decreases |rest|
    {
      NoElement(rest);
      var c :| c in rest;
      t := ChildRemoved(t, c);
      order := order + [c];
      rest := rest - {c};
    }
  }

  /** The clean-up of a node whose role became DISABLED or DETACHED, with the orders the sets yielded. */
  method UnlinkAll(boards: seq<Board>, nodes: map<Board, NodeState>, board: Board)
    returns (result: map<Board, NodeState>, routerOrder: seq<int>, childOrder: seq<int>)
    requires forall b :: b in boards ==> b in nodes
    requires board in nodes
    ensures SameAddresses(nodes, result)
    ensures Enumerates(routerOrder, nodes[board].neighbors) && Enumerates(childOrder, nodes[board].children)
    ensures var s := nodes[board];
      result[board] == s.(neighbors := {}, children := {}, sent := s.sent + RouterRemovals(routerOrder) + ChildRemovals(childOrder))
    ensures forall b :: b in nodes && b != board ==>
      result[b] == if LosesLink(boards, nodes, nodes[board].neighbors, b)
                   then RouterRemoved(nodes[b], nodes[board].extaddr) else nodes[b]
  {
    result, routerOrder := UnlinkNeighbors(boards, nodes, board);
    var t;
    t, childOrder := UnlinkChildren(result[board]);
    result := result[board := t];
  }

  /**
   * The node map after a status `k` on `board`: `k` applied to the node,
   * and for a DISABLED or DETACHED role the node has no children and no
   * neighbors left, and every node that was first with the address of one
   * of its neighbors has dropped the node's address.
   */
  ghost predicate Cleared(boards: seq<Board>, before: map<Board, NodeState>, board: Board, k: StatusKind, after: map<Board, NodeState>)
    requires forall b :: b in boards ==> b in before
    requires board in before
  {
    var s := Applied(k, before[board]);
    if k.RoleStatus? && Clears(k.role) then
      && after.Keys == before.Keys
      && (exists routerOrder, childOrder ::
            && Enumerates(routerOrder, s.neighbors) && Enumerates(childOrder, s.children)
            && after[board] == s.(neighbors := {}, children := {},
                                  sent := s.sent + RouterRemovals(routerOrder) + ChildRemovals(childOrder)))
      && (forall b :: b in before && b != board ==>
            after[b] == if LosesLink(boards, before, s.neighbors, b) then RouterRemoved(before[b], s.extaddr) else before[b])
    else
      after == before[board := s]
  }

  /**
   * A status other than a plain message, on a tracked node: applied to the
   * node, noted in its summary, and for a DISABLED or DETACHED role the
   * links cleared.
   */
  method ApplyStatus(boards: seq<Board>, nodes: map<Board, NodeState>, summaries: map<int, Summary>,
                     board: Board, k: StatusKind, time: int)
    returns (after: map<Board, NodeState>, noted: map<int, Summary>)
    requires Tracked(boards, nodes, summaries) && board in nodes && !k.OtherStatus?
    ensures Tracked(boards, after, noted)
    ensures noted == summaries[nodes[board].nodeId := NoteStatus(k, summaries[nodes[board].nodeId], time)]
    ensures Cleared(boards, nodes, board, k, after)
  {
    var id := nodes[board].nodeId;
    noted := summaries[id := NoteStatus(k, summaries[id], time)];
    after := nodes[board := Applied(k, nodes[board])];
    TrackedUpdate(boards, nodes, summaries, board, Applied(k, nodes[board]));
    TrackedNote(boards, after, summaries, id, NoteStatus(k, summaries[id], time));
    if k.RoleStatus? && Clears(k.role) {
      var ns := after;
      var routerOrder, childOrder;
      after, routerOrder, childOrder := UnlinkAll(boards, ns, board);
      TrackedSameIds(boards, ns, after, noted);
      ClearedOthers(boards, nodes, board, Applied(k, nodes[board]));
    }
  }

  /** A status that keeps the node's address does not change which node is first with an address. */
  lemma ClearedOthers(boards: seq<Board>, nodes: map<Board, NodeState>, board: Board, s: NodeState)
    requires forall b :: b in boards ==> b in nodes
    requires board in nodes && s.extaddr == nodes[board].extaddr && s.nodeId == nodes[board].nodeId
    ensures forall b :: b in nodes && b != board ==>
      (LosesLink(boards, nodes[board := s], s.neighbors, b) <==> LosesLink(boards, nodes, s.neighbors, b))
  {
    forall b | b in nodes && b != board
      ensures LosesLink(boards, nodes[board := s], s.neighbors, b) <==> LosesLink(boards, nodes, s.neighbors, b)
    {
      FirstWithSameAddresses(boards, nodes, nodes[board := s], nodes[b].extaddr);
    }
  }

  /**
   * The state of an `OtnsManager`: the node map as the boards in insertion
   * order and a map from each board to the state of its node, the boards
   * whose `otns_manager` attribute is this manager, the summaries by node
   * id, whether the layout is automatic, and the largest node count seen.
   */
  datatype ManagerState = ManagerState(
    boards: seq<Board>, nodes: map<Board, NodeState>, attached: set<Board>,
    summaries: map<int, Summary>, autoLayout: bool, maxNodeCount: nat)

  ghost predicate ManagerValid(m: ManagerState)
  {
    Tracked(m.boards, m.nodes, m.summaries)
  }

  /**
   * `add_node`: a new board gets a node, created on OTNS, and a fresh
   * summary; a known board only has its node created again. Either way
   * the board is attached and the count becomes the larger of the old
   * count and the map's size.
   */
  function NodeAdded(m: ManagerState, board: Board): (r: ManagerState)
    ensures board in r.attached && board in r.nodes && r.nodes[board].onOtns
    ensures r.maxNodeCount >= m.maxNodeCount && r.maxNodeCount >= |r.nodes|
  {
    if board in m.nodes then
      var nodes := m.nodes[board := Created(m.nodes[board])];
      m.(nodes := nodes, attached := m.attached + {board},
         maxNodeCount := if m.maxNodeCount >= |nodes| then m.maxNodeCount else |nodes|)
    else
      var nodes := m.nodes[board := Created(FreshNode(board))];
      ManagerState(m.boards + [board], nodes, m.attached + {board},
                   m.summaries[board.nodeId := NewSummary(board.nodeId)],
                   m.autoLayout || board.visPosition.None?,
                   if m.maxNodeCount >= |nodes| then m.maxNodeCount else |nodes|)
  }

  /** The OTNS requests `add_node` makes. */
  function AddCalls(m: ManagerState, board: Board): seq<GrpcCall>
  {
    CreateCalls(if board in m.nodes then m.nodes[board] else FreshNode(board))
  }

  /**
   * `remove_node`: only a board attached to this manager is detached, and
   * its node, when there is one, leaves the map. Summaries and the count
   * stay.
   */
  function NodeRemoved(m: ManagerState, board: Board): (r: ManagerState)
    ensures board in m.attached ==> board !in r.attached && board !in r.nodes
    ensures r.summaries == m.summaries && r.maxNodeCount == m.maxNodeCount
  {
    if board !in m.attached then m
    else if board !in m.nodes then m.(attached := m.attached - {board})
    else m.(attached := m.attached - {board}, nodes := m.nodes - {board}, boards := Dropped(m.boards, board))
  }

  /** The OTNS request `remove_node` makes: the node is deleted when it was on OTNS. */
  function RemoveCalls(m: ManagerState, board: Board): seq<GrpcCall>
  {
    if board in m.attached && board in m.nodes then DeleteCalls(m.nodes[board]) else []
  }

  /** `OtnsManager.update_extaddr`: the board's node and, when present, its summary. */
  function ExtaddrUpdated(m: ManagerState, board: Board, extaddr: int, time: int): (r: ManagerState)
    ensures board in m.nodes ==> board in r.nodes && r.nodes[board].extaddr == extaddr
    ensures r.boards == m.boards && r.nodes.Keys == m.nodes.Keys
  {
    if board !in m.nodes then m
    else
      var id := m.nodes[board].nodeId;
      m.(nodes := m.nodes[board := UpdatedExtaddr(m.nodes[board], extaddr)],
         summaries := if id in m.summaries then m.summaries[id := NoteExtaddr(m.summaries[id], extaddr, time)] else m.summaries)
  }

  /**
   * What forwarding an unrecognised `[OTNS]` message comes to: the message
   * must encode as ASCII, and its length must fit the two bytes of the
   * event header.
   */
  function Forwarded(text: string): (r: Result<()>)
    ensures r.Ok? <==> IsAscii(text) && |text| < 0x1_0000
    ensures r.Err? ==> r.error == if IsAscii(text) then StructError else UnicodeEncodeError
  {
    var event :- StatusEvent(text);
    var packet :- ToBytes(event);
    Ok(())
  }

  /**
   * `process_node_status(board, line, time)` took the manager from `m` to
   * `after` and returned `r`: nothing happens for an unknown board or a
   * line that is neither an `[OTNS]` status nor an extended address read
   * back; an address read back only updates the node; the first status
   * that matches is applied to the node and noted in its summary, with the
   * links cleared for a DISABLED or DETACHED role (`Cleared`); any other
   * `[OTNS]` message is forwarded as it is, or raises.
   */
  ghost predicate StatusProcessed(m: ManagerState, board: Board, line: LogLine, time: int, r: Result<()>, after: ManagerState)
    requires ManagerValid(m)
  {
    if board !in m.nodes || line.OtherLine? then r == Ok(()) && after == m
    else if line.ExtaddrResponse? then
      r == Ok(()) && after == m.(nodes := m.nodes[board := UpdatedExtaddr(m.nodes[board], line.extaddr)])
    else
      var k := Dispatch(line.matches);
      if k.OtherStatus? then
        && r == Forwarded(k.text)
        && after == if r.Ok? then m.(nodes := m.nodes[board := Applied(k, m.nodes[board])]) else m
      else
        var id := m.nodes[board].nodeId;
        && r == Ok(())
        && after == m.(nodes := after.nodes, summaries := m.summaries[id := NoteStatus(k, m.summaries[id], time)])
        && Cleared(m.boards, m.nodes, board, k, after.nodes)
  }

  /** An `OtnsManager`; `attached` holds the boards whose `otns_manager` attribute is this manager. */
  class OtnsManager {
    const client: GrpcClient
    var boards: seq<Board>
    var nodes: map<Board, NodeState>
    var attached: set<Board>
    var summaries: map<int, Summary>
    var autoLayout: bool
    var maxNodeCount: nat

    function State(): ManagerState
      reads this
    {
      ManagerState(boards, nodes, attached, summaries, autoLayout, maxNodeCount)
    }

    ghost predicate Valid()
      reads this
    {
      ManagerValid(State())
    }

    constructor(client: GrpcClient)
      ensures Valid() && this.client == client
      ensures State() == ManagerState([], map[], {}, map[], false, 0)
    {
      this.client := client;
      boards := [];
      nodes := map[];
      attached := {};
      summaries := map[];
      autoLayout := false;
      maxNodeCount := 0;
    }

    method AddNode(board: Board)
      requires Valid()
      requires board !in nodes ==> board.nodeId > 0
      modifies this, client
      ensures State() == NodeAdded(old(State()), board)
      ensures client.calls == old(client.calls) + AddCalls(old(State()), board)
      ensures Valid()
    {
      var m := State();
      var r := NodeAdded(m, board);
      assert ManagerValid(r) by {
        AddedValid(m, board);
      }
      client.calls := client.calls + AddCalls(m, board);
      boards, nodes, attached, summaries, autoLayout, maxNodeCount :=
        r.boards, r.nodes, r.attached, r.summaries, r.autoLayout, r.maxNodeCount;
    }

    method RemoveNode(board: Board)
      requires Valid()
      modifies this, client
      ensures Valid()
      ensures State() == NodeRemoved(old(State()), board)
      ensures client.calls == old(client.calls) + RemoveCalls(old(State()), board)
    {
      RemovedValid(State(), board);
      if board in attached {
        attached := attached - {board};
        if board in nodes {
          client.calls := client.calls + DeleteCalls(nodes[board]);
          nodes := nodes - {board};
          boards := Dropped(boards, board);
        }
      }
    }

    method ProcessNodeStatus(board: Board, line: LogLine, time: int) returns (r: Result<()>)
      requires Valid()
      modifies this
      ensures Valid()
      ensures StatusProcessed(old(State()), board, line, time, r, State())
    {
      if board !in nodes {
        return Ok(());
      }
      match line
      case OtherLine =>
        return Ok(());
      case ExtaddrResponse(x) =>
        TrackedUpdate(boards, nodes, summaries, board, UpdatedExtaddr(nodes[board], x));
        nodes := nodes[board := UpdatedExtaddr(nodes[board], x)];
        return Ok(());
      case StatusLine(m) =>
        r := ProcessStatusLine(board, m, time);
    }

    /** The status-line branch of `process_node_status` for a board the manager knows. */
    method ProcessStatusLine(board: Board, m: StatusMatches, time: int) returns (r: Result<()>)
      requires Valid() && board in nodes
      modifies this
      ensures Valid()
      ensures StatusProcessed(old(State()), board, StatusLine(m), time, r, State())
    {
      var k := Dispatch(m);
      if k.OtherStatus? {
        r := ForwardStatus(board, k);
        return;
      }
      nodes, summaries := ApplyStatus(boards, nodes, summaries, board, k, time);
      return Ok(());
    }

    /** A status the manager does not read itself is sent on to OTNS as an event; the node notes it once sent. */
    method ForwardStatus(board: Board, k: StatusKind) returns (r: Result<()>)
      requires Valid() && board in nodes && k.OtherStatus?
      modifies this
      ensures Valid() && r == Forwarded(k.text)
      ensures State() == if r.Ok? then old(State()).(nodes := old(nodes)[board := Applied(k, old(nodes)[board])]) else old(State())
    {
      var event := StatusEvent(k.text);
      if event.Err? {
        return Err(event.error);
      }
      var packet := ToBytes(event.value);
      if packet.Err? {
        return Err(packet.error);
      }
      TrackedUpdate(boards, nodes, summaries, board, Applied(k, nodes[board]));
      nodes := nodes[board := Applied(k, nodes[board])];
      return Ok(());
    }

    method UpdateExtaddr(board: Board, extaddr: int, time: int)
      requires Valid()
      modifies this
      ensures Valid()
      ensures State() == ExtaddrUpdated(old(State()), board, extaddr, time)
    {
      ExtaddrUpdatedValid(State(), board, extaddr, time);
      if board in nodes {
        nodes := nodes[board := UpdatedExtaddr(nodes[board], extaddr)];
        var id := nodes[board].nodeId;
        if id in summaries {
          summaries := summaries[id := NoteExtaddr(summaries[id], extaddr, time)];
        }
      }
    }
  }

  // ------------------------------------------------------------ manager lemmas

  lemma AddedValid(m: ManagerState, board: Board)
    requires ManagerValid(m)
    ensures ManagerValid(NodeAdded(m, board))
  {
    if board in m.nodes {
      TrackedUpdate(m.boards, m.nodes, m.summaries, board, Created(m.nodes[board]));
    } else {
      TrackedAdd(m.boards, m.nodes, m.summaries, board, Created(FreshNode(board)), NewSummary(board.nodeId));
    }
  }

  lemma RemovedValid(m: ManagerState, board: Board)
    requires ManagerValid(m)
    ensures ManagerValid(NodeRemoved(m, board))
  {
    if board in m.attached && board in m.nodes {
      TrackedRemove(m.boards, m.nodes, m.summaries, board);
    }
  }

  lemma ExtaddrUpdatedValid(m: ManagerState, board: Board, extaddr: int, time: int)
    requires ManagerValid(m)
    ensures ManagerValid(ExtaddrUpdated(m, board, extaddr, time))
  {
    if board in m.nodes {
      var n := ExtaddrUpdated(m, board, extaddr, time);
      TrackedUpdate(m.boards, m.nodes, m.summaries, board, UpdatedExtaddr(m.nodes[board], extaddr));
      TrackedNote(m.boards, n.nodes, m.summaries, m.nodes[board].nodeId, n.summaries[m.nodes[board].nodeId]);
    }
  }

  /** Adding a board twice is adding it once: the second call changes nothing and asks OTNS for nothing. */
  lemma AddTwice(m: ManagerState, board: Board)
    ensures NodeAdded(NodeAdded(m, board), board) == NodeAdded(m, board)
    ensures AddCalls(NodeAdded(m, board), board) == []
  {
    var n := NodeAdded(m, board);
    assert n.nodes[board := Created(n.nodes[board])] == n.nodes;
  }

  lemma {:induction false} DroppedAppend(bs: seq<Board>, b: Board)
    requires b !in bs
    ensures Dropped(bs + [b], b) == bs
  {
    if bs != [] {
      assert (bs + [b])[1..] == bs[1..] + [b];
      DroppedAppend(bs[1..], b);
    }
  }

  /**
   * A new board added and then removed leaves the node map as it was, and
   * OTNS saw the node created and deleted; the summary the board got stays.
   */
  lemma AddThenRemove(m: ManagerState, board: Board)
    requires ManagerValid(m) && board !in m.nodes
    ensures var r := NodeRemoved(NodeAdded(m, board), board);
      && r.boards == m.boards && r.nodes == m.nodes && r.attached == m.attached - {board}
      && r.summaries == m.summaries[board.nodeId := NewSummary(board.nodeId)]
    ensures var n := FreshNode(board);
      AddCalls(m, board) + RemoveCalls(NodeAdded(m, board), board) == [AddNode(n.visX, n.visY, board.nodeId), DeleteNode(board.nodeId)]
  {
    AddThenRemoveState(m, board);
    AddThenRemoveCalls(m, board);
  }

  /** The state half of `AddThenRemove`. */
  lemma AddThenRemoveState(m: ManagerState, board: Board)
    requires ManagerValid(m) && board !in m.nodes
    ensures var r := NodeRemoved(NodeAdded(m, board), board);
      && r.boards == m.boards && r.nodes == m.nodes && r.attached == m.attached - {board}
      && r.summaries == m.summaries[board.nodeId := NewSummary(board.nodeId)]
  {
    var n := NodeAdded(m, board);
    assert n.boards == m.boards + [board] && n.nodes == m.nodes[board := Created(FreshNode(board))];
    assert board in n.attached && board in n.nodes;
    DroppedAppend(m.boards, board);
    assert n.nodes - {board} == m.nodes;
  }

  /** The calls half of `AddThenRemove`. */
  lemma AddThenRemoveCalls(m: ManagerState, board: Board)
    requires board !in m.nodes
    ensures var n := FreshNode(board);
      AddCalls(m, board) + RemoveCalls(NodeAdded(m, board), board) == [AddNode(n.visX, n.visY, board.nodeId), DeleteNode(board.nodeId)]
  {
    var n := NodeAdded(m, board);
    assert n.nodes[board] == Created(FreshNode(board));
  }

  /** Reporting the same address again, at any later time, changes nothing. */
  lemma ExtaddrUpdatedTwice(m: ManagerState, board: Board, extaddr: int, time: int, later: int)
    ensures ExtaddrUpdated(ExtaddrUpdated(m, board, extaddr, time), board, extaddr, later) == ExtaddrUpdated(m, board, extaddr, time)
  {
    if board in m.nodes {
      var n := ExtaddrUpdated(m, board, extaddr, time);
      var id := m.nodes[board].nodeId;
      assert n.nodes[board := UpdatedExtaddr(n.nodes[board], extaddr)] == n.nodes;
      if id in m.summaries {
        assert n.summaries[id := NoteExtaddr(n.summaries[id], extaddr, later)] == n.summaries;
      }
    }
  }

  /** An `extaddr=` status on a managed board does what `update_extaddr` does. */
  lemma ExtaddrStatusIsUpdate(m: ManagerState, board: Board, sm: StatusMatches, time: int, r: Result<()>, after: ManagerState)
    requires ManagerValid(m) && board in m.nodes && sm.extaddr.Some?
    requires StatusProcessed(m, board, StatusLine(sm), time, r, after)
    ensures r == Ok(()) && after == ExtaddrUpdated(m, board, sm.extaddr.value, time)
  {
  }

  /** A list that enumerates a set is as long as the set has elements. */
  lemma {:induction false} EnumeratesSize(xs: seq<int>, elems: set<int>)
    requires Enumerates(xs, elems)
    ensures |xs| == |elems|
  {
    if xs == [] {
      NoElement(elems);
    } else {
      var x0, rest := xs[0], xs[1..];
      assert x0 in xs;
      assert x0 in elems;
      assert Enumerates(rest, elems - {x0}) by {
        forall x ensures x in rest <==> x in elems - {x0} {
          if x in rest {
            var i :| 0 <= i < |rest| && rest[i] == x;
            assert xs[i + 1] == x;
          }
          if x in xs && x != x0 {
            var i :| 0 <= i < |xs| && xs[i] == x;
            assert rest[i - 1] == x;
          }
        }
      }
      EnumeratesSize(rest, elems - {x0});
      assert forall y :: y in elems <==> y in (elems - {x0}) + {x0};
      assert elems == (elems - {x0}) + {x0};
    }
  }

  /**
   * A DISABLED or DETACHED role leaves the node with no children and no
   * neighbors, and its log gains the role and then one removal per former
   * neighbor and child.
   */
  lemma ClearedNodeIsolated(m: ManagerState, board: Board, sm: StatusMatches, time: int, r: Result<()>, after: ManagerState)
    requires ManagerValid(m) && board in m.nodes
    requires Dispatch(sm).RoleStatus? && Clears(Dispatch(sm).role)
    requires StatusProcessed(m, board, StatusLine(sm), time, r, after)
    ensures var s, t := m.nodes[board], after.nodes[board];
      && r == Ok(()) && t.role == Dispatch(sm).role && t.children == {} && t.neighbors == {}
      && |t.sent| == |s.sent| + (if s.role == t.role then 0 else 1) + |s.neighbors| + |s.children|
      && t.sent[..|s.sent|] == s.sent
  {
    var s := m.nodes[board];
    var a := Applied(Dispatch(sm), s);
    var routerOrder, childOrder :| && Enumerates(routerOrder, a.neighbors) && Enumerates(childOrder, a.children)
            && after.nodes[board] == a.(neighbors := {}, children := {},
                                        sent := a.sent + RouterRemovals(routerOrder) + ChildRemovals(childOrder));
    EnumeratesSize(routerOrder, a.neighbors);
    EnumeratesSize(childOrder, a.children);
  }

  /** `update_status` tries the patterns in a fixed order: an extended address wins over everything. */
  lemma DispatchOrder(m: StatusMatches)
    ensures m.extaddr.Some? ==> Dispatch(m) == ExtaddrStatus(m.extaddr.value)
    ensures m.extaddr.None? && m.role.Some? ==> Dispatch(m) == RoleStatus(m.role.value)
    ensures Dispatch(m).OtherStatus? <==>
      m.extaddr.None? && m.role.None? && m.childAdded.None? && m.childRemoved.None? && m.routerAdded.None? && m.routerRemoved.None?
    ensures Dispatch(m).ChildAddedStatus? ==> m.extaddr.None? && m.role.None?
    ensures Dispatch(m).RouterRemovedStatus? ==> m.extaddr.None? && m.role.None? && m.childAdded.None? && m.childRemoved.None? && m.routerAdded.None?
  {
  }
}
