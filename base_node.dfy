/**
 * The node base class (silk/node/base_node.py, and src/node/base_node.py,
 * which behaves the same): a one-slot error mailbox and a keyed data store
 * whose string values are stripped and whose watchable entries are updated
 * through their own `set` instead of being replaced.
 */
module Nodes {
  import opened PyCore
  import opened PyInt
  import opened Watchables

  const Ping6SentLabel := "ping6_sent"
  const Ping6ReceivedLabel := "ping6_received"
  const Ping6ResultsLabel := "ping6_results"

  /** The `to_type` argument of `get_data`: none, `'hex-int'` or `int`. */
  datatype Convert = AsIs | HexInt | ToInt

  // ---------------------------------------------------------------- error slot

  /** `queue.Queue(1).put_nowait(msg)`, the Full exception swallowed: a pending message stays. */
  function Posted(slot: Option<string>, msg: string): Option<string>
  {
    if slot.None? then Some(msg) else slot
  }

  /** Posting keeps the first message: a slot that held one is unchanged, an empty one takes `msg`. */
  lemma PostKeepsFirst(slot: Option<string>, first: string, second: string)
    ensures Posted(Posted(slot, first), second) == Posted(slot, first)
    ensures Posted(slot, first) == (if slot.Some? then slot else Some(first))
  {
  }

  // ---------------------------------------------------------------- data store

  /** The value `store_data` keeps: a string stripped of surrounding whitespace, anything else as is. */
  function Stripped(v: Value): (r: Value)
    ensures v.Str? <==> r.Str?
    ensures !v.Str? ==> r == v
  {
    if v.Str? then Str(Strip(v.s)) else v
  }

  /** `store.get(field, default)`. */
  function Lookup(store: map<string, Value>, field: string, default: Value): Value
  {
    if field in store then store[field] else default
  }

  /**
   * The store after `store_data(value, field)`: unchanged when the field
   * holds a watchable (that watchable is `set` instead), else the field
   * holds the stripped value.
   */
  function StoreAfter(store: map<string, Value>, field: string, value: Value): (r: map<string, Value>)
    ensures field in r
    ensures r.Keys == store.Keys + {field}
    ensures forall f :: f in store && f != field ==> r[f] == store[f]
    ensures field in store && IsWatchable(store[field]) ==> r[field] == store[field]
    ensures !(field in store && IsWatchable(store[field])) ==> r[field] == Stripped(value)
  {
    if field in store && IsWatchable(store[field]) then store else store[field := Stripped(value)]
  }

  /** `int(v)`: strings are read in base 10, ints kept; other values raise TypeError. */
  function IntOf(v: Value): (r: Result<int>)
    ensures r.Err? ==> (r.error == ValueError <==> v.Str?)
    ensures v.Int? ==> r == Ok(v.i)
  {
    match v
    case Str(s) => ParseInt(s, 10)
    case Int(i) => Ok(i)
    case _ => Err(TypeError)
  }

  /** `int(v, 16)`: only a string may be given a base; anything else raises TypeError. */
  function HexIntOf(v: Value): (r: Result<int>)
    ensures r.Err? ==> (r.error == ValueError <==> v.Str?)
    ensures !v.Str? ==> r == Err(TypeError)
  {
    if v.Str? then ParseInt(v.s, 16) else Err(TypeError)
  }

  /** The `try: … except ValueError: value = default` around a conversion. */
  function Caught(r: Result<int>, default: Value): Value
    requires r.Ok? || r.error == ValueError
  {
    if r.Ok? then Int(r.value) else default
  }

  /**
   * `get_data(field, to_type, default)` as written: the default stands in
   * for an absent field and is then converted like a stored value; a
   * ValueError gives the default, a TypeError escapes.
   */
  function GetDataOf(store: map<string, Value>, field: string, to: Convert, default: Value): (r: Result<Value>)
    ensures to == AsIs ==> r == Ok(Lookup(store, field, default))
    ensures r.Err? ==> to != AsIs && r.error == TypeError
    ensures r.Ok? && to != AsIs ==> r.value.Int? || r.value == default
    ensures field !in store && to == ToInt && default.Int? ==> r == Ok(default)
  {
    var value := Lookup(store, field, default);
    match to
    case AsIs => Ok(value)
    case HexInt =>
      var n := HexIntOf(value);
      if n.Err? && n.error != ValueError then Err(n.error) else Ok(Caught(n, default))
    case ToInt =>
      var n := IntOf(value);
      if n.Err? && n.error != ValueError then Err(n.error) else Ok(Caught(n, default))
  }

  /**
   * `get_data` as evidently intended: an absent field gives `default`
   * itself, a stored value is converted as before.
   */
  function GetDataDefaulted(store: map<string, Value>, field: string, to: Convert, default: Value): (r: Result<Value>)
    ensures field !in store ==> r == Ok(default)
    ensures field in store ==> r == GetDataOf(store, field, to, default)
  {
    if field in store then GetDataOf(store, field, to, default) else Ok(default)
  }

  /**
   * The two readings agree wherever the source's works: on a stored field,
   * and on an absent one whose default converts to itself.
   */
  lemma GetDataAgrees(store: map<string, Value>, field: string, to: Convert, default: Value)
    requires field in store || to == AsIs || (to == ToInt && default.Int?)
    ensures GetDataDefaulted(store, field, to, default) == GetDataOf(store, field, to, default)
  {
  }

  /** An absent field read as `'hex-int'` with an integer default raises TypeError, as written. */
  lemma HexDefaultRaises(store: map<string, Value>, field: string, default: int)
    requires field !in store
    ensures GetDataOf(store, field, HexInt, Int(default)) == Err(TypeError)
    ensures GetDataDefaulted(store, field, HexInt, Int(default)) == Ok(Int(default))
  {
  }

  /** A stored string that does not parse gives the default. */
  lemma ValueErrorGivesDefault(store: map<string, Value>, field: string, to: Convert, default: Value)
    requires field in store && store[field].Str? && to != AsIs
    requires ParseInt(store[field].s, if to == HexInt then 16 else 10).Err?
    ensures GetDataOf(store, field, to, default) == Ok(default)
  {
  }

  /** A string ending in non-space characters on both sides is kept as is by `store_data`. */
  lemma StrippedKeeps(s: string)
    requires s != [] && !IsSpace(s[0]) && !IsSpace(s[|s| - 1])
    ensures Stripped(Str(s)) == Str(s)
  {
    StripDigits(s);
  }

  /** Storing a string and reading it back gives it stripped, whatever the field held unless a watchable. */
  lemma StoreThenGet(store: map<string, Value>, field: string, s: string, default: Value)
    requires !(field in store && IsWatchable(store[field]))
    ensures GetDataOf(StoreAfter(store, field, Str(s)), field, AsIs, default) == Ok(Str(Strip(s)))
  {
  }

  /** `int(str(n))` after a round trip through the store: a count stored as text reads back as the count. */
  lemma {:induction false} StoreCountThenGet(store: map<string, Value>, field: string, n: nat, default: Value)
    requires !(field in store && IsWatchable(store[field]))
    ensures GetDataOf(StoreAfter(store, field, Str(Dec(n))), field, ToInt, default) == Ok(Int(n))
  {
    var d := Dec(n);
    StrippedKeeps(d);
    ParseDecOfIntStr(n);
  }

  // ---------------------------------------------------------------- ping6 counters

  /** `ping6_sent`/`ping6_received`: `get_data(label, int, default=0)`, always a number or a TypeError. */
  function Ping6Count(store: map<string, Value>, field: string): (r: Result<int>)
    ensures field !in store ==> r == Ok(0)
    ensures r.Err? ==> r.error == TypeError
  {
    var v :- GetDataOf(store, field, ToInt, Int(0));
    Ok(v.i)
  }

  /** `ping6_get_results()`: `"%s / %s " % (ping6_received, ping6_sent)`. */
  function Ping6GetResults(store: map<string, Value>): Result<string>
  {
    var received :- Ping6Count(store, Ping6ReceivedLabel);
    var sent :- Ping6Count(store, Ping6SentLabel);
    Ok(IntStr(received) + " / " + IntStr(sent) + " ")
  }

  /** The counts the ping6 summary stored read back in the summary text, received first. */
  lemma {:induction false} Ping6ResultsRoundTrip(store: map<string, Value>, sent: nat, received: nat)
    requires !(Ping6SentLabel in store && IsWatchable(store[Ping6SentLabel]))
    requires !(Ping6ReceivedLabel in store && IsWatchable(store[Ping6ReceivedLabel]))
    ensures var s1 := StoreAfter(store, Ping6SentLabel, Str(Dec(sent)));
            Ping6GetResults(StoreAfter(s1, Ping6ReceivedLabel, Str(Dec(received))))
              == Ok(Dec(received) + " / " + Dec(sent) + " ")
  {
    var s1 := StoreAfter(store, Ping6SentLabel, Str(Dec(sent)));
    var s2 := StoreAfter(s1, Ping6ReceivedLabel, Str(Dec(received)));
    StoreCountThenGet(store, Ping6SentLabel, sent, Int(0));
    StoreCountThenGet(s1, Ping6ReceivedLabel, received, Int(0));
    assert s2[Ping6SentLabel] == s1[Ping6SentLabel];
    assert Ping6Count(s2, Ping6ReceivedLabel) == Ok(received);
    assert Ping6Count(s2, Ping6SentLabel) == Ok(sent);
  }

  /** What a field holds: a plain value, a watchable cell, or a cell with a history. */
  datatype Kind = Plain | OneCell | WithHistory

  /**
   * A field as its readers see it: the value (a cell's current value) and,
   * for a history cell, its entries.
   */
  datatype Shown = Shown(kind: Kind, value: Value, history: seq<Item>)

  /** How a stored value is seen, looking through a watchable to what it holds. */
  function ShownOf(v: Value): Shown
    reads Holder(v)
  {
    match v
    case Cell(w) => Shown(OneCell, w.value, [])
    case History(h) => Shown(WithHistory, h.cell.value, h.history)
    case _ => Shown(Plain, v, [])
  }

  /**
   * The fields as seen after `store_data(value, field)` of a value that is
   * not itself a watchable: the field shows the stripped value whatever it
   * held, a history cell has gained it stamped `now`, and every other field
   * is seen as before.
   */
  function ViewAfter(view: map<string, Shown>, field: string, value: Value, now: Value): (r: map<string, Shown>)
  {
    var v := Stripped(value);
    if field in view && view[field].kind == WithHistory then
      view[field := Shown(WithHistory, v, view[field].history + [Item(now, v)])]
    else if field in view && view[field].kind == OneCell then
      view[field := Shown(OneCell, v, [])]
    else
      view[field := Shown(Plain, v, [])]
  }

  /** No two fields hold the same watchable, so a `set` through one field leaves the others' alone. */
  ghost predicate Apart(store: map<string, Value>)
  {
    forall f, g :: f in store && g in store && f != g ==> Holder(store[f]) !! Holder(store[g])
  }

  /** Storing a value that shares no watchable with the other fields keeps the fields apart. */
  lemma ApartAfter(store: map<string, Value>, field: string, value: Value)
    requires Apart(store)
    requires forall f :: f in store && f != field ==> Holder(value) !! Holder(store[f])
    ensures Apart(StoreAfter(store, field, value))
  {
  }

  /** Storing a value that is not watchable adds nothing to what a store holds. */
  lemma HeldByAfter(store: map<string, Value>, field: string, value: Value)
    requires !IsWatchable(value)
    ensures HeldBy(StoreAfter(store, field, value)) <= HeldBy(store)
  {
  }

  /** The watchables a store holds, which its view reads. */
  function HeldBy(store: map<string, Value>): (r: set<object>)
    ensures forall o :: o in r ==> o is Watchable || o is WatchableWithHistory
  {
    set f, o | f in store && o in Holder(store[f]) :: o
  }

  /** Every field of `store` as seen through the watchable it holds, if any. */
  ghost function ViewOf(store: map<string, Value>): map<string, Shown>
    reads HeldBy(store)
  {
    map f | f in store :: ShownOf(store[f])
  }

  /** Overwriting a field that holds no watchable with a plain value is seen as `ViewAfter` says. */
  lemma ViewOfPut(store: map<string, Value>, field: string, value: Value, now: Value)
    requires !IsWatchable(value) && !(field in store && IsWatchable(store[field]))
    ensures ViewOf(store[field := Stripped(value)]) == ViewAfter(ViewOf(store), field, value, now)
  {
    var r := store[field := Stripped(value)];
    forall f | f in r && f != field
      ensures ViewOf(r)[f] == ViewOf(store)[f]
    {
      assert r[f] == store[f];
    }
    SameView(ViewOf(r), ViewAfter(ViewOf(store), field, value, now), field);
  }

  /**
   * A `set` through the watchable of one field, seen from outside: when that
   * field shows what `ViewAfter` says and every other field shows what it
   * did in `before`, the whole view is `ViewAfter` of `before`.
   */
  lemma ViewOfSet(store: map<string, Value>, before: map<string, Shown>, field: string, value: Value, now: Value)
    requires before.Keys == store.Keys && field in store
    requires ShownOf(store[field]) == ViewAfter(before, field, value, now)[field]
    requires forall f :: f in store && f != field ==> ShownOf(store[f]) == before[f]
    ensures ViewOf(store) == ViewAfter(before, field, value, now)
  {
    SameView(ViewOf(store), ViewAfter(before, field, value, now), field);
  }

  /** A value whose watchable, if any, did not change is seen as before. */
  twostate lemma ShownKept(x: Value)
    requires unchanged(Holder(x))
    ensures ShownOf(x) == old(ShownOf(x))
  {
  }

  /** The view of a store whose watchables did not change is as before. */
  twostate lemma ViewOfFramed(store: map<string, Value>)
    requires unchanged(HeldBy(store))
    ensures ViewOf(store) == old(ViewOf(store))
  {
  }

  /** What a view shows under `field`, if anything. */
  function ShownAt(view: map<string, Shown>, field: string): Option<Shown>
  {
    if field in view then Some(view[field]) else None
  }

  /** How a field that showed `was` (or nothing) is shown once `v` is stored under it at `now`. */
  function ShownStored(was: Option<Shown>, v: Value, now: Value): Shown
  {
    match was
    case None => Shown(Plain, v, [])
    case Some(s) =>
      if s.kind == WithHistory then Shown(WithHistory, v, s.history + [Item(now, v)]) else Shown(s.kind, v, [])
  }

  /**
   * Storing a value that is not a watchable under `a` changes what is shown
   * under `a` alone: it keeps its kind (plain when new), shows the stripped
   * value, and a history gains that value stamped `now`.
   */
  lemma ViewAfterAt(view: map<string, Shown>, a: string, value: Value, field: string, now: Value)
    ensures ShownAt(ViewAfter(view, a, value, now), field) ==
      if field == a then Some(ShownStored(ShownAt(view, a), Stripped(value), now)) else ShownAt(view, field)
  {
  }

  /** Storing None under eight different fields in turn clears each of them once and shows every other field as before. */
  lemma ShownAtClearedEight(view: map<string, Shown>, ls: seq<string>, field: string, now: Value)
    requires |ls| == 8 && forall i, j :: 0 <= i < j < |ls| ==> ls[i] != ls[j]
    ensures var v4 := ViewAfter(ViewAfter(ViewAfter(ViewAfter(view, ls[0], Null, now), ls[1], Null, now), ls[2], Null, now), ls[3], Null, now);
      ShownAt(ViewAfter(ViewAfter(ViewAfter(ViewAfter(v4, ls[4], Null, now), ls[5], Null, now), ls[6], Null, now), ls[7], Null, now), field) ==
      if field in ls then Some(ShownStored(ShownAt(view, field), Null, now)) else ShownAt(view, field)
  {
    assert ls == [ls[0], ls[1], ls[2], ls[3], ls[4], ls[5], ls[6], ls[7]];
    var v1 := ViewAfter(view, ls[0], Null, now);
    var v2 := ViewAfter(v1, ls[1], Null, now);
    var v3 := ViewAfter(v2, ls[2], Null, now);
    var v4 := ViewAfter(v3, ls[3], Null, now);
    var v5 := ViewAfter(v4, ls[4], Null, now);
    var v6 := ViewAfter(v5, ls[5], Null, now);
    var v7 := ViewAfter(v6, ls[6], Null, now);
    ViewAfterAt(view, ls[0], Null, field, now);
    ViewAfterAt(v1, ls[1], Null, field, now);
    ViewAfterAt(v2, ls[2], Null, field, now);
    ViewAfterAt(v3, ls[3], Null, field, now);
    ViewAfterAt(v4, ls[4], Null, field, now);
    ViewAfterAt(v5, ls[5], Null, field, now);
    ViewAfterAt(v6, ls[6], Null, field, now);
    ViewAfterAt(v7, ls[7], Null, field, now);
  }

  /** Two views with the same fields that agree on `field` and on every other field are equal. */
  lemma SameView(a: map<string, Shown>, b: map<string, Shown>, field: string)
    requires a.Keys == b.Keys && field in a && a[field] == b[field]
    requires forall f :: f in a && f != field ==> a[f] == b[f]
    ensures a == b
  {
  }

  // ---------------------------------------------------------------- the node

  class BaseNode {
    const name: string
    var error: Option<string>
    var store: map<string, Value>

    constructor (name: string)
      ensures this.name == name && error == None && store == map[]
    {
      this.name := name;
      error := None;
      store := map[];
    }

    /** The objects a `store_data` on `field` may change: the watchable it holds, if any. */
    function Target(field: string): (r: set<object>)
      reads this
      ensures forall o :: o in r ==> o is Watchable || o is WatchableWithHistory
      ensures r <= HeldBy(store)
    {
      if field in store then Holder(store[field]) else {}
    }

    /** `in_error()`: true exactly when a message is pending. */
    method InError() returns (r: bool)
      ensures r <==> error.Some?
    {
      r := error.Some?;
    }

    /** `get_error()`: the pending message, or None; the slot is empty afterwards. */
    method GetError() returns (msg: Option<string>)
      modifies this
      ensures msg == old(error) && error == None
      ensures store == old(store)
    {
      msg := error;
      error := None;
    }

    /** `post_error(msg)`: kept only when no message is pending; `full` tells the print that drops it. */
    method PostError(msg: string) returns (full: bool)
      modifies this
      ensures error == Posted(old(error), msg)
      ensures full <==> old(error).Some?
      ensures store == old(store)
    {
      full := error.Some?;
      if !full {
        error := Some(msg);
      }
    }

    /**
     * `store_data(value, field)`: a string is stripped; a field holding a
     * watchable has it `set` (a history cell stamped `now`), any other field
     * is overwritten.
     */
    method StoreData(value: Value, field: string, now: Value)
      modifies this, Target(field)
      ensures store == StoreAfter(old(store), field, value) && error == old(error)
      ensures old(Apart(store)) && (forall f :: f in old(store) && f != field ==> Holder(value) !! Holder(old(store)[f])) ==>
        Apart(store)
      ensures field in old(store) && old(store)[field].Cell? ==>
        old(store)[field].w.value == Stripped(value)
      ensures field in old(store) && old(store)[field].History? ==>
        var h := old(store)[field].h;
        h.history == old(h.history) + [Item(now, Stripped(value))] && h.Valid()
      ensures old(Apart(store)) && !IsWatchable(value) ==> ViewOf(store) == ViewAfter(old(ViewOf(store)), field, value, now)
    {
      if field in store && IsWatchable(store[field]) {
        assert this !in Holder(store[field]);
        SetHeld(field, value, now);
        assert store == StoreAfter(old(store), field, value);
      } else {
        PutPlain(field, value, now);
      }
      if old(Apart(store)) && forall f :: f in old(store) && f != field ==> Holder(value) !! Holder(old(store)[f]) {
        ApartAfter(old(store), field, value);
      }
    }

    /**
     * `store_data` of a value that is not itself a watchable (None, a string,
     * a number): the store comes to hold no new watchable, and fields that
     * shared none still share none.
     */
    method StoreValue(value: Value, field: string, now: Value)
      requires !IsWatchable(value)
      modifies this, Target(field)
      ensures store == StoreAfter(old(store), field, value) && error == old(error)
      ensures HeldBy(store) <= old(HeldBy(store))
      ensures old(Apart(store)) ==> Apart(store) && ViewOf(store) == ViewAfter(old(ViewOf(store)), field, value, now)
    {
      StoreData(value, field, now);
      HeldByAfter(old(store), field, value);
    }

    /** The other branch of `store_data`: the field is overwritten with the stripped value. */
    method PutPlain(field: string, value: Value, now: Value)
      requires !(field in store && IsWatchable(store[field]))
      modifies this
      ensures store == old(store)[field := Stripped(value)] && error == old(error)
      ensures !IsWatchable(value) ==> ViewOf(store) == ViewAfter(old(ViewOf(store)), field, value, now)
    {
      if !IsWatchable(value) {
        ViewOfPut(store, field, value, now);
      }
      store := store[field := Stripped(value)];
      if !IsWatchable(value) {
        ViewOfFramed(old(store));
        ViewOfFramed(store);
      }
    }

    /** The `set` branch of `store_data`: the watchable a field holds takes the stripped value. */
    method SetHeld(field: string, value: Value, now: Value)
      requires field in store && IsWatchable(store[field])
      modifies Holder(store[field])
      ensures store[field].Cell? ==> store[field].w.value == Stripped(value)
      ensures store[field].History? ==>
        var h := store[field].h;
        h.history == old(h.history) + [Item(now, Stripped(value))] && h.Valid()
      ensures Apart(store) ==> ViewOf(store) == ViewAfter(old(ViewOf(store)), field, value, now)
    {
      var v := Stripped(value);
      var held := store[field];
      ghost var before := ViewOf(store);
      if held.Cell? {
        var _, _ := held.w.Set(v);
      } else {
        held.h.Set(now, v);
      }
      if Apart(store) {
        forall f | f in store && f != field
          ensures ShownOf(store[f]) == before[f]
        {
          assert Holder(store[f]) !! Holder(held);
          ShownKept(store[f]);
        }
        ViewOfSet(store, before, field, value, now);
      }
    }

    /** `clear_store()`. */
    method ClearStore()
      modifies this
      ensures store == map[] && error == old(error)
    {
      store := map[];
    }

    /** `get_data(field, to_type, default)`. */
    method GetData(field: string, to: Convert, default: Value) returns (r: Result<Value>)
      ensures r == GetDataOf(store, field, to, default)
    {
      var value := if field in store then store[field] else default;
      match to {
        case AsIs =>
          r := Ok(value);
        case HexInt =>
          var n := HexIntOf(value);
          r := if n.Err? && n.error != ValueError then Err(n.error) else Ok(Caught(n, default));
        case ToInt =>
          var n := IntOf(value);
          r := if n.Err? && n.error != ValueError then Err(n.error) else Ok(Caught(n, default));
      }
    }

    /**
     * The first half of `ping6_results_process`: the stored summary match
     * gives its two groups to `ping6_sent` and `ping6_received`; anything
     * else has no `group` and raises AttributeError before any change.
     */
    method StorePing6Counts(now: Value) returns (r: Result<()>)
      modifies this, Target(Ping6SentLabel), Target(Ping6ReceivedLabel)
      ensures var m := Lookup(old(store), Ping6ResultsLabel, Null);
        if m.Match? then
          r == Ok(()) &&
          store == StoreAfter(StoreAfter(old(store), Ping6SentLabel, Str(m.group1)), Ping6ReceivedLabel, Str(m.group2))
        else
          r == Err(AttributeError) && store == old(store)
      ensures error == old(error)
    {
      var m := if Ping6ResultsLabel in store then store[Ping6ResultsLabel] else Null;
      if !m.Match? {
        return Err(AttributeError);
      }
      StoreData(Str(m.group1), Ping6SentLabel, now);
      StoreData(Str(m.group2), Ping6ReceivedLabel, now);
      r := Ok(());
    }

    /** `ping6_results_process()` as written: `ping6_get_results(self)` passes one argument too many. */
    method Ping6ResultsProcessAsWritten(now: Value) returns (r: Result<string>)
      modifies this, Target(Ping6SentLabel), Target(Ping6ReceivedLabel)
      ensures var m := Lookup(old(store), Ping6ResultsLabel, Null);
        if m.Match? then
          r == Err(TypeError) &&
          store == StoreAfter(StoreAfter(old(store), Ping6SentLabel, Str(m.group1)), Ping6ReceivedLabel, Str(m.group2))
        else
          r == Err(AttributeError) && store == old(store)
      ensures error == old(error)
    {
      var stored := StorePing6Counts(now);
      if stored.Err? {
        return Err(stored.error);
      }
      r := Err(TypeError);
    }

    /** `ping6_results_process()` as intended: the summary of the counts just stored. */
    method Ping6ResultsProcess(now: Value) returns (r: Result<string>)
      modifies this, Target(Ping6SentLabel), Target(Ping6ReceivedLabel)
      ensures var m := Lookup(old(store), Ping6ResultsLabel, Null);
        if m.Match? then
          store == StoreAfter(StoreAfter(old(store), Ping6SentLabel, Str(m.group1)), Ping6ReceivedLabel, Str(m.group2)) &&
          r == Ping6GetResults(store)
        else
          r == Err(AttributeError) && store == old(store)
      ensures error == old(error)
    {
      var stored := StorePing6Counts(now);
      if stored.Err? {
        return Err(stored.error);
      }
      r := Ping6GetResults(store);
    }
  }
}
