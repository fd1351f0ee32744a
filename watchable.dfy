/**
 * Watchables (silk/tools/watchable.py): a value cell whose `set` reports
 * whether it changed, and a cell with a time-stamped history whose current
 * value is always the last entry appended. Node stores hold them beside
 * plain values, so the Python values a store can hold are defined here too.
 */
module Watchables {
  import opened PyCore

  /**
   * A Python value as the node data store sees it. Values the model does not
   * look into (time stamps, lists) are `Other`, told apart by a tag; a regex
   * match of the ping6 summary is `Match` with its two groups; watchables are
   * objects compared by identity.
   */
  datatype Value =
    | Null
    | Str(s: string)
    | Int(i: int)
    | Other(tag: string)
    | Match(group1: string, group2: string)
    | Cell(w: Watchable)
    | History(h: WatchableWithHistory)

  /** `is_watchable(v)`: true exactly for the two watchable classes. */
  predicate IsWatchable(v: Value)
  {
    v.Cell? || v.History?
  }

  /** The objects a value refers to, which a `set` through it may change. */
  function Holder(v: Value): set<object>
  {
    match v
    case Cell(w) => {w}
    case History(h) => {h, h.cell}
    case _ => {}
  }

  /** One history entry, the unpacked `[time, value]` pair. */
  datatype Item = Item(time: Value, value: Value)

  /** The value a history shows: the last entry's, or `initial` while it is empty. */
  function Latest(history: seq<Item>, initial: Value): Value
  {
    if history == [] then initial else history[|history| - 1].value
  }

  class Watchable {
    var value: Value
    const name: Option<string>

    constructor (value: Value, name: Option<string>)
      ensures this.value == value && this.name == name
    {
      this.value := value;
      this.name := name;
    }

    /** `get()`. */
    method Get() returns (r: Value)
      ensures r == value
    {
      r := value;
    }

    /**
     * `set(v)`: afterwards the cell holds `v`, and `set` returns its
     * argument; `modified` (which decides the debug log line) is true
     * exactly when `v` differs from the value before.
     */
    method Set(v: Value) returns (r: Value, modified: bool)
      modifies this
      ensures value == v && r == v
      ensures modified <==> old(value) != v
    {
      modified := v != value;
      if modified {
        value := v;
      }
      r := v;
    }
  }

  class WatchableWithHistory {
    var history: seq<Item>
    const initial: Value
    const cell: Watchable

    /** The inner cell mirrors the last entry; it starts as `None`. */
    ghost predicate Valid()
      reads this, cell
    {
      cell.value == Latest(history, Null)
    }

    constructor (initial: Value, name: Option<string>)
      ensures Valid() && fresh(cell)
      ensures history == [] && this.initial == initial
    {
      history := [];
      this.initial := initial;
      cell := new Watchable(Null, name);
    }

    /** `get()`: the initial value while the history is empty, else the last value appended. */
    method Get() returns (r: Value)
      requires Valid()
      ensures r == Latest(history, initial)
    {
      if |history| > 0 {
        r := cell.Get();
      } else {
        r := initial;
      }
    }

    /** `get_history()`: the entries in the order they were appended. */
    method GetHistory() returns (r: seq<Item>)
      ensures r == history
    {
      r := history;
    }

    /** `h[index]`, with Python's negative indices; IndexError outside the history. */
    method At(index: int) returns (r: Result<Item>)
      ensures -|history| <= index < |history| ==>
        r == Ok(history[if index < 0 then |history| + index else index])
      ensures !(-|history| <= index < |history|) ==> r == Err(IndexError)
    {
      if 0 <= index < |history| {
        r := Ok(history[index]);
      } else if -|history| <= index < 0 {
        r := Ok(history[|history| + index]);
      } else {
        r := Err(IndexError);
      }
    }

    /**
     * `append(item)`: an item that does not unpack into two parts raises
     * ValueError before anything changes; otherwise the history grows by
     * exactly that entry and the current value becomes its second part.
     */
    method Append(item: seq<Value>) returns (r: Result<()>)
      modifies this, cell
      ensures |item| != 2 ==> r == Err(ValueError) && history == old(history) && cell.value == old(cell.value)
      ensures |item| == 2 ==> r == Ok(()) && history == old(history) + [Item(item[0], item[1])]
      ensures |item| == 2 ==> Valid() && cell.value == item[1]
    {
      if |item| != 2 {
        return Err(ValueError);
      }
      history := history + [Item(item[0], item[1])];
      var _, _ := cell.Set(item[1]);
      r := Ok(());
    }

    /** `set(v)`: appends `[now, v]`, the clock reading being a parameter. */
    method Set(now: Value, v: Value)
      modifies this, cell
      ensures history == old(history) + [Item(now, v)]
      ensures Valid() && cell.value == v
    {
      var _ := Append([now, v]);
    }
  }
}
