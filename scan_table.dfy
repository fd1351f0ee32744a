/**
 * The scan tables `wpanctl scan` prints, and the lookup of a node's network
 * in them (silk/tools/wpan_table_parser.py:303-422; the src/ tree has the
 * same code at src/tools/wpan_table_parser.py:300-419).
 */
module ScanTable {
  import opened PyCore
  import opened PyInt
  import WpanTableParser

  datatype ScanType = ActiveScan | DiscoveryScan | EnergyScan

  /**
   * A `ScanResult` object. An attribute its constructor does not assign for
   * the row's kind is `None`: reading it raises AttributeError.
   */
  datatype ScanResult = ScanResult(
    kind: ScanType, index: Option<string>, joinable: Option<bool>, networkName: Option<string>,
    panid: Option<string>, channel: string, xpanid: Option<string>, extAddress: Option<string>, rssi: string)

  /** The attributes each kind of row assigns. */
  predicate WellFormed(r: ScanResult)
  {
    match r.kind
    case ActiveScan =>
      r.index.Some? && r.joinable.Some? && r.networkName.Some? && r.panid.Some? && r.xpanid.Some? && r.extAddress.Some?
    case DiscoveryScan =>
      r.index.Some? && r.joinable.None? && r.networkName.Some? && r.panid.Some? && r.xpanid.Some? && r.extAddress.Some?
    case EnergyScan =>
      r.index.None? && r.joinable.None? && r.networkName.None? && r.panid.None? && r.xpanid.None? && r.extAddress.None?
  }

  /** `[item.strip() for item in text.split('|')]`. */
  function Cells(text: string): (r: seq<string>)
    ensures |r| == |SplitOn(text, '|')|
  {
    var parts := SplitOn(text, '|');
    seq(|parts|, k requires 0 <= k < |parts| => Strip(parts[k]))
  }

  /** The object a row of cells builds: 8 cells an active scan, 7 a discovery scan, 2 an energy scan. */
  function ScanOfCells(items: seq<string>): (r: Option<ScanResult>)
    ensures r.Some? <==> |items| == 8 || |items| == 7 || |items| == 2
    ensures r.Some? ==> WellFormed(r.value)
    ensures r.Some? ==> (r.value.kind == ActiveScan <==> |items| == 8)
    ensures r.Some? ==> (r.value.kind == EnergyScan <==> |items| == 2)
    ensures r.Some? ==> r.value.rssi == items[|items| - 1]
  {
    if |items| == 8 then
      Some(ScanResult(ActiveScan, Some(items[0]), Some(items[1] == "YES"), Some(Slice(items[2], 1, -1)),
                      Some(items[3]), items[4], Some(items[5]), Some(items[6]), items[7]))
    else if |items| == 7 then
      Some(ScanResult(DiscoveryScan, Some(items[0]), None, Some(Slice(items[1], 1, -1)),
                      Some(items[2]), items[3], Some(items[4]), Some(items[5]), items[6]))
    else if |items| == 2 then
      Some(ScanResult(EnergyScan, None, None, None, None, items[0], None, None, items[1]))
    else None
  }

  /**
   * `ScanResult(text)` as written: for any other cell count the constructor
   * means to raise ValueError, but building the message reads
   * `'...'.result_text`, which raises AttributeError first.
   */
  function ParseScanResultAsWritten(text: string): (r: Result<ScanResult>)
    ensures r.Err? <==> ScanOfCells(Cells(text)).None?
    ensures r.Err? ==> r.error == AttributeError
  {
    match ScanOfCells(Cells(text))
    case Some(s) => Ok(s)
    case None => Err(AttributeError)
  }

  /** `ScanResult(text)` as intended: a row of any other cell count raises ValueError. */
  function ParseScanResult(text: string): (r: Result<ScanResult>)
    ensures r.Err? <==> !(|Cells(text)| == 8 || |Cells(text)| == 7 || |Cells(text)| == 2)
    ensures r.Err? ==> r.error == ValueError
    ensures r.Ok? ==> WellFormed(r.value)
  {
    match ScanOfCells(Cells(text))
    case Some(s) => Ok(s)
    case None => Err(ValueError)
  }

  /** A row with one cell: the written constructor raises AttributeError where ValueError is meant. */
  lemma ScanErrorAsWritten()
    ensures ParseScanResultAsWritten("garbage") == Err(AttributeError)
    ensures ParseScanResult("garbage") == Err(ValueError)
  {
    NotFoundInFree("garbage", '|');
    assert |Cells("garbage")| == 1;
  }

  /** `parse_scan_result`: one object per line of the stripped text after the two header lines. */
  function ParseScanResultTable(s: string): (r: Result<seq<ScanResult>>)
    ensures r.Ok? ==> |r.value| == |From(SplitOn(Strip(s), '\n'), 2)|
    ensures r.Ok? ==> forall k :: 0 <= k < |r.value| ==> WellFormed(r.value[k])
  {
    WpanTableParser.MapResult(From(SplitOn(Strip(s), '\n'), 2), ParseScanResult)
  }

  /** `parse_scan_result` as written: each row goes through the constructor as written. */
  function ParseScanResultTableAsWritten(s: string): (r: Result<seq<ScanResult>>)
    ensures r.Err? ==> r.error == AttributeError
  {
    WpanTableParser.MapResult(From(SplitOn(Strip(s), '\n'), 2), ParseScanResultAsWritten)
  }

  /** Row by row the written constructor fails where the intended one does, and otherwise agrees. */
  lemma RowAsWrittenAgrees(x: string)
    ensures ParseScanResultAsWritten(x).Ok? <==> ParseScanResult(x).Ok?
    ensures ParseScanResult(x).Ok? ==> ParseScanResultAsWritten(x) == ParseScanResult(x)
  {
  }

  /**
   * The written table parser fails on the same tables as the intended one,
   * with AttributeError where ValueError is meant, and otherwise returns
   * the same results.
   */
  lemma ScanTableAsWrittenAgrees(s: string)
    ensures ParseScanResultTableAsWritten(s).Ok? <==> ParseScanResultTable(s).Ok?
    ensures ParseScanResultTable(s).Ok? ==> ParseScanResultTableAsWritten(s) == ParseScanResultTable(s)
    ensures ParseScanResultTable(s).Err? ==>
      ParseScanResultTable(s) == Err(ValueError) && ParseScanResultTableAsWritten(s) == Err(AttributeError)
  {
    var lines := From(SplitOn(Strip(s), '\n'), 2);
    forall k | 0 <= k < |lines|
      ensures ParseScanResultAsWritten(lines[k]).Ok? <==> ParseScanResult(lines[k]).Ok?
      ensures ParseScanResult(lines[k]).Ok? ==> ParseScanResultAsWritten(lines[k]) == ParseScanResult(lines[k])
    {
      RowAsWrittenAgrees(lines[k]);
    }
    if ParseScanResultTable(s).Ok? {
      WpanTableParser.MapResultAll(lines, ParseScanResultAsWritten, ParseScanResultTable(s).value);
    }
  }

  // ------------------------------------------------------------ printed rows

  function Quote(s: string): string
  {
    "\"" + s + "\""
  }

  /** The cells `wpanctl` prints for a result, in column order. */
  function ScanFields(r: ScanResult): (f: seq<string>)
    requires WellFormed(r)
    ensures f != []
  {
    match r.kind
    case ActiveScan =>
      [r.index.value, if r.joinable.value then "YES" else "NO", Quote(r.networkName.value),
       r.panid.value, r.channel, r.xpanid.value, r.extAddress.value, r.rssi]
    case DiscoveryScan =>
      [r.index.value, Quote(r.networkName.value), r.panid.value, r.channel, r.xpanid.value, r.extAddress.value, r.rssi]
    case EnergyScan =>
      [r.channel, r.rssi]
  }

  /** A cell with one blank on each side that has a neighbour. */
  function Cell(fields: seq<string>, k: nat): string
    requires k < |fields|
  {
    (if k > 0 then " " else "") + fields[k] + (if k + 1 < |fields| then " " else "")
  }

  /** A row: the cells joined by `|`, e.g. ` 1 | NO | "Silk-PAN" | 0x0CE2 | 11 | ... | -56`. */
  function Row(fields: seq<string>): string
  {
    Join("|", seq(|fields|, k requires 0 <= k < |fields| => Cell(fields, k)))
  }

  function ScanRow(r: ScanResult): string
    requires WellFormed(r)
  {
    Row(ScanFields(r))
  }

  /** Text with no whitespace at either end. */
  predicate Trimmed(f: string)
  {
    f == [] || (!IsSpace(f[0]) && !IsSpace(f[|f| - 1]))
  }

  /** A result `wpanctl` can print: its cells hold no `|`, no line break and no outer blanks, and RSSI is not empty. */
  predicate PrintableScan(r: ScanResult)
  {
    WellFormed(r) && r.rssi != []
    && forall k :: 0 <= k < |ScanFields(r)| ==>
         Trimmed(ScanFields(r)[k]) && Free(ScanFields(r)[k], '|') && Free(ScanFields(r)[k], '\n')
  }

  /** Splitting a row on `|` and stripping the cells gives the fields back. */
  lemma CellsOfRow(fields: seq<string>)
    requires fields != []
    requires forall k :: 0 <= k < |fields| ==> Trimmed(fields[k]) && Free(fields[k], '|')
    ensures Cells(Row(fields)) == fields
  {
    var cells := seq(|fields|, k requires 0 <= k < |fields| => Cell(fields, k));
    forall k | 0 <= k < |cells| ensures Free(cells[k], '|') {
    }
    SplitOnJoin(cells, '|');
    forall k | 0 <= k < |fields| ensures Strip(cells[k]) == fields[k] {
      var pre := if k > 0 then " " else "";
      var post := if k + 1 < |fields| then " " else "";
      assert cells[k] == pre + fields[k] + post;
      StripPadded(pre, fields[k], post);
    }
  }

  /** `ScanResult` of a printed row is the result printed. */
  lemma ScanRowRoundTrip(r: ScanResult)
    requires PrintableScan(r)
    ensures ParseScanResult(ScanRow(r)) == Ok(r)
  {
    CellsOfRow(ScanFields(r));
    FieldsBuildScan(r);
  }

  /** The cells printed for a result build that result again. */
  lemma FieldsBuildScan(r: ScanResult)
    requires WellFormed(r)
    ensures ScanOfCells(ScanFields(r)) == Some(r)
  {
    if r.kind != EnergyScan {
      SliceInner(Quote(r.networkName.value));
      assert Quote(r.networkName.value)[1..|Quote(r.networkName.value)| - 1] == r.networkName.value;
    }
  }

  /** A row holds no line break when its fields hold none. */
  lemma RowFree(fields: seq<string>)
    requires forall k :: 0 <= k < |fields| ==> Free(fields[k], '\n')
    ensures Free(Row(fields), '\n')
  {
    var cells := seq(|fields|, k requires 0 <= k < |fields| => Cell(fields, k));
    forall k | 0 <= k < |cells| ensures Free(cells[k], '\n') {
    }
    WpanTableParser.JoinFree("|", cells, '\n');
  }

  /** A row ends with the last character of its last field. */
  lemma RowEnds(fields: seq<string>)
    requires fields != [] && fields[|fields| - 1] != []
    ensures var last := fields[|fields| - 1]; Row(fields) != [] && Row(fields)[|Row(fields)| - 1] == last[|last| - 1]
  {
    var cells := seq(|fields|, k requires 0 <= k < |fields| => Cell(fields, k));
    JoinLast("|", cells);
    var c := cells[|cells| - 1];
    assert c == (if |fields| > 1 then " " else "") + fields[|fields| - 1];
    assert c[|c| - 1] == fields[|fields| - 1][|fields[|fields| - 1]| - 1];
  }

  /** A row holds no line break, and it ends with its RSSI's last character. */
  lemma ScanRowShape(r: ScanResult)
    requires PrintableScan(r)
    ensures Free(ScanRow(r), '\n')
    ensures ScanRow(r) != [] && !IsSpace(ScanRow(r)[|ScanRow(r)| - 1])
  {
    var fields := ScanFields(r);
    RowFree(fields);
    RowEnds(fields);
    assert fields[|fields| - 1] == r.rssi;
  }

  /** A join ends with its last part. */
  lemma {:induction false} JoinLast(sep: string, parts: seq<string>)
    requires parts != []
    ensures |Join(sep, parts)| >= |parts[|parts| - 1]|
    ensures Join(sep, parts)[|Join(sep, parts)| - |parts[|parts| - 1]|..] == parts[|parts| - 1]
    decreases |parts|
  {
    if |parts| > 1 {
      JoinLast(sep, parts[1..]);
    }
  }

  function ScanRows(rs: seq<ScanResult>): (lines: seq<string>)
    requires forall k :: 0 <= k < |rs| ==> WellFormed(rs[k])
    ensures |lines| == |rs| && forall k :: 0 <= k < |rs| ==> lines[k] == ScanRow(rs[k])
  {
    seq(|rs|, k requires 0 <= k < |rs| => ScanRow(rs[k]))
  }

  /** The printed table: two header lines, then one row per result. */
  function ScanTableText(h1: string, h2: string, rs: seq<ScanResult>): string
    requires forall k :: 0 <= k < |rs| ==> WellFormed(rs[k])
  {
    Join("\n", [h1, h2] + ScanRows(rs))
  }

  /** Stripping the table removes only the blanks that open the first header line. */
  lemma StripScanTable(h1: string, rest: string)
    requires SpaceRun(h1) < |h1|
    requires rest != [] && !IsSpace(rest[|rest| - 1])
    ensures Strip(h1 + rest) == h1[SpaceRun(h1)..] + rest
  {
    var t := h1[SpaceRun(h1)..] + rest;
    LStripConcat(h1, rest);
    assert t[|t| - 1] == rest[|rest| - 1];
    RStripSuffix(t, []);
    assert t + [] == t;
  }

  /** A join that starts with two lines is the first line, a break, and the join of the rest. */
  lemma JoinTwoLines(h1: string, h2: string, rows: seq<string>)
    ensures Join("\n", [h1, h2] + rows) == h1 + ("\n" + Join("\n", [h2] + rows))
  {
    assert ([h1, h2] + rows)[1..] == [h2] + rows;
  }

  /** Stripping a table only removes the blanks in front of its first line. */
  lemma StripTable(h1: string, h2: string, rows: seq<string>)
    requires SpaceRun(h1) < |h1|
    requires rows != [] && rows[|rows| - 1] != [] && !IsSpace(rows[|rows| - 1][|rows[|rows| - 1]| - 1])
    ensures Strip(Join("\n", [h1, h2] + rows)) == Join("\n", [h1[SpaceRun(h1)..], h2] + rows)
  {
    var tail := Join("\n", [h2] + rows);
    JoinTwoLines(h1, h2, rows);
    JoinTwoLines(h1[SpaceRun(h1)..], h2, rows);
    JoinLast("\n", [h2] + rows);
    assert ([h2] + rows)[|rows|] == rows[|rows| - 1];
    StripScanTable(h1, "\n" + tail);
  }

  /** Splitting joined lines on the line break and skipping two gives the lines after the second. */
  lemma SkipTwo(lines: seq<string>)
    requires |lines| >= 2 && forall k :: 0 <= k < |lines| ==> Free(lines[k], '\n')
    ensures From(SplitOn(Join("\n", lines), '\n'), 2) == lines[2..]
  {
    SplitOnJoin(lines, '\n');
    FromIn(lines, 2);
  }

  lemma LinesFree(h1: string, h2: string, rows: seq<string>)
    requires Free(h1, '\n') && Free(h2, '\n')
    requires forall k :: 0 <= k < |rows| ==> Free(rows[k], '\n')
    ensures forall k :: 0 <= k < |[h1, h2] + rows| ==> Free(([h1, h2] + rows)[k], '\n')
    ensures ([h1, h2] + rows)[2..] == rows
  {
    var lines := [h1, h2] + rows;
    forall k | 0 <= k < |lines| ensures Free(lines[k], '\n') {
      if k >= 2 { assert lines[k] == rows[k - 2]; }
    }
  }

  /** Splitting a table on line breaks and skipping two lines leaves its rows. */
  lemma SplitTable(h1: string, h2: string, rows: seq<string>)
    requires Free(h1, '\n') && Free(h2, '\n')
    requires forall k :: 0 <= k < |rows| ==> Free(rows[k], '\n')
    ensures From(SplitOn(Join("\n", [h1, h2] + rows), '\n'), 2) == rows
  {
    LinesFree(h1, h2, rows);
    SkipTwo([h1, h2] + rows);
  }

  /** Table rows, each parsing to its result, the last ending in a non-blank character. */
  predicate RowsParseTo(rows: seq<string>, rs: seq<ScanResult>)
  {
    |rows| == |rs| && rows != [] && rows[|rows| - 1] != [] && !IsSpace(rows[|rows| - 1][|rows[|rows| - 1]| - 1])
    && forall k :: 0 <= k < |rows| ==> Free(rows[k], '\n') && ParseScanResult(rows[k]) == Ok(rs[k])
  }

  /** Every printed row parses back and none holds a line break; the last ends in a non-blank character. */
  lemma RowsParse(rs: seq<ScanResult>)
    requires rs != [] && forall k :: 0 <= k < |rs| ==> WellFormed(rs[k]) && PrintableScan(rs[k])
    ensures RowsParseTo(ScanRows(rs), rs)
  {
    var rows := ScanRows(rs);
    forall k | 0 <= k < |rs| ensures Free(rows[k], '\n') && ParseScanResult(rows[k]) == Ok(rs[k]) {
      ScanRowShape(rs[k]);
      ScanRowRoundTrip(rs[k]);
    }
    ScanRowShape(rs[|rs| - 1]);
  }

  /** `parse_scan_result` of a table whose rows each parse returns their results. */
  lemma ScanTableOfRows(h1: string, h2: string, rows: seq<string>, rs: seq<ScanResult>)
    requires Free(h1, '\n') && Free(h2, '\n') && SpaceRun(h1) < |h1|
    requires RowsParseTo(rows, rs)
    ensures ParseScanResultTable(Join("\n", [h1, h2] + rows)) == Ok(rs)
  {
    StripTable(h1, h2, rows);
    SplitTable(h1[SpaceRun(h1)..], h2, rows);
    WpanTableParser.MapResultAll(rows, ParseScanResult, rs);
  }

  /** `parse_scan_result` of a printed table returns the printed results, in order. */
  lemma ScanTableRoundTrip(h1: string, h2: string, rs: seq<ScanResult>)
    requires Free(h1, '\n') && Free(h2, '\n') && SpaceRun(h1) < |h1|
    requires rs != [] && forall k :: 0 <= k < |rs| ==> WellFormed(rs[k]) && PrintableScan(rs[k])
    ensures ParseScanResultTable(ScanTableText(h1, h2, rs)) == Ok(rs)
  {
    RowsParse(rs);
    ScanTableOfRows(h1, h2, ScanRows(rs), rs);
  }

  /** Two header lines and rows as `wpanctl` prints them: no line breaks, and the text ends in a non-blank character. */
  predicate TableShape(h1: string, h2: string, rows: seq<string>)
  {
    Free(h1, '\n') && Free(h2, '\n') && SpaceRun(h1) < |h1|
    && (forall k :: 0 <= k < |rows| ==> Free(rows[k], '\n'))
    && rows != [] && rows[|rows| - 1] != [] && !IsSpace(rows[|rows| - 1][|rows[|rows| - 1]| - 1])
  }

  /** A table whose one row the intended parser rejects: the written one raises AttributeError, the intended one ValueError. */
  lemma ScanTableBadRow(h1: string, h2: string, row: string)
    requires TableShape(h1, h2, [row]) && ParseScanResult(row).Err?
    ensures ParseScanResultTableAsWritten(Join("\n", [h1, h2] + [row])) == Err(AttributeError)
    ensures ParseScanResultTable(Join("\n", [h1, h2] + [row])) == Err(ValueError)
  {
    TableLines(h1, h2, [row]);
    OneRowTable(Join("\n", [h1, h2] + [row]), row);
  }

  /** A table of one line the intended parser rejects. */
  lemma OneRowTable(s: string, row: string)
    requires From(SplitOn(Strip(s), '\n'), 2) == [row] && ParseScanResult(row).Err?
    ensures ParseScanResultTableAsWritten(s) == Err(AttributeError)
    ensures ParseScanResultTable(s) == Err(ValueError)
  {
    RowAsWrittenAgrees(row);
    OneRowErr(row, ParseScanResult);
    OneRowErr(row, ParseScanResultAsWritten);
  }

  /** The lines `parse_scan_result` reads from a table are its rows. */
  lemma TableLines(h1: string, h2: string, rows: seq<string>)
    requires TableShape(h1, h2, rows)
    ensures From(SplitOn(Strip(Join("\n", [h1, h2] + rows)), '\n'), 2) == rows
  {
    StripTable(h1, h2, rows);
    SplitTable(h1[SpaceRun(h1)..], h2, rows);
  }

  /** A list comprehension over one element that raises raises the same. */
  lemma OneRowErr<T>(row: string, f: string -> Result<T>)
    requires f(row).Err?
    ensures WpanTableParser.MapResult([row], f) == Err(f(row).error)
  {
  }

  /** Below any two header lines, a row `garbage`: as written AttributeError, ValueError as meant. */
  lemma ScanTableErrorAsWritten(h1: string, h2: string)
    requires Free(h1, '\n') && Free(h2, '\n') && SpaceRun(h1) < |h1|
    ensures ParseScanResultTableAsWritten(Join("\n", [h1, h2] + ["garbage"])) == Err(AttributeError)
    ensures ParseScanResultTable(Join("\n", [h1, h2] + ["garbage"])) == Err(ValueError)
  {
    ScanErrorAsWritten();
    GarbageRowShape(h1, h2);
    ScanTableBadRow(h1, h2, "garbage");
  }

  lemma GarbageRowShape(h1: string, h2: string)
    requires Free(h1, '\n') && Free(h2, '\n') && SpaceRun(h1) < |h1|
    ensures TableShape(h1, h2, ["garbage"])
  {
    var g := "garbage";
    assert !IsSpace(g[|g| - 1]) by { assert g[6] == 'e'; }
    assert Free(g, '\n');
    OneRowShape(h1, h2, g);
  }

  lemma OneRowShape(h1: string, h2: string, row: string)
    requires Free(h1, '\n') && Free(h2, '\n') && SpaceRun(h1) < |h1|
    requires Free(row, '\n') && row != [] && !IsSpace(row[|row| - 1])
    ensures TableShape(h1, h2, [row])
  {
    var rows := [row];
    assert rows[|rows| - 1] == row;
    forall k | 0 <= k < |rows| ensures Free(rows[k], '\n') {
      assert rows[k] == row;
    }
  }

  // ------------------------------------------------------------ is_in_scan_result

  /** The node properties `is_in_scan_result` reads, as `getprop` returns them. */
  datatype NodeScanProps = NodeScanProps(
    allowJoin: string, panid: string, xpanid: string, name: string, channel: string, extAddress: string)

  /** `o.attr`: an attribute the object lacks raises AttributeError. */
  function Attr<T>(o: Option<T>): (r: Result<T>)
    ensures o.Some? <==> r.Ok?
    ensures o.Some? ==> r.value == o.value
    ensures o.None? ==> r.error == AttributeError
  {
    match o
    case Some(v) => Ok(v)
    case None => Err(AttributeError)
  }

  /**
   * What the search looks for: a row with the node's name (quotes off),
   * PAN ID and extended PAN ID (`0x` off) up to outer blanks, channel as
   * hex, extended address (brackets off), and, unless it comes from a
   * discovery scan, the node's joinable flag.
   */
  predicate Matches(item: ScanResult, p: NodeScanProps)
  {
    && item.networkName == Some(Slice(p.name, 1, -1))
    && item.panid.Some? && Strip(item.panid.value) == Strip(p.panid)
    && item.xpanid.Some? && Strip(item.xpanid.value) == Strip(From(p.xpanid, 2))
    && ParseInt(item.channel, 16).Ok? && ParseInt(item.channel, 16) == ParseInt(p.channel, 16)
    && item.extAddress == Some(Slice(p.extAddress, 1, -1))
    && (item.kind == DiscoveryScan || item.joinable == Some(Strip(p.allowJoin) == "true"))
  }

  /** A row the comparison can evaluate without raising. */
  predicate Comparable(item: ScanResult, p: NodeScanProps)
  {
    WellFormed(item) && item.kind != EnergyScan && ParseInt(item.channel, 16).Ok? && ParseInt(p.channel, 16).Ok?
  }

  /**
   * `all([...])` for one row: the list display evaluates every comparison,
   * left to right, before `all` looks at them, so the first one that raises
   * decides. (The `print` of the same comparisons before it raises the same
   * exceptions in the same order.)
   */
  function ItemMatches(item: ScanResult, p: NodeScanProps): (r: Result<bool>)
    ensures r == Ok(true) <==> Matches(item, p)
    ensures Comparable(item, p) ==> r.Ok?
    ensures item.networkName.None? ==> r == Err(AttributeError)
  {
    var name :- Attr(item.networkName);
    var panid :- Attr(item.panid);
    var xpanid :- Attr(item.xpanid);
    var itemChannel :- ParseInt(item.channel, 16);
    var channel :- ParseInt(p.channel, 16);
    var ext :- Attr(item.extAddress);
    var joinOk :- if item.kind == DiscoveryScan then Ok(true)
                  else (var j :- Attr(item.joinable); Ok(j == (Strip(p.allowJoin) == "true")));
    Ok(name == Slice(p.name, 1, -1) && Strip(panid) == Strip(p.panid) && Strip(xpanid) == Strip(From(p.xpanid, 2))
       && itemChannel == channel && ext == Slice(p.extAddress, 1, -1) && joinOk)
  }

  /** The inner loop: True at the first matching row, False after the last. */
  function InScan(items: seq<ScanResult>, p: NodeScanProps): (r: Result<bool>)
    ensures r == Ok(true) ==> exists k :: 0 <= k < |items| && Matches(items[k], p)
    ensures r == Ok(false) ==> forall k :: 0 <= k < |items| ==> !Matches(items[k], p)
    ensures (forall k :: 0 <= k < |items| ==> Comparable(items[k], p)) ==> r.Ok?
    decreases |items|
  {
    if items == [] then Ok(false)
    else
      var m :- ItemMatches(items[0], p);
      if m then Ok(true)
      else
        var r := InScan(items[1..], p);
        ShiftRows(items, p);
        r
  }

  /** What holds of the rows after the first carries over to all rows, index by index. */
  lemma ShiftRows(items: seq<ScanResult>, p: NodeScanProps)
    requires items != []
    ensures (forall k :: 0 <= k < |items| ==> Comparable(items[k], p)) ==>
      forall k :: 0 <= k < |items[1..]| ==> Comparable(items[1..][k], p)
    ensures (exists k :: 0 <= k < |items[1..]| && Matches(items[1..][k], p)) ==>
      exists k :: 0 <= k < |items| && Matches(items[k], p)
    ensures !Matches(items[0], p) && (forall k :: 0 <= k < |items[1..]| ==> !Matches(items[1..][k], p)) ==>
      forall k :: 0 <= k < |items| ==> !Matches(items[k], p)
  {
    ShiftComparable(items, p);
    ShiftMatch(items, p);
    ShiftNoMatch(items, p);
  }

  lemma {:induction false} ShiftComparable(items: seq<ScanResult>, p: NodeScanProps)
    requires items != []
    ensures (forall k :: 0 <= k < |items| ==> Comparable(items[k], p)) ==>
      forall k :: 0 <= k < |items[1..]| ==> Comparable(items[1..][k], p)
  {
    if forall k :: 0 <= k < |items| ==> Comparable(items[k], p) {
      forall k | 0 <= k < |items[1..]| ensures Comparable(items[1..][k], p) {
        assert items[1..][k] == items[k + 1];
      }
    }
  }

  lemma {:induction false} ShiftMatch(items: seq<ScanResult>, p: NodeScanProps)
    requires items != []
    ensures (exists k :: 0 <= k < |items[1..]| && Matches(items[1..][k], p)) ==>
      exists k :: 0 <= k < |items| && Matches(items[k], p)
  {
    if exists k :: 0 <= k < |items[1..]| && Matches(items[1..][k], p) {
      var k :| 0 <= k < |items[1..]| && Matches(items[1..][k], p);
      assert items[k + 1] == items[1..][k];
    }
  }

  lemma {:induction false} ShiftNoMatch(items: seq<ScanResult>, p: NodeScanProps)
    requires items != []
    ensures !Matches(items[0], p) && (forall k :: 0 <= k < |items[1..]| ==> !Matches(items[1..][k], p)) ==>
      forall k :: 0 <= k < |items| ==> !Matches(items[k], p)
  {
    var rest := items[1..];
    var fits := (item: ScanResult) => Matches(item, p);
    if !Matches(items[0], p) && (forall k :: 0 <= k < |rest| ==> !Matches(rest[k], p)) {
      NoneAfterFirst(items, fits);
    }
  }

  /** No row fails `fits` when neither the first nor any of the rest does. */
  lemma {:induction false} NoneAfterFirst<T>(items: seq<T>, fits: T -> bool)
    requires items != [] && !fits(items[0]) && forall k :: 0 <= k < |items[1..]| ==> !fits(items[1..][k])
    ensures forall k :: 0 <= k < |items| ==> !fits(items[k])
  {
    var rest := items[1..];
    forall k | 1 <= k < |items| ensures !fits(items[k]) {
      assert items[k] == rest[k - 1];
    }
  }


  /** Some row of some table matches. */
  predicate AnyMatch(results: seq<seq<ScanResult>>, p: NodeScanProps)
  {
    exists i, k :: 0 <= i < |results| && 0 <= k < |results[i]| && Matches(results[i][k], p)
  }

  /** Every row of every table can be compared. */
  predicate AllComparable(results: seq<seq<ScanResult>>, p: NodeScanProps)
  {
    forall i, k :: 0 <= i < |results| && 0 <= k < |results[i]| ==> Comparable(results[i][k], p)
  }

  /** A match lies in the first table or in the rest. */
  lemma AnyMatchCons(results: seq<seq<ScanResult>>, p: NodeScanProps)
    requires results != []
    ensures AnyMatch(results, p) <==> (exists k :: 0 <= k < |results[0]| && Matches(results[0][k], p)) || AnyMatch(results[1..], p)
  {
    if AnyMatch(results[1..], p) {
      var i, k :| 0 <= i < |results[1..]| && 0 <= k < |results[1..][i]| && Matches(results[1..][i][k], p);
      assert results[i + 1] == results[1..][i];
    }
    if AnyMatch(results, p) {
      var i, k :| 0 <= i < |results| && 0 <= k < |results[i]| && Matches(results[i][k], p);
      if i > 0 {
        assert results[1..][i - 1] == results[i];
      }
    }
  }

  /** All rows are comparable iff those of the first table and those of the rest are. */
  lemma AllComparableCons(results: seq<seq<ScanResult>>, p: NodeScanProps)
    requires results != []
    ensures AllComparable(results, p) <==> (forall k :: 0 <= k < |results[0]| ==> Comparable(results[0][k], p)) && AllComparable(results[1..], p)
  {
    if (forall k :: 0 <= k < |results[0]| ==> Comparable(results[0][k], p)) && AllComparable(results[1..], p) {
      forall i, k | 0 <= i < |results| && 0 <= k < |results[i]| ensures Comparable(results[i][k], p) {
        if i > 0 {
          assert results[1..][i - 1] == results[i];
        }
      }
    }
  }

  /**
   * `is_in_scan_result(node, scan_results)` over a list of scan tables: the
   * search is true iff some row of some table matches, false iff none does,
   * and it raises only on a row it cannot compare (an energy-scan row, or a
   * channel that is not hex).
   */
  function IsInScanResult(p: NodeScanProps, results: seq<seq<ScanResult>>): (r: Result<bool>)
    ensures r.Ok? ==> (r.value <==> AnyMatch(results, p))
    ensures AllComparable(results, p) ==> r.Ok?
    decreases |results|
  {
    if results == [] then Ok(false)
    else
      AnyMatchCons(results, p);
      AllComparableCons(results, p);
      var found :- InScan(results[0], p);
      if found then Ok(true) else IsInScanResult(p, results[1..])
  }

  /** A list that holds an energy scan in front raises AttributeError, whatever the node. */
  lemma EnergyScanRaises(p: NodeScanProps, channel: string, rssi: string, rest: seq<seq<ScanResult>>)
    ensures IsInScanResult(p, [[ScanResult(EnergyScan, None, None, None, None, channel, None, None, rssi)]] + rest)
            == Err(AttributeError)
  {
    var results := [[ScanResult(EnergyScan, None, None, None, None, channel, None, None, rssi)]] + rest;
    assert results[0] == [ScanResult(EnergyScan, None, None, None, None, channel, None, None, rssi)];
  }
}
