/**
 `Benchmark::printBenchmarkTable` as a pure function from the collected
 results to the lines it writes. The four configuration columns have fixed
 widths taken from their labels; one further column per key of the first
 result's `times` map is as wide as its key or its widest "<value> ms" cell.
 */
module BenchmarkTable {
  import opened Decimal
  import opened OrderedMap
  import opened BenchmarkResults
  import opened Layout

  /** The labels of the four configuration columns, in output order. */
  const FixedLabels: seq<string> := ["Readers", "Writers", "Reads", "Updates"]

  /** The cell written for a key a result does not hold. */
  const Placeholder: string := "N/A"

  /** `std::max(2, heading.length())` for a column heading. */
  function FixedWidth(heading: string): nat
  {
    if |heading| < 2 then 2 else |heading|
  }

  /** The widths of the configuration columns: each is its label's length. */
  function FixedWidths(): (ws: seq<nat>)
    ensures ws == [7, 7, 5, 7]
    ensures forall i :: 0 <= i < 4 ==> ws[i] == |FixedLabels[i]|
  {
    [FixedWidth(FixedLabels[0]), FixedWidth(FixedLabels[1]),
     FixedWidth(FixedLabels[2]), FixedWidth(FixedLabels[3])]
  }

  /**
   The timing columns: the keys of the first result's map in iteration
   order, which is ascending key order with no key twice; none without results.
   */
  function DynamicColumns(results: seq<Result>): (cols: seq<string>)
    ensures |results| == 0 ==> cols == []
    ensures |results| > 0 ==> |cols| == |results[0].times|
    ensures |results| > 0 ==> forall k :: k in cols <==> k in KeySet(results[0].times)
    ensures forall i, j :: 0 <= i < j < |cols| ==> StrLess(cols[i], cols[j])
  {
    if |results| == 0 then [] else Keys(results[0].times)
  }

  /** `std::to_string(v) + " ms"`. */
  function TimeCell(v: int): (cell: string)
    ensures |cell| == |IntToString(v)| + 3
  {
    IntToString(v) + " ms"
  }

  /**
   The cell of result r in the column for key col: its time followed by
   " ms" when r holds the key, the placeholder exactly when it does not.
   */
  function DataCell(r: Result, col: string): (cell: string)
    ensures cell == Placeholder <==> col !in KeySet(r.times)
    ensures Find(r.times, col).Some? ==> cell == TimeCell(Find(r.times, col).value)
  {
    match Find(r.times, col)
    case Some(v) => TimeCell(v)
    case None => Placeholder
  }

  /**
   The width of the column for key col: the key's length, raised to the
   length of each "<value> ms" cell a result holds for the key.
   */
  function ColumnWidth(col: string, results: seq<Result>): (w: nat)
    ensures |col| <= w
    decreases |results|
  {
    if |results| == 0 then |col|
    else
      var n := |results| - 1;
      var prior := ColumnWidth(col, results[..n]);
      match Find(results[n].times, col)
      case None => prior
      case Some(v) =>
        var dataLen := |IntToString(v)| + 3;
        if prior < dataLen then dataLen else prior
  }

  /** No time cell the results hold for key col is wider than the column for col. */
  lemma {:induction false} ColumnWidthBound(col: string, results: seq<Result>)
    ensures forall i :: 0 <= i < |results| && Find(results[i].times, col).Some? ==>
      |TimeCell(Find(results[i].times, col).value)| <= ColumnWidth(col, results)
    decreases |results|
  {
    if |results| > 0 {
      var n := |results| - 1;
      var w := ColumnWidth(col, results);
      var prior := ColumnWidth(col, results[..n]);
      assert prior <= w;
      forall i | 0 <= i < |results| && Find(results[i].times, col).Some?
        ensures |TimeCell(Find(results[i].times, col).value)| <= w
      {
        if i < n {
          assert results[..n][i] == results[i];
          ColumnWidthBound(col, results[..n]);
        }
      }
    }
  }

  /**
   The column for key col is no wider than it must be: its width is the
   length of col or of a time cell some result holds for col.
   */
  lemma {:induction false} ColumnWidthAttained(col: string, results: seq<Result>)
    ensures ColumnWidth(col, results) == |col| ||
      exists i :: (0 <= i < |results| && Find(results[i].times, col).Some? &&
                   ColumnWidth(col, results) == |TimeCell(Find(results[i].times, col).value)|)
    decreases |results|
  {
    if |results| > 0 {
      var n := |results| - 1;
      var w := ColumnWidth(col, results);
      if w != ColumnWidth(col, results[..n]) {
        assert w == |TimeCell(Find(results[n].times, col).value)|;
      } else if w != |col| {
        ColumnWidthAttained(col, results[..n]);
        var i :| 0 <= i < n && Find(results[..n][i].times, col).Some? &&
                 w == |TimeCell(Find(results[..n][i].times, col).value)|;
        assert results[..n][i] == results[i];
      }
    }
  }

  /** A column whose time cells are all no longer than its key is exactly as wide as the key. */
  lemma {:induction false} ColumnWidthOfKey(col: string, results: seq<Result>)
    requires forall i :: 0 <= i < |results| && Find(results[i].times, col).Some? ==>
      |TimeCell(Find(results[i].times, col).value)| <= |col|
    ensures ColumnWidth(col, results) == |col|
    decreases |results|
  {
    if |results| > 0 {
      var n := |results| - 1;
      assert forall i :: 0 <= i < n ==> results[..n][i] == results[i];
      ColumnWidthOfKey(col, results[..n]);
    }
  }

  function DynamicWidths(cols: seq<string>, results: seq<Result>): (ws: seq<nat>)
    ensures |ws| == |cols|
    ensures forall j :: 0 <= j < |cols| ==> ws[j] == ColumnWidth(cols[j], results)
  {
    seq(|cols|, j requires 0 <= j < |cols| => ColumnWidth(cols[j], results))
  }

  /** The widths of all columns: the configuration columns, then the timing columns. */
  function Widths(results: seq<Result>): (ws: seq<nat>)
    ensures |ws| == 4 + |DynamicColumns(results)|
    ensures ws[..4] == FixedWidths()
    ensures forall j :: 4 <= j < |ws| ==> ws[j] == ColumnWidth(DynamicColumns(results)[j - 4], results)
  {
    FixedWidths() + DynamicWidths(DynamicColumns(results), results)
  }

  /** The header row's cells: the configuration labels, then the timing keys. */
  function HeaderCells(cols: seq<string>): seq<string>
  {
    FixedLabels + cols
  }

  /** The configuration of a result as `operator<<` on `int` writes it. */
  function ConfigCells(r: Result): seq<string>
  {
    [IntToString(r.numReaders), IntToString(r.numWriters), IntToString(r.numReads), IntToString(r.numUpdates)]
  }

  /** A result row's cells: its configuration, then one cell per timing column. */
  function DataCells(r: Result, cols: seq<string>): (cells: seq<string>)
    ensures |cells| == 4 + |cols|
    ensures cells[..4] == ConfigCells(r)
    ensures forall j :: 0 <= j < |cols| ==> cells[4 + j] == DataCell(r, cols[j])
  {
    var config := ConfigCells(r);
    var timed := seq(|cols|, j requires 0 <= j < |cols| => DataCell(r, cols[j]));
    assert (config + timed)[..4] == config;
    config + timed
  }

  /** Each line of rows followed by the separator line sep. */
  function Interleave(rows: seq<string>, sep: string): (lines: seq<string>)
    ensures |lines| == 2 * |rows|
    decreases |rows|
  {
    if |rows| == 0 then [] else [rows[0], sep] + Interleave(rows[1..], sep)
  }

  /** Lines 2i and 2i + 1 of an interleaving are row i and the separator. */
  lemma {:induction false} InterleaveAt(rows: seq<string>, sep: string, i: int)
    requires 0 <= i < |rows|
    ensures Interleave(rows, sep)[2 * i] == rows[i]
    ensures Interleave(rows, sep)[2 * i + 1] == sep
    decreases i
  {
    if i > 0 {
      var rest := Interleave(rows[1..], sep);
      assert Interleave(rows, sep)[2 * i] == rest[2 * (i - 1)];
      assert Interleave(rows, sep)[2 * i + 1] == rest[2 * (i - 1) + 1];
      InterleaveAt(rows[1..], sep, i - 1);
    }
  }

  /** The row line of each result. */
  function RowLines(results: seq<Result>, cols: seq<string>, ws: seq<nat>): (rows: seq<string>)
    requires |ws| == 4 + |cols|
    ensures |rows| == |results|
  {
    seq(|results|, i requires 0 <= i < |results| => Row(DataCells(results[i], cols), ws))
  }

  /**
   A separator, the header, a separator, then each row followed by a
   separator: the frame every printed table has.
   */
  function Frame(header: string, rows: seq<string>, sep: string): (lines: seq<string>)
    ensures |lines| == 3 + 2 * |rows|
  {
    [sep, header, sep] + Interleave(rows, sep)
  }

  /** Where the separators, the header and each row sit in a frame. */
  lemma FrameShape(header: string, rows: seq<string>, sep: string)
    ensures Frame(header, rows, sep)[0] == sep
    ensures Frame(header, rows, sep)[1] == header
    ensures Frame(header, rows, sep)[2] == sep
    ensures forall i :: 0 <= i < |rows| ==>
      Frame(header, rows, sep)[3 + 2 * i] == rows[i] && Frame(header, rows, sep)[4 + 2 * i] == sep
  {
    var body := Interleave(rows, sep);
    var lines := Frame(header, rows, sep);
    forall i | 0 <= i < |rows|
      ensures lines[3 + 2 * i] == rows[i] && lines[4 + 2 * i] == sep
    {
      assert lines[3 + 2 * i] == body[2 * i] && lines[4 + 2 * i] == body[2 * i + 1];
      InterleaveAt(rows, sep, i);
    }
  }

  /** The lines the table is printed as once its columns and widths are known. */
  function Table(results: seq<Result>, cols: seq<string>, ws: seq<nat>): (lines: seq<string>)
    requires |ws| == 4 + |cols|
    ensures |lines| == 3 + 2 * |results|
  {
    Frame(Row(HeaderCells(cols), ws), RowLines(results, cols, ws), Separator(ws))
  }

  /** The table's lines for given columns and widths, line by line. */
  lemma TableShape(results: seq<Result>, cols: seq<string>, ws: seq<nat>)
    requires |ws| == 4 + |cols|
    ensures Table(results, cols, ws)[0] == Separator(ws)
    ensures Table(results, cols, ws)[1] == Row(HeaderCells(cols), ws)
    ensures Table(results, cols, ws)[2] == Separator(ws)
    ensures forall i :: 0 <= i < |results| ==>
      && Table(results, cols, ws)[3 + 2 * i] == Row(DataCells(results[i], cols), ws)
      && Table(results, cols, ws)[4 + 2 * i] == Separator(ws)
  {
    FrameShape(Row(HeaderCells(cols), ws), RowLines(results, cols, ws), Separator(ws));
  }

  /** `printBenchmarkTable`: the timing columns and all widths, then the table lines. */
  function PrintBenchmarkTable(results: seq<Result>): (lines: seq<string>)
    ensures |lines| == 3 + 2 * |results|
  {
    Table(results, DynamicColumns(results), Widths(results))
  }

  /**
   The printed table is a separator, the header, a separator, and then for
   each result in order its row followed by a separator; every separator is
   the same line.
   */
  lemma TableLines(results: seq<Result>)
    ensures PrintBenchmarkTable(results)[0] == Separator(Widths(results))
    ensures PrintBenchmarkTable(results)[1] == Row(HeaderCells(DynamicColumns(results)), Widths(results))
    ensures PrintBenchmarkTable(results)[2] == Separator(Widths(results))
    ensures forall i :: 0 <= i < |results| ==>
      && PrintBenchmarkTable(results)[3 + 2 * i] == Row(DataCells(results[i], DynamicColumns(results)), Widths(results))
      && PrintBenchmarkTable(results)[4 + 2 * i] == Separator(Widths(results))
  {
    TableShape(results, DynamicColumns(results), Widths(results));
  }

  /**
   Without results there are no timing columns: the table is the header
   with the four configuration labels between two separators.
   */
  lemma EmptyTable()
    ensures PrintBenchmarkTable([]) ==
      [Separator(FixedWidths()), Row(FixedLabels, FixedWidths()), Separator(FixedWidths())]
  {
    var ws := FixedWidths();
    assert Widths([]) == ws by {
      assert Widths([]) == Widths([])[..4];
    }
    assert HeaderCells(DynamicColumns([])) == FixedLabels by {
      assert FixedLabels + [] == FixedLabels;
    }
    var lines := PrintBenchmarkTable([]);
    assert lines[0] == Separator(ws) && lines[1] == Row(FixedLabels, ws) && lines[2] == Separator(ws) by {
      TableLines([]);
    }
  }

  /** Every header label fits its column, so the header is never wider than the separator. */
  lemma HeaderFits(results: seq<Result>)
    ensures Fits(HeaderCells(DynamicColumns(results)), Widths(results))
  {
    var cols := DynamicColumns(results);
    var ws := Widths(results);
    var cells := HeaderCells(cols);
    forall k | 0 <= k < |ws|
      ensures |cells[k]| <= ws[k]
    {
      if k < 4 {
        assert ws[k] == ws[..4][k];
      }
    }
  }

  /**
   A rendered integer fits in k characters exactly when it lies strictly
   between -10^(k-1) and 10^k: a negative value spends one character on its sign.
   */
  lemma IntToStringFits(n: int, k: nat)
    requires k >= 1
    ensures |IntToString(n)| <= k <==> -(Pow10(k - 1) as int) < n < Pow10(k)
  {
    if n < 0 {
      NegativeFits(n, k);
    } else {
      assert IntToString(n) == NatToString(n);
      NatToStringLength(n, k);
    }
  }

  /** A negative value's rendering is its sign and then the digits of its magnitude. */
  lemma NegativeFits(n: int, k: nat)
    requires n < 0 && k >= 1
    ensures |IntToString(n)| <= k <==> -(Pow10(k - 1) as int) < n
  {
    var m: nat := -n;
    var digits := NatToString(m);
    assert |IntToString(n)| == 1 + |digits| by {
      assert IntToString(n) == "-" + digits;
    }
    if k == 1 {
      assert Pow10(0) == 1;
    } else {
      assert |digits| <= k - 1 <==> m < Pow10(k - 1) by {
        NatToStringLength(m, k - 1);
      }
    }
  }

  /**
   The configuration cells of a result fit their fixed columns exactly when
   each value lies in the range its column's width leaves room for.
   */
  lemma ConfigFitsRange(r: Result)
    ensures Fits(ConfigCells(r), FixedWidths()) <==>
      && -1_000_000 < r.numReaders < 10_000_000
      && -1_000_000 < r.numWriters < 10_000_000
      && -10_000 < r.numReads < 100_000
      && -1_000_000 < r.numUpdates < 10_000_000
  {
    assert Pow10(4) == 10_000 && Pow10(5) == 100_000;
    assert Pow10(6) == 1_000_000 && Pow10(7) == 10_000_000;
    IntToStringFits(r.numReaders, 7);
    IntToStringFits(r.numWriters, 7);
    IntToStringFits(r.numReads, 5);
    IntToStringFits(r.numUpdates, 7);
  }

  /**
   Result i's row fits its columns exactly when its configuration fits the
   fixed columns and every timing column it has no entry for is at least three
   wide, room for the placeholder. Its time cells always fit.
   */
  lemma RowFits(results: seq<Result>, i: int)
    requires 0 <= i < |results|
    ensures Fits(DataCells(results[i], DynamicColumns(results)), Widths(results)) <==>
      && Fits(ConfigCells(results[i]), FixedWidths())
      && forall j :: 0 <= j < |DynamicColumns(results)| && DynamicColumns(results)[j] !in KeySet(results[i].times) ==>
           |Placeholder| <= ColumnWidth(DynamicColumns(results)[j], results)
  {
    var cols := DynamicColumns(results);
    var ws := Widths(results);
    forall j | 0 <= j < |cols| && Find(results[i].times, cols[j]).Some?
      ensures |TimeCell(Find(results[i].times, cols[j]).value)| <= ws[4 + j]
    {
      ColumnWidthBound(cols[j], results);
    }
    CellsFit(results[i], cols, ws);
  }

  /**
   A row whose time cells fit their columns fits as a whole exactly when its
   configuration fits the fixed columns and the placeholder fits every timing
   column the row has no entry for.
   */
  lemma CellsFit(r: Result, cols: seq<string>, ws: seq<nat>)
    requires |ws| == 4 + |cols|
    requires ws[..4] == FixedWidths()
    requires forall j :: 0 <= j < |cols| && Find(r.times, cols[j]).Some? ==>
      |TimeCell(Find(r.times, cols[j]).value)| <= ws[4 + j]
    ensures Fits(DataCells(r, cols), ws) <==>
      && Fits(ConfigCells(r), FixedWidths())
      && forall j :: 0 <= j < |cols| && cols[j] !in KeySet(r.times) ==> |Placeholder| <= ws[4 + j]
  {
    var cells := DataCells(r, cols);
    assert forall k :: 0 <= k < 4 ==> cells[k] == cells[..4][k] && ws[k] == ws[..4][k];
    assert forall j :: 0 <= j < |cols| ==> cells[4 + j] == DataCell(r, cols[j]);
  }

  /**
   When every row fits its columns, every line of the printed table is
   exactly as long as the separator.
   */
  lemma UniformLines(results: seq<Result>)
    requires forall i :: 0 <= i < |results| ==>
      Fits(DataCells(results[i], DynamicColumns(results)), Widths(results))
    ensures forall n :: 0 <= n < |PrintBenchmarkTable(results)| ==>
      |PrintBenchmarkTable(results)[n]| == 1 + Span(Widths(results))
  {
    var cols := DynamicColumns(results);
    var ws := Widths(results);
    var lines := PrintBenchmarkTable(results);
    var len := 1 + Span(ws);
    assert |lines[0]| == len && |lines[1]| == len && |lines[2]| == len by {
      TableLines(results);
      HeaderFits(results);
      RowLength(HeaderCells(cols), ws);
      SeparatorLength(ws);
    }
    forall i | 0 <= i < |results|
      ensures |lines[3 + 2 * i]| == len && |lines[4 + 2 * i]| == len
    {
      TableLines(results);
      RowLength(DataCells(results[i], cols), ws);
      SeparatorLength(ws);
    }
    SameLength(lines, len, |results|);
  }

  /**
   Every timing column is a key of the first result, whose "<value> ms" cell
   is at least four characters, so "N/A" always fits with room to spare.
   */
  lemma PlaceholderAlwaysFits(results: seq<Result>, j: int)
    requires 0 <= j < |DynamicColumns(results)|
    ensures |Placeholder| < ColumnWidth(DynamicColumns(results)[j], results)
  {
    var col := DynamicColumns(results)[j];
    assert col in KeySet(results[0].times);
    var v := Find(results[0].times, col).value;
    ColumnWidthBound(col, results);
    assert |TimeCell(v)| <= ColumnWidth(col, results);
  }

  /** A result's row fits its columns exactly when its configuration fits the fixed columns. */
  lemma RowFitsIffConfig(results: seq<Result>, i: int)
    requires 0 <= i < |results|
    ensures Fits(DataCells(results[i], DynamicColumns(results)), Widths(results)) <==>
      Fits(ConfigCells(results[i]), FixedWidths())
  {
    var cols := DynamicColumns(results);
    forall j | 0 <= j < |cols|
      ensures |Placeholder| <= ColumnWidth(cols[j], results)
    {
      PlaceholderAlwaysFits(results, j);
    }
    RowFits(results, i);
  }

  /**
   When every configuration value lies in the range its fixed column can
   hold, every line of the printed table is exactly as long as the separator.
   */
  lemma AlignedWhenConfigInRange(results: seq<Result>)
    requires forall i :: 0 <= i < |results| ==>
      && -1_000_000 < results[i].numReaders < 10_000_000
      && -1_000_000 < results[i].numWriters < 10_000_000
      && -10_000 < results[i].numReads < 100_000
      && -1_000_000 < results[i].numUpdates < 10_000_000
    ensures forall n :: 0 <= n < |PrintBenchmarkTable(results)| ==>
      |PrintBenchmarkTable(results)[n]| == 1 + Span(Widths(results))
  {
    forall i | 0 <= i < |results|
      ensures Fits(DataCells(results[i], DynamicColumns(results)), Widths(results))
    {
      ConfigFitsRange(results[i]);
      RowFitsIffConfig(results, i);
    }
    UniformLines(results);
  }

  /**
   A row with a cell wider than its column is printed longer than the
   separator under it: `std::setw` pads but never truncates.
   */
  lemma WideRow(results: seq<Result>, i: int)
    requires 0 <= i < |results|
    requires !Fits(DataCells(results[i], DynamicColumns(results)), Widths(results))
    ensures |PrintBenchmarkTable(results)[3 + 2 * i]| > |PrintBenchmarkTable(results)[4 + 2 * i]|
  {
    var cols := DynamicColumns(results);
    var ws := Widths(results);
    var cells := DataCells(results[i], cols);
    var j :| 0 <= j < |ws| && |cells[j]| > ws[j];
    TableLines(results);
    RowOverflows(cells, ws, j);
    SeparatorLength(ws);
  }

  /**
   The Reads column is five wide whatever the data, so a result with a read
   count of 100000 or more, or of -10000 or less, breaks the table's alignment.
   */
  lemma ReadsOverflow(results: seq<Result>, i: int)
    requires 0 <= i < |results|
    requires results[i].numReads >= 100_000 || results[i].numReads <= -10_000
    ensures |PrintBenchmarkTable(results)[3 + 2 * i]| > |PrintBenchmarkTable(results)[4 + 2 * i]|
  {
    ConfigFitsRange(results[i]);
    RowFits(results, i);
    WideRow(results, i);
  }

  /** A table whose header block, rows and following separators all have length len. */
  lemma SameLength(lines: seq<string>, len: nat, count: nat)
    requires |lines| == 3 + 2 * count
    requires |lines[0]| == len && |lines[1]| == len && |lines[2]| == len
    requires forall i :: 0 <= i < count ==> |lines[3 + 2 * i]| == len && |lines[4 + 2 * i]| == len
    ensures forall n :: 0 <= n < |lines| ==> |lines[n]| == len
  {
    forall n | 3 <= n < |lines|
      ensures |lines[n]| == len
    {
      var i := (n - 3) / 2;
      assert n == 3 + 2 * i || n == 4 + 2 * i;
    }
  }

  /**
   After `run`, the first result's map holds exactly the two strategy keys, so
   the timing columns are the shared-mutex time and then the standard-mutex time.
   */
  lemma StrategyColumns(results: seq<Result>, t: LockTester, e: Timing)
    requires |results| > 0
    requires Records(results[0], t, e)
    requires t.times == []
    ensures DynamicColumns(results) == [SharedKey, StandardKey]
  {
  }

  /**
   The row of a result `run` recorded for tester t with timing e, in the
   strategy columns: t's configuration, then both measured times in " ms" cells.
   */
  lemma RecordedRow(r: Result, t: LockTester, e: Timing)
    requires Records(r, t, e)
    ensures DataCells(r, [SharedKey, StandardKey]) ==
      [IntToString(t.config.numReaders), IntToString(t.config.numWriters),
       IntToString(t.config.numReads), IntToString(t.config.numUpdates),
       TimeCell(e.shared), TimeCell(e.standard)]
  {
    var cells := DataCells(r, [SharedKey, StandardKey]);
    assert cells[4] == TimeCell(e.shared) by {
      assert cells[4] == DataCell(r, SharedKey);
    }
    assert cells[5] == TimeCell(e.standard) by {
      assert cells[5] == DataCell(r, StandardKey);
    }
    forall k | 0 <= k < 4
      ensures cells[k] == ConfigCells(r)[k]
    {
      assert cells[k] == cells[..4][k];
    }
  }
}
