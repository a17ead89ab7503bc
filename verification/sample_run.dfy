/**
 The run main.cpp's header comment shows: two test cases with 100 readers,
 5 writers and 10000 reads each, with 1 and 10 updates, measured at 1501 ms
 and 3012 ms, then 1460 ms and 2904 ms. The table printed for them has the
 two strategy columns, 17 and 19 wide, and seven lines of 81 characters.
 */
module SampleRun {
  import opened Decimal
  import opened OrderedMap
  import opened BenchmarkResults
  import opened Layout
  import opened BenchmarkTable

  /** The two results of the documented run. */
  function Sample(): seq<Result>
  {
    [
      Result([(SharedKey, 1501), (StandardKey, 3012)], 100, 5, 10000, 1),
      Result([(SharedKey, 1460), (StandardKey, 2904)], 100, 5, 10000, 10)
    ]
  }

  /** Every time in the sample is four digits, so its cell is seven characters. */
  lemma SampleTimeCells(i: int, col: string)
    requires 0 <= i < 2 && (col == SharedKey || col == StandardKey)
    ensures Find(Sample()[i].times, col).Some?
    ensures |TimeCell(Find(Sample()[i].times, col).value)| == 7
  {
    var m := Sample()[i].times;
    assert m[0].0 == SharedKey && m[1].0 == StandardKey;
    assert col in KeySet(m);
    var v := Find(m, col).value;
    assert 1000 <= v < 10000 by {
      assert (col, v) in m;
    }
    IntToStringFits(v, 4);
    IntToStringFits(v, 3);
  }

  /** Both keys are longer than any sample time cell, so each column is as wide as its key. */
  lemma SampleColumnWidth(col: string)
    requires col == SharedKey || col == StandardKey
    ensures ColumnWidth(col, Sample()) == |col|
  {
    forall i | 0 <= i < |Sample()| && Find(Sample()[i].times, col).Some?
      ensures |TimeCell(Find(Sample()[i].times, col).value)| <= |col|
    {
      SampleTimeCells(i, col);
    }
    ColumnWidthOfKey(col, Sample());
  }

  /** The first sample map holds the two strategy keys, so they are the timing columns. */
  lemma SampleColumns()
    ensures DynamicColumns(Sample()) == [SharedKey, StandardKey]
  {
    var cols := DynamicColumns(Sample());
    assert |cols| == 2 && cols[0] == SharedKey && cols[1] == StandardKey;
  }

  lemma SampleLayout()
    ensures DynamicColumns(Sample()) == [SharedKey, StandardKey]
    ensures Widths(Sample()) == [7, 7, 5, 7, 17, 19]
  {
    SampleColumns();
    var ws := Widths(Sample());
    assert ws[4] == 17 && ws[5] == 19 by {
      SampleColumnWidth(SharedKey);
      SampleColumnWidth(StandardKey);
    }
    assert ws[0] == ws[..4][0] && ws[1] == ws[..4][1] && ws[2] == ws[..4][2] && ws[3] == ws[..4][3];
  }

  /** The sample configurations are within the ranges the fixed columns leave room for. */
  lemma SampleConfigFits(i: int)
    requires 0 <= i < |Sample()|
    ensures Fits(ConfigCells(Sample()[i]), FixedWidths())
  {
    var r := Sample()[i];
    assert r.numReaders == 100 && r.numWriters == 5 && r.numReads == 10000;
    assert r.numUpdates == 1 || r.numUpdates == 10;
    ConfigFitsRange(r);
  }

  /** Every sample result holds both timing columns' keys. */
  lemma SampleNoneMissing(i: int)
    requires 0 <= i < |Sample()|
    ensures forall j :: 0 <= j < |DynamicColumns(Sample())| ==> DynamicColumns(Sample())[j] in KeySet(Sample()[i].times)
  {
    SampleColumns();
    SampleTimeCells(i, SharedKey);
    SampleTimeCells(i, StandardKey);
  }

  /** The sample's rows fit their columns. */
  lemma SampleRowsFit(i: int)
    requires 0 <= i < |Sample()|
    ensures Fits(DataCells(Sample()[i], DynamicColumns(Sample())), Widths(Sample()))
  {
    SampleConfigFits(i);
    SampleNoneMissing(i);
    RowFits(Sample(), i);
  }

  lemma SampleSpan()
    ensures 1 + Span([7, 7, 5, 7, 17, 19]) == 81
  {
    var ws: seq<nat> := [7, 7, 5, 7, 17, 19];
    assert Span(ws[..1]) == 10 by {
      assert ws[..1][..0] == [];
    }
    assert Span(ws[..2]) == 20 by {
      assert ws[..2][..1] == ws[..1];
    }
    assert Span(ws[..3]) == 28 by {
      assert ws[..3][..2] == ws[..2];
    }
    assert Span(ws[..4]) == 38 by {
      assert ws[..4][..3] == ws[..3];
    }
    assert Span(ws[..5]) == 58 by {
      assert ws[..5][..4] == ws[..4];
    }
    assert ws[..6] == ws;
  }

  /** The printed sample is seven lines, each 81 characters long, as in the comment. */
  lemma SampleLines()
    ensures |PrintBenchmarkTable(Sample())| == 7
    ensures forall n :: 0 <= n < 7 ==> |PrintBenchmarkTable(Sample())[n]| == 81
  {
    forall i | 0 <= i < |Sample()|
      ensures Fits(DataCells(Sample()[i], DynamicColumns(Sample())), Widths(Sample()))
    {
      SampleRowsFit(i);
    }
    UniformLines(Sample());
    assert 1 + Span(Widths(Sample())) == 81 by {
      SampleLayout();
      SampleSpan();
    }
  }

  /** A six-part concatenation is its parts in order. */
  lemma ConcatSix(p: seq<string>)
    requires |p| == 6
    ensures Concat(p) == p[0] + p[1] + p[2] + p[3] + p[4] + p[5]
  {
    assert Concat(p[..1]) == p[0] by { assert p[..1][..0] == []; }
    assert Concat(p[..2]) == p[0] + p[1] by { assert p[..2][..1] == p[..1]; }
    assert Concat(p[..3]) == p[0] + p[1] + p[2] by { assert p[..3][..2] == p[..2]; }
    assert Concat(p[..4]) == p[0] + p[1] + p[2] + p[3] by { assert p[..4][..3] == p[..3]; }
    assert Concat(p[..5]) == p[0] + p[1] + p[2] + p[3] + p[4] by { assert p[..5][..4] == p[..4]; }
  }

  /** A separator part is the string of its width plus two dashes and a "+". */
  lemma SeparatorPartText(w: nat, s: string)
    requires |s| == w + 3
    requires forall k :: 0 <= k < w + 2 ==> s[k] == '-'
    requires s[w + 2] == '+'
    ensures SeparatorPart(w) == s
  {
    SeparatorPartShape(w);
  }

  /** The separator parts of the configuration columns, 7 and 5 wide. */
  lemma ConfigRuleParts()
    ensures SeparatorPart(7) == "---------+"
    ensures SeparatorPart(5) == "-------+"
  {
    SeparatorPartText(7, "---------+");
    SeparatorPartText(5, "-------+");
  }

  /** The separator parts of the two strategy columns, 17 and 19 wide. */
  lemma TimingRuleParts()
    ensures SeparatorPart(17) == "-------------------+"
    ensures SeparatorPart(19) == "---------------------+"
  {
    SeparatorPartText(17, "-------------------+");
    SeparatorPartText(19, "---------------------+");
  }

  /** The separator line of the documented run, column by column. */
  const SampleRule: string :=
    "+" + ("---------+" + "---------+" + "-------+" + "---------+" + "-------------------+" + "---------------------+")

  /** A separator for six columns is "+" followed by the six column parts. */
  lemma SixColumnSeparator(ws: seq<nat>, a: string, b: string, c: string, d: string, e: string, f: string)
    requires |ws| == 6
    requires SeparatorPart(ws[0]) == a && SeparatorPart(ws[1]) == b && SeparatorPart(ws[2]) == c
    requires SeparatorPart(ws[3]) == d && SeparatorPart(ws[4]) == e && SeparatorPart(ws[5]) == f
    ensures Separator(ws) == "+" + (a + b + c + d + e + f)
  {
    var parts := SeparatorParts(ws);
    assert parts[0] == a && parts[1] == b && parts[2] == c;
    assert parts[3] == d && parts[4] == e && parts[5] == f;
    ConcatSix(parts);
  }

  /** The separator for the sample's widths, character for character. */
  lemma SampleSeparatorText()
    ensures Separator([7, 7, 5, 7, 17, 19]) == SampleRule
  {
    ConfigRuleParts();
    TimingRuleParts();
    SixColumnSeparator([7, 7, 5, 7, 17, 19], "---------+", "---------+", "-------+", "---------+",
      "-------------------+", "---------------------+");
  }

  /** The separator lines 0, 2, 4 and 6 of a two-result table are all the same line. */
  lemma TwoResultSeparators(results: seq<Result>, rule: string)
    requires |results| == 2
    requires Separator(Widths(results)) == rule
    ensures PrintBenchmarkTable(results)[0] == rule && PrintBenchmarkTable(results)[2] == rule
    ensures PrintBenchmarkTable(results)[4] == rule && PrintBenchmarkTable(results)[6] == rule
  {
    TableLines(results);
  }

  /** Every separator line of the printed sample is the one shown in the comment. */
  lemma SampleSeparators()
    ensures PrintBenchmarkTable(Sample())[0] == SampleRule
    ensures PrintBenchmarkTable(Sample())[2] == SampleRule
    ensures PrintBenchmarkTable(Sample())[4] == SampleRule
    ensures PrintBenchmarkTable(Sample())[6] == SampleRule
  {
    assert Separator(Widths(Sample())) == SampleRule by {
      SampleLayout();
      SampleSeparatorText();
    }
    TwoResultSeparators(Sample(), SampleRule);
  }
}
