# Reader/writer lock benchmark: results and result table

The benchmark in `main.cpp` times two locking strategies for a shared resource:
`std::shared_mutex` (readers share, writers exclude) and a plain `std::mutex`.
A `Benchmark` object queues `LockTester` configurations with `addTestCase`.
`run` measures each queued tester with both strategies and collects one
`Result` per tester. `printBenchmarkTable` prints the results as a
column-aligned text table.

This project models the result side of that class:

- `decimal.dfy` (module `Decimal`): `std::to_string` on integers, with a
  parser as its inverse.
- `ordered_map.dfy` (module `OrderedMap`): `std::map<std::string, long long>`,
  modelled as an association list whose keys are strictly ascending in
  `std::string` order. Iterating the map is walking the list.
- `benchmark_results.dfy` (module `BenchmarkResults`): the `LockTester` and
  `Result` records, `addTestCase`, the two timing methods and `run`. Each
  measured duration is an input in milliseconds.
- `layout.dfy` (module `Layout`): the text `std::setw` produces.
  - Cells are padded on the left and never truncated.
  - A separator line is runs of `-` closed by `+`.
  - A row is padded cells closed by ` |`.
  - Lines are described by their lengths and the character offsets of each
    column.
- `table.dfy` (module `BenchmarkTable`): `printBenchmarkTable` as a pure
  function from the results to the lines it writes. It covers the timing
  columns, the column widths, the header, the rows and the separators.
- `sample_run.dfy` (module `SampleRun`): the sample output in the header
  comment of `main.cpp`. The model's timing columns, widths, line count and
  line lengths for it agree with the comment, and so do its separator lines,
  character for character.

The doc comment on `printBenchmarkTable` (main.cpp:322-324) promises a
dynamic-width table. The code sizes only the timing columns by their
contents. It fixes each configuration column at `max(2, label length)`
(main.cpp:335-338): 7, 7, 5 and 7 characters. The model follows the code.
`BenchmarkTable.ReadsOverflow` shows the consequence: a read count of 100000
or more makes its row longer than the separator under it.

## Model

| member | source | states |
|---|---|---|
| OrderedMap.Keys | main.cpp:330-332 | Iterating a map visits every key exactly once, in strictly ascending string order, and visits nothing that is not a key. |
| OrderedMap.Find | main.cpp:345-346 | `find` succeeds exactly when the key is in the map, and then yields the value stored under that key. When it fails, no entry has that key. |
| OrderedMap.Put | main.cpp:180 | `m[k] = v` adds k to the key set and nothing else. Afterwards k finds v, and every other key finds what it found before. The result is still an ordered map. |
| OrderedMap.PutTwo | main.cpp:180-203 | Storing under one key and then under a greater key, starting from an empty map, leaves exactly those two entries in ascending order. |
| BenchmarkResults.NewBenchmark | main.cpp:414-415 | A new benchmark has no queued testers and no results. |
| BenchmarkResults.AddTestCase | main.cpp:289-292 | Exactly one tester is appended. It has the given configuration and an empty times map. Earlier testers and all results are unchanged. |
| BenchmarkResults.AddTestCases | main.cpp:289-292 | Chained `addTestCase` calls queue one tester per configuration, in call order, each with an empty times map. Earlier testers and the results are untouched. |
| BenchmarkResults.TestSharedMutex | main.cpp:166-181 | The measured time is recorded under "Shared Mutex Time". The key set gains exactly that key, every other entry is unchanged, and the configuration is kept. |
| BenchmarkResults.TestStandardMutex | main.cpp:189-204 | The measured time is recorded under "Standard Mutex Time". The key set gains exactly that key, every other entry is unchanged, and the configuration is kept. |
| BenchmarkResults.MeasuredTimes | main.cpp:303-304 | After both measurements, the tester's map has its earlier keys plus the two strategy keys, and each strategy key holds its measured time. A fresh tester's map is exactly those two entries, shared first. |
| BenchmarkResults.MeasureCase | main.cpp:302-313 | The result copies the tester's four configuration values. Its key set is the tester's keys plus the two strategy keys, each holding its measured time. For a fresh tester the map is exactly the two entries, shared first. |
| BenchmarkResults.RecordedKeys | main.cpp:303-307 | A result measured from a fresh tester has exactly the two strategy keys, iterated shared first and standard second. |
| BenchmarkResults.Run | main.cpp:301-316 | One result is appended per queued tester, in queue order, and earlier results are kept. Each new result records its tester's configuration and both measurements. A result measured from a fresh tester, as every tester queued by `addTestCase` is, holds exactly the two strategy keys. Testers keep their configurations and are left with empty maps. |
| Decimal.IntToString | main.cpp:347 | `std::to_string` output is non-empty. It starts with `-` exactly when the value is negative, and all other characters are digits. |
| Decimal.IntToStringRoundTrip | main.cpp:387 | Reading back a rendered integer gives the original value, so the rendering loses nothing. |
| Decimal.IntToStringInjective | main.cpp:387 | Two integers render as the same string exactly when they are equal. |
| Decimal.NatToStringLength | main.cpp:347 | A natural number has at most k digits exactly when it is below 10^k. |
| Layout.PadLeft | main.cpp:368-373 | `std::setw(w)` with a fill character writes the string whole. If the string is shorter than w, fill characters are added before it to make the total exactly w. It never truncates. |
| Layout.SeparatorShape | main.cpp:355-364 | A separator line starts with `+`. For each column of width w, at that column's offset, it has w + 2 dashes and a `+`. Its length is 1 plus the sum of the widths plus 3 per column. |
| Layout.SeparatorLength | main.cpp:355-364 | A separator line is 1 plus the sum of the widths plus 3 per column long. |
| Layout.SeparatorCloses | main.cpp:355-364 | In a separator line, each column is closed by a `+` at the offset after its dashes. |
| Layout.RowAligned | main.cpp:380-392 | When every cell fits, a row starts with `|`. At each column's offset it has a space, the cell right-aligned to the width by leading spaces, and " \|". The row is exactly as long as the separator. |
| Layout.RowLength | main.cpp:380-392 | A row whose cells fit is exactly as long as the separator for the same widths. |
| Layout.RowCloses | main.cpp:380-392 | In a row whose cells fit, each column's `|` is at the offset where the separator has its `+`. |
| Layout.RowPartLength | main.cpp:387-389 | A column of a row takes at least its width plus three characters. It takes more exactly when the cell is wider than the column. |
| Layout.RowOverflows | main.cpp:386-390 | A row with a cell wider than its column is longer than the separator, because the cell is written whole. |
| BenchmarkTable.FixedWidths | main.cpp:335-338 | The configuration columns are 7, 7, 5 and 7 wide: each is the length of its label. |
| BenchmarkTable.DynamicColumns | main.cpp:328-333 | The timing columns are the keys of the first result's map, in ascending order, with no key twice. There are none when there are no results. |
| BenchmarkTable.DataCell | main.cpp:384-390 | A cell is "N/A" exactly when the result has no entry for the column's key. Otherwise it is the value followed by " ms". |
| BenchmarkTable.ColumnWidthBound | main.cpp:342-352 | A timing column is at least as wide as its key and as every "<value> ms" cell any result holds for it. |
| BenchmarkTable.ColumnWidthAttained | main.cpp:342-352 | A timing column is no wider than needed. Its width equals the key's length or the length of some result's cell for that key. |
| BenchmarkTable.ColumnWidthOfKey | main.cpp:343-351 | When no cell for a key is longer than the key, the column is exactly as wide as the key. |
| BenchmarkTable.Widths | main.cpp:335-352 | The widths are the four fixed ones followed by one per timing column, in column order. |
| BenchmarkTable.DataCells | main.cpp:380-391 | A result's row holds its four configuration values, then one cell per timing column, in column order. |
| BenchmarkTable.InterleaveAt | main.cpp:379-394 | After the header block, line 2i is row i and line 2i + 1 is a separator. |
| BenchmarkTable.FrameShape | main.cpp:367-394 | Lines 0 and 2 are separators and line 1 is the header. For each row i, line 3 + 2i is row i and line 4 + 2i is a separator. |
| BenchmarkTable.TableShape | main.cpp:367-394 | The separator, header row and data rows are placed at the positions FrameShape gives, for any columns and widths. |
| BenchmarkTable.PrintBenchmarkTable | main.cpp:326-397 | The table has 3 + 2n lines for n results. |
| BenchmarkTable.TableLines | main.cpp:367-394 | The printed table is a separator, the header, a separator, then each result's row in order, each followed by a separator. All separators are the same line. |
| BenchmarkTable.EmptyTable | main.cpp:328-376 | Without results there are no timing columns. The table is three lines: a separator, the header with the four configuration labels, and a separator. |
| BenchmarkTable.HeaderFits | main.cpp:367-375 | Every header label fits its column, so the header line is never wider than the separator. |
| BenchmarkTable.IntToStringFits | main.cpp:380-383 | A rendered integer fits in k characters exactly when it lies strictly between -10^(k-1) and 10^k. |
| BenchmarkTable.ConfigFitsRange | main.cpp:380-383 | The configuration values fit their fixed columns exactly when readers, writers and updates each lie strictly between -10^6 and 10^7, and reads lies strictly between -10^4 and 10^5. |
| BenchmarkTable.RowFits | main.cpp:379-391 | A result's row fits exactly when its configuration fits and every timing column it has no entry for is at least 3 wide. Its time cells always fit. |
| BenchmarkTable.CellsFit | main.cpp:380-390 | If a row's time cells fit, the whole row fits exactly when its configuration fits and "N/A" fits every column it has no entry for. |
| BenchmarkTable.PlaceholderAlwaysFits | main.cpp:329-351 | Every timing column is at least four wide, because its key is held by the first result and a "<value> ms" cell is at least four characters. So "N/A" always fits. |
| BenchmarkTable.RowFitsIffConfig | main.cpp:379-391 | A result's row fits its columns exactly when its four configuration values fit their fixed columns. |
| BenchmarkTable.UniformLines | main.cpp:355-394 | When every row fits, every line of the table is exactly as long as the separator. |
| BenchmarkTable.AlignedWhenConfigInRange | main.cpp:335-394 | When every result's readers, writers and updates lie strictly between -10^6 and 10^7 and its reads strictly between -10^4 and 10^5, every line of the table is exactly as long as the separator. |
| BenchmarkTable.WideRow | main.cpp:384-393 | When some cell of a row does not fit, that row is printed longer than the separator below it. |
| BenchmarkTable.ReadsOverflow | main.cpp:337 | A read count of 100000 or more, or -10000 or less, makes its row longer than the separator below it, because the Reads column is always 5 wide. |
| BenchmarkTable.StrategyColumns | main.cpp:328-333 | After `run` on fresh testers, the timing columns are "Shared Mutex Time" and then "Standard Mutex Time". |
| BenchmarkTable.RecordedRow | main.cpp:380-390 | In the strategy columns, a recorded result's row holds the tester's configuration and then its two measured times in " ms" cells. |
| SampleRun.SampleLayout | main.cpp:22-28 | In the documented run, the timing columns are the two strategy keys and the widths are 7, 7, 5, 7, 17 and 19. |
| SampleRun.SampleRowsFit | main.cpp:25-27 | Both documented rows fit their columns. |
| SampleRun.SampleLines | main.cpp:22-28 | The documented table is 7 lines of 81 characters each. |
| SampleRun.SampleSeparatorText | main.cpp:22 | The separator for widths 7, 7, 5, 7, 17 and 19 is the separator line shown in the comment, character for character. |
| SampleRun.SampleSeparators | main.cpp:22-28 | Lines 0, 2, 4 and 6 of the printed sample are that separator line. |

## Left out

- The thread work inside `testSharedMutex` and `testStandardMutex` is not modelled. This covers the reader and writer threads, `SharedData`, `RandomStringGenerator` and the `volatile` sink. It is concurrency and randomness, and its only effect on the results is the elapsed time, which the model takes as an input.
- The clock is not modelled. Each test case's two durations are given in `Timing` as arbitrary integers. `high_resolution_clock` need not be steady, so a reading may be negative.
- `std::cout` and stream state are not modelled. The table is the sequence of lines written, and `std::endl` marks the end of a line.
- `main` (main.cpp:418-425) queues two test cases, runs them and prints the table. The model has no `main`. Its two configurations appear only in the documented sample in `SampleRun`.
- `int` and `long long` are modelled as unbounded integers. `static_cast<int>` of a string length cannot overflow for strings of realistic size.
- After `std::move(tester.times)`, the tester's map is modelled as empty. The standard only says it is valid but unspecified; the common library implementations leave it empty.
- Characters are Dafny `char`s, ordered by code point. `std::string` compares `char`s as unsigned bytes, which orders the ASCII keys here the same way.
