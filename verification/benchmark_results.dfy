/**
 The `Benchmark` class of main.cpp on its result side: `addTestCase` queues a
 `LockTester` configuration and `run` measures every queued tester with the
 shared mutex and then the standard mutex, moving each tester's `times` map
 into a `Result`. The measurements themselves are wall-clock readings around
 thread work, so they enter the model as given elapsed milliseconds.
 */
module BenchmarkResults {
  import opened OrderedMap

  /** The key `testSharedMutex` writes its elapsed time under. */
  const SharedKey: string := "Shared Mutex Time"
  /** The key `testStandardMutex` writes its elapsed time under. */
  const StandardKey: string := "Standard Mutex Time"
  const StrategyKeys: set<string> := {SharedKey, StandardKey}

  /** The four constructor arguments of a `LockTester`. */
  datatype Config = Config(numReaders: int, numWriters: int, numReads: int, numUpdates: int)

  /** A `LockTester` as `Benchmark` sees it: its configuration and its `times` map. */
  datatype LockTester = LockTester(config: Config, times: OrderedMap)

  /** `Benchmark::Result`: the timings of one test case and its configuration. */
  datatype Result = Result(times: OrderedMap, numReaders: int, numWriters: int, numReads: int, numUpdates: int)

  /**
   The elapsed milliseconds the two measurements of one test case report.
   The clock need not be steady, so a reading can be negative.
   */
  datatype Timing = Timing(shared: int, standard: int)

  /** The state of a `Benchmark` object: queued testers and collected results. */
  datatype Benchmark = Benchmark(testCases: seq<LockTester>, results: seq<Result>)

  /**
   Every queued tester's `times` map is empty: it is empty when the tester is
   constructed, and `run` moves it out into the result.
   */
  predicate Valid(b: Benchmark)
  {
    forall i :: 0 <= i < |b.testCases| ==> b.testCases[i].times == []
  }

  /** A default-constructed `Benchmark`. */
  function NewBenchmark(): (b: Benchmark)
    ensures Valid(b)
    ensures |b.testCases| == 0 && |b.results| == 0
  {
    Benchmark([], [])
  }

  /** `addTestCase`: queue a fresh tester, whose `times` map starts empty. */
  function AddTestCase(b: Benchmark, numReaders: int, numWriters: int, numReads: int, numUpdates: int): (b': Benchmark)
    ensures |b'.testCases| == |b.testCases| + 1
    ensures b'.testCases[..|b.testCases|] == b.testCases
    ensures b'.testCases[|b.testCases|].config == Config(numReaders, numWriters, numReads, numUpdates)
    ensures b'.testCases[|b.testCases|].times == []
    ensures b'.results == b.results
    ensures Valid(b) ==> Valid(b')
  {
    var t := LockTester(Config(numReaders, numWriters, numReads, numUpdates), []);
    assert (b.testCases + [t])[..|b.testCases|] == b.testCases;
    b.(testCases := b.testCases + [t])
  }

  /** The chained calls `addTestCase(c0)...addTestCase(cn)`, one per configuration. */
  function AddTestCases(b: Benchmark, configs: seq<Config>): (b': Benchmark)
    ensures |b'.testCases| == |b.testCases| + |configs|
    ensures b'.testCases[..|b.testCases|] == b.testCases
    ensures forall i :: |b.testCases| <= i < |b'.testCases| ==>
      b'.testCases[i].config == configs[i - |b.testCases|] && b'.testCases[i].times == []
    ensures b'.results == b.results
    ensures Valid(b) ==> Valid(b')
    decreases |configs|
  {
    if |configs| == 0 then b
    else
      var c := configs[|configs| - 1];
      var prior := AddTestCases(b, configs[..|configs| - 1]);
      var b' := AddTestCase(prior, c.numReaders, c.numWriters, c.numReads, c.numUpdates);
      assert forall i :: 0 <= i < |prior.testCases| ==> b'.testCases[i] == prior.testCases[i];
      b'
  }

  /** `testSharedMutex`: record the measured time under the shared-mutex key. */
  function TestSharedMutex(t: LockTester, elapsed: int): (t': LockTester)
    ensures t'.config == t.config
    ensures KeySet(t'.times) == KeySet(t.times) + {SharedKey}
    ensures Find(t'.times, SharedKey) == Some(elapsed)
    ensures forall k :: k != SharedKey ==> Find(t'.times, k) == Find(t.times, k)
  {
    t.(times := Put(t.times, SharedKey, elapsed))
  }

  /** `testStandardMutex`: record the measured time under the standard-mutex key. */
  function TestStandardMutex(t: LockTester, elapsed: int): (t': LockTester)
    ensures t'.config == t.config
    ensures KeySet(t'.times) == KeySet(t.times) + {StandardKey}
    ensures Find(t'.times, StandardKey) == Some(elapsed)
    ensures forall k :: k != StandardKey ==> Find(t'.times, k) == Find(t.times, k)
  {
    t.(times := Put(t.times, StandardKey, elapsed))
  }

  /** r is the result `run` makes of tester t measured with timing e. */
  ghost predicate Records(r: Result, t: LockTester, e: Timing)
  {
    && r.numReaders == t.config.numReaders
    && r.numWriters == t.config.numWriters
    && r.numReads == t.config.numReads
    && r.numUpdates == t.config.numUpdates
    && KeySet(r.times) == KeySet(t.times) + StrategyKeys
    && Find(r.times, SharedKey) == Some(e.shared)
    && Find(r.times, StandardKey) == Some(e.standard)
    && (t.times == [] ==> r.times == [(SharedKey, e.shared), (StandardKey, e.standard)])
  }

  /** The map a tester holds after both measurements. */
  lemma MeasuredTimes(t: LockTester, e: Timing)
    ensures var m := TestStandardMutex(TestSharedMutex(t, e.shared), e.standard).times;
      && KeySet(m) == KeySet(t.times) + StrategyKeys
      && Find(m, SharedKey) == Some(e.shared)
      && Find(m, StandardKey) == Some(e.standard)
      && (t.times == [] ==> m == [(SharedKey, e.shared), (StandardKey, e.standard)])
  {
    if t.times == [] {
      PutTwo(SharedKey, e.shared, StandardKey, e.standard);
    }
  }

  /**
   One iteration of `run`: measure t with the shared mutex, then with the
   standard mutex, and copy its map and configuration into a result.
   */
  method MeasureCase(t: LockTester, e: Timing) returns (r: Result)
    ensures Records(r, t, e)
  {
    var afterShared := TestSharedMutex(t, e.shared);
    var tester := TestStandardMutex(afterShared, e.standard);
    r := Result(tester.times, tester.config.numReaders, tester.config.numWriters,
                tester.config.numReads, tester.config.numUpdates);
    MeasuredTimes(t, e);
  }

  /**
   A result recorded from a fresh tester holds exactly the two strategy keys,
   the shared-mutex key first.
   */
  lemma RecordedKeys(r: Result, t: LockTester, e: Timing)
    requires Records(r, t, e)
    requires t.times == []
    ensures KeySet(r.times) == StrategyKeys
    ensures Keys(r.times) == [SharedKey, StandardKey]
  {
    assert KeySet(r.times) == StrategyKeys by {
      assert KeySet(t.times) == {};
    }
    var ks := Keys(r.times);
    assert r.times[0].0 == SharedKey && r.times[1].0 == StandardKey;
    assert |ks| == 2 && ks[0] == SharedKey && ks[1] == StandardKey;
  }

  lemma RecordsExtend(measured: seq<Result>, result: Result, cases: seq<LockTester>, elapsed: seq<Timing>, i: int)
    requires 0 <= i < |cases| == |elapsed| && |measured| == i
    requires forall j :: 0 <= j < i ==> Records(measured[j], cases[j], elapsed[j])
    requires Records(result, cases[i], elapsed[i])
    ensures forall j :: 0 <= j < i + 1 ==> Records((measured + [result])[j], cases[j], elapsed[j])
  {
    forall j | 0 <= j < i + 1
      ensures Records((measured + [result])[j], cases[j], elapsed[j])
    {
      if j < i {
        assert (measured + [result])[j] == measured[j];
      }
    }
  }

  lemma RecordsAfter(prior: seq<Result>, measured: seq<Result>, cases: seq<LockTester>, elapsed: seq<Timing>)
    requires |measured| == |cases| == |elapsed|
    requires forall j :: 0 <= j < |cases| ==> Records(measured[j], cases[j], elapsed[j])
    ensures forall j :: 0 <= j < |cases| ==> Records((prior + measured)[|prior| + j], cases[j], elapsed[j])
  {
    forall j | 0 <= j < |cases|
      ensures Records((prior + measured)[|prior| + j], cases[j], elapsed[j])
    {
      assert (prior + measured)[|prior| + j] == measured[j];
    }
  }

  /**
   `run`: measure every queued tester, shared mutex first, and append one result
   per tester in queue order. `elapsed[i]` is what the clock reports for tester i.
   Each tester keeps its configuration; its `times` map is moved out, leaving
   it empty.
   */
  method Run(b: Benchmark, elapsed: seq<Timing>) returns (b': Benchmark)
    requires |elapsed| == |b.testCases|
    ensures |b'.results| == |b.results| + |b.testCases|
    ensures b'.results[..|b.results|] == b.results
    ensures forall i :: 0 <= i < |b.testCases| ==>
      Records(b'.results[|b.results| + i], b.testCases[i], elapsed[i])
    ensures forall i :: 0 <= i < |b.testCases| && b.testCases[i].times == [] ==>
      KeySet(b'.results[|b.results| + i].times) == StrategyKeys
    ensures |b'.testCases| == |b.testCases|
    ensures forall i :: 0 <= i < |b.testCases| ==> b'.testCases[i].config == b.testCases[i].config
    ensures Valid(b')
  {
    var measured: seq<Result> := [];
    var i := 0;
    while i < |b.testCases|
      invariant 0 <= i <= |b.testCases|
      invariant |measured| == i
      invariant forall j :: 0 <= j < i ==> Records(measured[j], b.testCases[j], elapsed[j])
    {
      var result := MeasureCase(b.testCases[i], elapsed[i]);
      RecordsExtend(measured, result, b.testCases, elapsed, i);
      measured := measured + [result];
      i := i + 1;
    }
    var results := b.results + measured;
    assert results[..|b.results|] == b.results;
    RecordsAfter(b.results, measured, b.testCases, elapsed);
    forall j | 0 <= j < |b.testCases| && b.testCases[j].times == []
      ensures KeySet(results[|b.results| + j].times) == StrategyKeys
    {
      RecordedKeys(results[|b.results| + j], b.testCases[j], elapsed[j]);
    }
    var testers := seq(|b.testCases|, j requires 0 <= j < |b.testCases| => b.testCases[j].(times := []));
    b' := Benchmark(testers, results);
  }
}
