/**
 * The collection cycle: per-worker collectors (`collect_data_for_pairs`,
 * `collect_bitget_data`) and `collect_and_store_data`, which plans the
 * workers, joins their results in submission order and hands a non-empty
 * batch to storage. Workers are run one after another; a worker that raises
 * is named in `crashed` and contributes nothing.
 */
module Collector {
  import opened Wrappers
  import opened Seqs
  import opened Partition
  import opened Registry
  import opened Exchange

  datatype Venue = Binance | Bitget

  /** The replies both exchanges give during this cycle. */
  datatype Network = Network(binance: BinanceApi, bitget: BitgetApi)

  /** One row of `um_data`: the dict a collector appends, with `timestamp` and `symbol` set. */
  datatype MetricRecord = MetricRecord(timestamp: int, symbol: string, metrics: Metrics)

  /** One submitted worker: which collector it runs and on which symbols. */
  datatype Job = Job(venue: Venue, pairs: seq<string>)

  /** What the venue's `get_*_data(symbol)` returns. */
  function Fetch(net: Network, venue: Venue, symbol: string): Option<Metrics>
  {
    match venue
    case Binance => BinanceFetch(net.binance, symbol)
    case Bitget => BitgetFetch(net.bitget, symbol)
  }

  // ---------------------------------------------------------------------------
  // One worker

  /** What a worker returns for `pairs`: one stamped record per fetched symbol, in input order. */
  function Collected(pairs: seq<string>, now: int, net: Network, venue: Venue): seq<MetricRecord>
  {
    if |pairs| == 0 then []
    else
      var symbol := pairs[|pairs| - 1];
      Collected(pairs[..|pairs| - 1], now, net, venue)
        + match Fetch(net, venue, symbol)
          case Some(m) => [MetricRecord(now, symbol, m)]
          case None => []
  }

  /** `collect_data_for_pairs`. */
  method CollectDataForPairs(pairs: seq<string>, currentTime: int, net: Network)
    returns (threadData: seq<MetricRecord>)
    ensures threadData == Collected(pairs, currentTime, net, Binance)
  {
    threadData := [];
    for i := 0 to |pairs|
      invariant threadData == Collected(pairs[..i], currentTime, net, Binance)
    {
      var symbol := pairs[i];
      assert pairs[..i + 1][..i] == pairs[..i];
      var data := GetBinanceData(symbol, net.binance);
      if data.Some? {
        threadData := threadData + [MetricRecord(currentTime, symbol, data.value)];
      }
    }
    assert pairs[..|pairs|] == pairs;
  }

  /** `collect_bitget_data`. */
  method CollectBitgetData(pairs: seq<string>, currentTime: int, net: Network)
    returns (threadData: seq<MetricRecord>)
    ensures threadData == Collected(pairs, currentTime, net, Bitget)
  {
    threadData := [];
    for i := 0 to |pairs|
      invariant threadData == Collected(pairs[..i], currentTime, net, Bitget)
    {
      var symbol := pairs[i];
      assert pairs[..i + 1][..i] == pairs[..i];
      var data := GetBitgetData(symbol, net.bitget);
      if data.Some? {
        threadData := threadData + [MetricRecord(currentTime, symbol, data.value)];
      }
    }
    assert pairs[..|pairs|] == pairs;
  }

  /**
   * A worker's output holds only fetched symbols of its input, each stamped
   * with the shared time and carrying what its fetch returned, and is no
   * longer than its input.
   */
  lemma {:induction false} CollectedSound(pairs: seq<string>, now: int, net: Network, venue: Venue)
    ensures |Collected(pairs, now, net, venue)| <= |pairs|
    ensures forall r :: r in Collected(pairs, now, net, venue) ==>
      r.timestamp == now && r.symbol in pairs && Fetch(net, venue, r.symbol) == Some(r.metrics)
  {
    if |pairs| > 0 {
      CollectedSound(pairs[..|pairs| - 1], now, net, venue);
    }
  }

  /** Every fetched symbol of the input has its record in the output. */
  lemma {:induction false} CollectedComplete(pairs: seq<string>, now: int, net: Network, venue: Venue, symbol: string)
    requires symbol in pairs && Fetch(net, venue, symbol).Some?
    ensures MetricRecord(now, symbol, Fetch(net, venue, symbol).value) in Collected(pairs, now, net, venue)
  {
    var init := pairs[..|pairs| - 1];
    if symbol in init {
      CollectedComplete(init, now, net, venue, symbol);
    } else {
      assert pairs == init + [pairs[|pairs| - 1]];
    }
  }

  /** A worker none of whose symbols can be fetched returns nothing. */
  lemma {:induction false} CollectedNoneFetched(pairs: seq<string>, now: int, net: Network, venue: Venue)
    requires forall s :: s in pairs ==> Fetch(net, venue, s).None?
    ensures Collected(pairs, now, net, venue) == []
  {
    if |pairs| > 0 {
      CollectedNoneFetched(pairs[..|pairs| - 1], now, net, venue);
    }
  }

  /** Collecting two lists one after the other is collecting their concatenation. */
  lemma {:induction false} CollectedAppend(a: seq<string>, b: seq<string>, now: int, net: Network, venue: Venue)
    ensures Collected(a + b, now, net, venue) == Collected(a, now, net, venue) + Collected(b, now, net, venue)
  {
    if |b| == 0 {
      assert a + b == a;
    } else {
      assert (a + b)[..|a + b| - 1] == a + b[..|b| - 1];
      CollectedAppend(a, b[..|b| - 1], now, net, venue);
    }
  }

  // ---------------------------------------------------------------------------
  // Planning the workers

  /** `max(1, num_threads - 1)`: how many Binance workers share the Binance symbols. */
  function BinanceWorkers(numThreads: int): (w: int)
    ensures w >= 1
    ensures numThreads <= 1 ==> w == 1
    ensures numThreads >= 2 ==> w == numThreads - 1
  {
    Max(1, numThreads - 1)
  }

  /** One Binance job per chunk, in chunk order. */
  function BinanceJobs(chunks: seq<seq<string>>): (jobs: seq<Job>)
    ensures |jobs| == |chunks|
    ensures forall i :: 0 <= i < |jobs| ==> jobs[i] == Job(Binance, chunks[i])
  {
    seq(|chunks|, i requires 0 <= i < |chunks| => Job(Binance, chunks[i]))
  }

  /** The `futures` list: Binance chunks first (none for no Binance symbols), then one Bitget job if any. */
  function PlanJobs(binancePairs: seq<string>, bitgetPairs: seq<string>, numThreads: int): seq<Job>
  {
    (if |binancePairs| > 0 then BinanceJobs(SplitList(binancePairs, BinanceWorkers(numThreads))) else [])
      + (if |bitgetPairs| > 0 then [Job(Bitget, bitgetPairs)] else [])
  }

  /** The symbols of the jobs, in job order. */
  function JobPairs(jobs: seq<Job>): (pairs: seq<seq<string>>)
    ensures |pairs| == |jobs|
    ensures forall i :: 0 <= i < |jobs| ==> pairs[i] == jobs[i].pairs
  {
    seq(|jobs|, i requires 0 <= i < |jobs| => jobs[i].pairs)
  }

  /**
   * The plan: `max(1, num_threads - 1)` Binance workers when there are
   * Binance symbols and none otherwise, one Bitget worker holding the whole
   * Bitget list when there are Bitget symbols and none otherwise, and the
   * workers' lists together are exactly the Binance symbols followed by the
   * Bitget symbols.
   */
  lemma PlanJobsSpec(binancePairs: seq<string>, bitgetPairs: seq<string>, numThreads: int)
    ensures var jobs := PlanJobs(binancePairs, bitgetPairs, numThreads);
      && |jobs| == (if |binancePairs| > 0 then BinanceWorkers(numThreads) else 0) + (if |bitgetPairs| > 0 then 1 else 0)
      && (forall i :: 0 <= i < |jobs| ==> (jobs[i].venue == Bitget <==> i == |jobs| - 1 && |bitgetPairs| > 0))
      && (|bitgetPairs| > 0 ==> jobs[|jobs| - 1] == Job(Bitget, bitgetPairs))
      && Flatten(JobPairs(jobs)) == binancePairs + bitgetPairs
  {
    PlanJobsShape(binancePairs, bitgetPairs, numThreads);
    PlanJobsCovers(binancePairs, bitgetPairs, numThreads);
  }

  /** How many jobs there are, and that only the last one, if any, goes to Bitget. */
  lemma PlanJobsShape(binancePairs: seq<string>, bitgetPairs: seq<string>, numThreads: int)
    ensures var jobs := PlanJobs(binancePairs, bitgetPairs, numThreads);
      && |jobs| == (if |binancePairs| > 0 then BinanceWorkers(numThreads) else 0) + (if |bitgetPairs| > 0 then 1 else 0)
      && (forall i :: 0 <= i < |jobs| ==> (jobs[i].venue == Bitget <==> i == |jobs| - 1 && |bitgetPairs| > 0))
      && (|bitgetPairs| > 0 ==> jobs[|jobs| - 1] == Job(Bitget, bitgetPairs))
  {
    var jobs := PlanJobs(binancePairs, bitgetPairs, numThreads);
    var bnJobs: seq<Job> := if |binancePairs| > 0 then BinanceJobs(SplitList(binancePairs, BinanceWorkers(numThreads))) else [];
    var bgJobs: seq<Job> := if |bitgetPairs| > 0 then [Job(Bitget, bitgetPairs)] else [];
    assert jobs == bnJobs + bgJobs;
    assert |bnJobs| == (if |binancePairs| > 0 then BinanceWorkers(numThreads) else 0);
    assert forall i :: 0 <= i < |bnJobs| ==> bnJobs[i].venue == Binance;
    forall i | 0 <= i < |jobs| ensures jobs[i].venue == Bitget <==> i == |jobs| - 1 && |bitgetPairs| > 0 {
      if i < |bnJobs| {
        assert jobs[i] == bnJobs[i];
      } else {
        assert jobs[i] == bgJobs[i - |bnJobs|];
      }
    }
  }

  lemma JobPairsAppend(a: seq<Job>, b: seq<Job>)
    ensures JobPairs(a + b) == JobPairs(a) + JobPairs(b)
  {
    assert forall i :: 0 <= i < |a + b| ==> JobPairs(a + b)[i] == (JobPairs(a) + JobPairs(b))[i];
  }

  /** The Binance jobs' symbols, concatenated, are the Binance symbols. */
  lemma BinanceJobsCover(binancePairs: seq<string>, numThreads: int)
    ensures Flatten(JobPairs(BinanceJobs(SplitList(binancePairs, BinanceWorkers(numThreads))))) == binancePairs
  {
    var chunks := SplitList(binancePairs, BinanceWorkers(numThreads));
    assert JobPairs(BinanceJobs(chunks)) == chunks;
    SplitListCovers(binancePairs, BinanceWorkers(numThreads));
  }

  /** The jobs' symbols, concatenated, are the Binance symbols followed by the Bitget symbols. */
  lemma PlanJobsCovers(binancePairs: seq<string>, bitgetPairs: seq<string>, numThreads: int)
    ensures Flatten(JobPairs(PlanJobs(binancePairs, bitgetPairs, numThreads))) == binancePairs + bitgetPairs
  {
    var bnJobs: seq<Job> := if |binancePairs| > 0 then BinanceJobs(SplitList(binancePairs, BinanceWorkers(numThreads))) else [];
    var bgJobs: seq<Job> := if |bitgetPairs| > 0 then [Job(Bitget, bitgetPairs)] else [];
    assert Flatten(JobPairs(bnJobs)) == binancePairs by {
      if |binancePairs| > 0 {
        BinanceJobsCover(binancePairs, numThreads);
      } else {
        assert JobPairs(bnJobs) == [];
      }
    }
    assert Flatten(JobPairs(bgJobs)) == bitgetPairs by {
      if |bitgetPairs| > 0 {
        assert JobPairs(bgJobs) == [bitgetPairs];
        assert JobPairs(bgJobs)[..0] == [];
      } else {
        assert JobPairs(bgJobs) == [];
      }
    }
    calc {
      Flatten(JobPairs(PlanJobs(binancePairs, bitgetPairs, numThreads)));
      Flatten(JobPairs(bnJobs + bgJobs));
      { JobPairsAppend(bnJobs, bgJobs); }
      Flatten(JobPairs(bnJobs) + JobPairs(bgJobs));
      { FlattenAppend(JobPairs(bnJobs), JobPairs(bgJobs)); }
      Flatten(JobPairs(bnJobs)) + Flatten(JobPairs(bgJobs));
    }
  }

  /**
   * Two Binance symbols, one Bitget symbol and three threads: two Binance
   * workers with one symbol each, then the Bitget worker.
   */
  lemma PlanJobsExample()
    ensures PlanJobs(["BTCUSDT", "ETHUSDT"], ["XRPUSDT"], 3)
         == [Job(Binance, ["BTCUSDT"]), Job(Binance, ["ETHUSDT"]), Job(Bitget, ["XRPUSDT"])]
  {
    var pairs: seq<string> := ["BTCUSDT", "ETHUSDT"];
    assert BinanceWorkers(3) == 2;
    assert |pairs| / 2 == 1 && |pairs| % 2 == 0;
    var chunks := SplitList(pairs, 2);
    assert chunks[0] == Chunk(pairs, 2, 0) == pairs[0..1];
    assert chunks[1] == Chunk(pairs, 2, 1) == pairs[1..2];
    assert pairs[0..1] == ["BTCUSDT"] && pairs[1..2] == ["ETHUSDT"];
    assert chunks == [["BTCUSDT"], ["ETHUSDT"]];
    var jobs := BinanceJobs(chunks);
    assert jobs == [Job(Binance, chunks[0]), Job(Binance, chunks[1])];
  }

  // ---------------------------------------------------------------------------
  // Joining the workers

  /** `all_data`: the outputs of the jobs that did not raise, in submission order. */
  function Gather(jobs: seq<Job>, crashed: set<int>, now: int, net: Network): seq<MetricRecord>
  {
    if |jobs| == 0 then []
    else
      var i := |jobs| - 1;
      Gather(jobs[..i], crashed, now, net)
        + (if i in crashed then [] else Collected(jobs[i].pairs, now, net, jobs[i].venue))
  }

  /** Every record of the batch carries the cycle's one timestamp and its own job's fetch result. */
  lemma {:induction false} GatherSound(jobs: seq<Job>, crashed: set<int>, now: int, net: Network)
    ensures forall r :: r in Gather(jobs, crashed, now, net) ==>
      r.timestamp == now &&
      exists i :: 0 <= i < |jobs| && i !in crashed && r.symbol in jobs[i].pairs &&
                  Fetch(net, jobs[i].venue, r.symbol) == Some(r.metrics)
  {
    if |jobs| > 0 {
      var i := |jobs| - 1;
      GatherSound(jobs[..i], crashed, now, net);
      CollectedSound(jobs[i].pairs, now, net, jobs[i].venue);
      forall r | r in Gather(jobs, crashed, now, net)
        ensures r.timestamp == now &&
          exists j :: 0 <= j < |jobs| && j !in crashed && r.symbol in jobs[j].pairs &&
                      Fetch(net, jobs[j].venue, r.symbol) == Some(r.metrics)
      {
        if r in Gather(jobs[..i], crashed, now, net) {
          var j :| 0 <= j < i && j !in crashed && r.symbol in jobs[..i][j].pairs &&
                   Fetch(net, jobs[..i][j].venue, r.symbol) == Some(r.metrics);
          assert jobs[..i][j] == jobs[j];
        }
      }
    }
  }

  /** A worker that did not raise has its whole output in the batch, however many others raised. */
  lemma {:induction false} GatherKeepsSurvivors(jobs: seq<Job>, crashed: set<int>, now: int, net: Network, i: int)
    requires 0 <= i < |jobs| && i !in crashed
    ensures forall r :: r in Collected(jobs[i].pairs, now, net, jobs[i].venue) ==> r in Gather(jobs, crashed, now, net)
  {
    var last := |jobs| - 1;
    var prefix := Gather(jobs[..last], crashed, now, net);
    var tail := if last in crashed then [] else Collected(jobs[last].pairs, now, net, jobs[last].venue);
    assert Gather(jobs, crashed, now, net) == prefix + tail;
    var mine := Collected(jobs[i].pairs, now, net, jobs[i].venue);
    if i < last {
      assert jobs[..last][i] == jobs[i];
      GatherKeepsSurvivors(jobs[..last], crashed, now, net, i);
      forall r | r in mine ensures r in prefix + tail {
        assert r in prefix;
      }
    } else {
      assert tail == mine;
      forall r | r in mine ensures r in prefix + tail {
        assert r in tail;
      }
    }
  }

  /** When no worker raises, the crash set does not matter. */
  lemma {:induction false} GatherNoCrash(jobs: seq<Job>, crashed: set<int>, now: int, net: Network)
    requires forall i :: 0 <= i < |jobs| ==> i !in crashed
    ensures Gather(jobs, crashed, now, net) == Gather(jobs, {}, now, net)
  {
    if |jobs| > 0 {
      GatherNoCrash(jobs[..|jobs| - 1], crashed, now, net);
    }
  }

  /** Joining a non-empty job list with no crashes: the jobs but the last, then the last job's output. */
  lemma GatherLast(jobs: seq<Job>, now: int, net: Network)
    requires |jobs| > 0
    ensures Gather(jobs, {}, now, net)
         == Gather(jobs[..|jobs| - 1], {}, now, net)
            + Collected(jobs[|jobs| - 1].pairs, now, net, jobs[|jobs| - 1].venue)
  {
  }

  /** Joining `a + b` with no crashes: `a` and all of `b` but its last job, then that job's output. */
  lemma GatherAppendLast(a: seq<Job>, b: seq<Job>, now: int, net: Network)
    requires |b| > 0
    ensures Gather(a + b, {}, now, net)
         == Gather(a + b[..|b| - 1], {}, now, net) + Collected(b[|b| - 1].pairs, now, net, b[|b| - 1].venue)
  {
    var ab := a + b;
    assert ab[..|ab| - 1] == a + b[..|b| - 1];
    assert ab[|ab| - 1] == b[|b| - 1];
    GatherLast(ab, now, net);
  }

  lemma {:induction false} GatherAppend(a: seq<Job>, b: seq<Job>, now: int, net: Network)
    ensures Gather(a + b, {}, now, net) == Gather(a, {}, now, net) + Gather(b, {}, now, net)
  {
    if |b| == 0 {
      assert a + b == a;
    } else {
      var init := b[..|b| - 1];
      var tail := Collected(b[|b| - 1].pairs, now, net, b[|b| - 1].venue);
      var ga, gi := Gather(a, {}, now, net), Gather(init, {}, now, net);
      assert Gather(a + b, {}, now, net) == Gather(a + init, {}, now, net) + tail by {
        GatherAppendLast(a, b, now, net);
      }
      assert Gather(a + init, {}, now, net) == ga + gi by {
        GatherAppend(a, init, now, net);
      }
      assert Gather(b, {}, now, net) == gi + tail by {
        GatherLast(b, now, net);
      }
      assert ga + gi + tail == ga + (gi + tail);
    }
  }

  lemma {:induction false} GatherBinanceJobs(chunks: seq<seq<string>>, now: int, net: Network)
    ensures Gather(BinanceJobs(chunks), {}, now, net) == Collected(Flatten(chunks), now, net, Binance)
  {
    if |chunks| > 0 {
      var init := chunks[..|chunks| - 1];
      GatherBinanceJobs(init, now, net);
      assert BinanceJobs(chunks)[..|chunks| - 1] == BinanceJobs(init);
      CollectedAppend(Flatten(init), chunks[|chunks| - 1], now, net, Binance);
    }
  }

  /**
   * With no worker raising, the batch is every fetched Binance symbol in
   * registry order followed by every fetched Bitget symbol: the partition
   * loses and repeats nothing.
   */
  lemma GatherPlanNoCrash(binancePairs: seq<string>, bitgetPairs: seq<string>, numThreads: int,
                          crashed: set<int>, now: int, net: Network)
    requires forall i :: 0 <= i < |PlanJobs(binancePairs, bitgetPairs, numThreads)| ==> i !in crashed
    ensures Gather(PlanJobs(binancePairs, bitgetPairs, numThreads), crashed, now, net)
         == Collected(binancePairs, now, net, Binance) + Collected(bitgetPairs, now, net, Bitget)
  {
    var bnJobs := if |binancePairs| > 0 then BinanceJobs(SplitList(binancePairs, BinanceWorkers(numThreads))) else [];
    var bgJobs := if |bitgetPairs| > 0 then [Job(Bitget, bitgetPairs)] else [];
    GatherNoCrash(bnJobs + bgJobs, crashed, now, net);
    GatherAppend(bnJobs, bgJobs, now, net);
    if |binancePairs| > 0 {
      GatherBinanceJobs(SplitList(binancePairs, BinanceWorkers(numThreads)), now, net);
      SplitListCovers(binancePairs, BinanceWorkers(numThreads));
    }
    if |bitgetPairs| > 0 {
      assert bgJobs[..0] == [];
    }
  }

  /** If no symbol of any job can be fetched, the batch is empty (and nothing is written). */
  lemma {:induction false} GatherAllFailed(jobs: seq<Job>, crashed: set<int>, now: int, net: Network)
    requires forall i, s :: 0 <= i < |jobs| && s in jobs[i].pairs ==> Fetch(net, jobs[i].venue, s).None?
    ensures Gather(jobs, crashed, now, net) == []
  {
    if |jobs| > 0 {
      var i := |jobs| - 1;
      GatherAllFailed(jobs[..i], crashed, now, net);
      CollectedNoneFetched(jobs[i].pairs, now, net, jobs[i].venue);
    }
  }

  /** The batch a cycle collects from the registry `rows`. */
  function CycleBatch(rows: seq<RegistryRow>, numThreads: int, crashed: set<int>, now: int, net: Network): seq<MetricRecord>
  {
    Gather(PlanJobs(PairsOf(rows, BN), PairsOf(rows, BG), numThreads), crashed, now, net)
  }

  /** Submitting the workers: builds the `futures` list of lines 304-318. */
  method SubmitJobs(binancePairs: seq<string>, bitgetPairs: seq<string>, numThreads: int)
    returns (futures: seq<Job>)
    ensures futures == PlanJobs(binancePairs, bitgetPairs, numThreads)
  {
    futures := [];
    if |binancePairs| > 0 {
      var splitPairs := SplitList(binancePairs, Max(1, numThreads - 1));
      for i := 0 to |splitPairs|
        invariant futures == BinanceJobs(splitPairs[..i])
      {
        futures := futures + [Job(Binance, splitPairs[i])];
      }
      assert splitPairs[..|splitPairs|] == splitPairs;
    }
    if |bitgetPairs| > 0 {
      futures := futures + [Job(Bitget, bitgetPairs)];
    }
  }

  /** Joining the workers in submission order (lines 320-330); a worker in `crashed` raised from `future.result()`. */
  method JoinWorkers(futures: seq<Job>, crashed: set<int>, currentTime: int, net: Network)
    returns (allData: seq<MetricRecord>)
    ensures allData == Gather(futures, crashed, currentTime, net)
  {
    allData := [];
    for i := 0 to |futures|
      invariant allData == Gather(futures[..i], crashed, currentTime, net)
    {
      assert futures[..i + 1][..i] == futures[..i];
      if i !in crashed {
        var threadData;
        if futures[i].venue == Binance {
          threadData := CollectDataForPairs(futures[i].pairs, currentTime, net);
        } else {
          threadData := CollectBitgetData(futures[i].pairs, currentTime, net);
        }
        allData := allData + threadData;
      }
      // otherwise the exception is logged and the worker adds nothing
    }
    assert futures[..|futures|] == futures;
  }

  // ---------------------------------------------------------------------------
  // One record per symbol

  /** The symbol of a metric record; `Project(records, RecordSymbol)` lists them in order. */
  function RecordSymbol(r: MetricRecord): string { r.symbol }

  lemma {:induction false} CollectedDistinct(pairs: seq<string>, now: int, net: Network, venue: Venue)
    requires Distinct(pairs)
    ensures Distinct(Project(Collected(pairs, now, net, venue), RecordSymbol))
    ensures forall x :: x in Project(Collected(pairs, now, net, venue), RecordSymbol) ==> x in pairs
  {
    if |pairs| > 0 {
      var init, symbol := pairs[..|pairs| - 1], pairs[|pairs| - 1];
      assert pairs == init + [symbol];
      DistinctAppend(init, [symbol]);
      CollectedDistinct(init, now, net, venue);
      var head := Collected(init, now, net, venue);
      var tail := match Fetch(net, venue, symbol) case Some(m) => [MetricRecord(now, symbol, m)] case None => [];
      assert Collected(pairs, now, net, venue) == head + tail;
      ProjectAppend(head, tail, RecordSymbol);
      assert forall x :: x in Project(tail, RecordSymbol) ==> x == symbol;
      DistinctAppend(Project(head, RecordSymbol), Project(tail, RecordSymbol));
    }
  }

  lemma {:induction false} GatherDistinct(jobs: seq<Job>, crashed: set<int>, now: int, net: Network)
    requires Distinct(Flatten(JobPairs(jobs)))
    ensures Distinct(Project(Gather(jobs, crashed, now, net), RecordSymbol))
    ensures forall x :: x in Project(Gather(jobs, crashed, now, net), RecordSymbol) ==> x in Flatten(JobPairs(jobs))
  {
    if |jobs| > 0 {
      var i := |jobs| - 1;
      var init, pairs := jobs[..i], jobs[i].pairs;
      assert JobPairs(jobs)[..i] == JobPairs(init);
      var before := Flatten(JobPairs(init));
      assert Flatten(JobPairs(jobs)) == before + pairs;
      DistinctAppend(before, pairs);
      GatherDistinct(init, crashed, now, net);
      CollectedDistinct(pairs, now, net, jobs[i].venue);
      var head := Gather(init, crashed, now, net);
      var tail := if i in crashed then [] else Collected(pairs, now, net, jobs[i].venue);
      assert Gather(jobs, crashed, now, net) == head + tail;
      ProjectAppend(head, tail, RecordSymbol);
      assert forall x :: x in Project(tail, RecordSymbol) ==> x in pairs;
      DistinctAppend(Project(head, RecordSymbol), Project(tail, RecordSymbol));
    }
  }

  /**
   * When the registry's symbols are distinct (`symbol` is the primary key of
   * `um_pairs`), a cycle's batch holds at most one record per symbol, so all
   * its `(timestamp, symbol)` keys differ.
   */
  lemma CycleBatchDistinct(rows: seq<RegistryRow>, numThreads: int, crashed: set<int>, now: int, net: Network)
    requires Distinct(Project(rows, RowSymbol))
    ensures Distinct(Project(CycleBatch(rows, numThreads, crashed, now, net), RecordSymbol))
  {
    PairsOfDistinct(rows);
    PlanJobsSpec(PairsOf(rows, BN), PairsOf(rows, BG), numThreads);
    GatherDistinct(PlanJobs(PairsOf(rows, BN), PairsOf(rows, BG), numThreads), crashed, now, net);
  }

  // ---------------------------------------------------------------------------
  // collect_and_store_data

  /**
   * `collect_and_store_data`: returns the batch handed to `to_sql`, or `None`
   * when nothing is written. `currentTime` is the one `datetime.now()` read
   * of the cycle; `ThreadPoolExecutor` rejects `max_workers <= 0`, which the
   * outer `except` turns into "nothing written".
   */
  method CollectAndStoreData(rows: seq<RegistryRow>, numThreads: int, currentTime: int, net: Network, crashed: set<int>)
    returns (written: Option<seq<MetricRecord>>)
    ensures numThreads <= 0 ==> written.None?
    ensures numThreads > 0 ==>
      written == (if CycleBatch(rows, numThreads, crashed, currentTime, net) == [] then None
                  else Some(CycleBatch(rows, numThreads, crashed, currentTime, net)))
    ensures written.Some? ==>
      (|written.value| > 0 && forall k :: 0 <= k < |written.value| ==> written.value[k].timestamp == currentTime)
  {
    var pairsByExchange := GetAllPairs(rows);
    // the guard of line 287 cannot fire: both keys are always present
    assert pairsByExchange.Keys == {BN, BG};

    var binancePairs := if BN in pairsByExchange then pairsByExchange[BN] else [];
    var bitgetPairs := if BG in pairsByExchange then pairsByExchange[BG] else [];

    if numThreads <= 0 {
      return None;  // ValueError from ThreadPoolExecutor
    }
    var futures := SubmitJobs(binancePairs, bitgetPairs, numThreads);
    var allData := JoinWorkers(futures, crashed, currentTime, net);

    if |allData| == 0 {
      return None;  // "no data collected": logged, no write
    }
    GatherSound(futures, crashed, currentTime, net);
    assert forall k :: 0 <= k < |allData| ==> allData[k] in allData;
    written := Some(allData);
  }
}
