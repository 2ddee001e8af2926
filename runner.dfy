/**
 * The simulation runner: draws a start index and a duration for each trial, then
 * evaluates the trials in batches of 100 and keeps, in order, those the simulator
 * does not reject.
 *
 * The random draws are an input sequence; each draw lies in the range numpy would
 * sample it from. The thread pool that maps the simulator over a batch is a
 * sequential map.
 */
module Runner {
  import opened Wrappers
  import opened Simulator

  /** One trial's sampled start index and duration in days. */
  datatype Sample = Sample(start: nat, duration: nat)

  /** The parameters every trial of a run shares. */
  datatype Params = Params(dailyInvestment: real, annualFee: real, dailyFee: real, leverage: real)

  /** Why a run aborts before simulating anything; numpy raises `ValueError` for each. */
  datatype ConfigError =
    | EmptyStartRange     // `np.random.choice` on an empty array of start indices
    | EmptyDurationRange  // `np.random.randint(low, high)` with `low >= high`

  /** The number of trials handed to the worker pool at once. */
  const BatchSize: nat := 100

  /** The exclusive end of `np.arange(0, total_days - max_duration_days - 1)`, the start indices. */
  function StartBound(total: nat, maxDays: nat): int
  {
    total - maxDays - 1
  }

  /** Both sampling ranges hold something, so drawing cannot fail. */
  predicate CanSample(total: nat, minDays: nat, maxDays: nat)
  {
    StartBound(total, maxDays) > 0 && minDays <= maxDays
  }

  /**
   * A draw lies in the range numpy samples it from, whenever that range holds
   * anything: the start in `[0, total - max - 1)`, the duration in `[min, max]`.
   */
  predicate LegalDraw(s: Sample, total: nat, minDays: nat, maxDays: nat)
  {
    && (StartBound(total, maxDays) > 0 ==> s.start < StartBound(total, maxDays))
    && (minDays <= maxDays ==> minDays <= s.duration <= maxDays)
  }

  predicate LegalDraws(draws: seq<Sample>, total: nat, minDays: nat, maxDays: nat)
  {
    forall k :: 0 <= k < |draws| ==> LegalDraw(draws[k], total, minDays, maxDays)
  }

  /** Every sample asks for at least one day, as `Simulate` needs. */
  predicate PositiveDurations(samples: seq<Sample>)
  {
    forall k :: 0 <= k < |samples| ==> samples[k].duration >= 1
  }

  /** The trial of one sample. */
  function Run(prices: seq<real>, s: Sample, p: Params): Option<Trial>
    requires PositivePrices(prices) && s.duration >= 1
  {
    Simulate(prices, s.start, s.duration, p.dailyInvestment, p.annualFee, p.dailyFee, p.leverage)
  }

  /** `executor.map(simulate_investment, batch)`: the trials of the samples, in order. */
  function SimulateAll(prices: seq<real>, samples: seq<Sample>, p: Params): (r: seq<Option<Trial>>)
    requires PositivePrices(prices) && PositiveDurations(samples)
    ensures |r| == |samples|
  {
    seq(|samples|, k requires 0 <= k < |samples| => Run(prices, samples[k], p))
  }

  /** `[res for res in results if res is not None]`. */
  function Survivors(rs: seq<Option<Trial>>): (ts: seq<Trial>)
    ensures |ts| <= |rs|
  {
    if rs == [] then []
    else (if rs[0].Some? then [rs[0].value] else []) + Survivors(rs[1..])
  }

  /** Filtering keeps only values that were results. */
  lemma {:induction false} SurvivorsSound(rs: seq<Option<Trial>>)
    ensures forall t :: t in Survivors(rs) ==> Some(t) in rs
  {
    if rs != [] {
      SurvivorsSound(rs[1..]);
      assert forall t :: Some(t) in rs[1..] ==> Some(t) in rs;
    }
  }

  lemma {:induction false} SurvivorsAppend(a: seq<Option<Trial>>, b: seq<Option<Trial>>)
    ensures Survivors(a + b) == Survivors(a) + Survivors(b)
  {
    if a == [] {
      assert a + b == b;
    } else {
      var head := if a[0].Some? then [a[0].value] else [];
      assert (a + b)[0] == a[0];
      assert (a + b)[1..] == a[1..] + b;
      assert Survivors(a + b) == head + Survivors(a[1..] + b);
      SurvivorsAppend(a[1..], b);
      assert Survivors(a) == head + Survivors(a[1..]);
      assert head + (Survivors(a[1..]) + Survivors(b)) == (head + Survivors(a[1..])) + Survivors(b);
    }
  }

  /** Filtering a list with no `None` in it keeps every value, in order. */
  lemma {:induction false} SurvivorsOfAllSome(rs: seq<Option<Trial>>)
    requires forall k :: 0 <= k < |rs| ==> rs[k].Some?
    ensures |Survivors(rs)| == |rs|
    ensures forall k :: 0 <= k < |rs| ==> Some(Survivors(rs)[k]) == rs[k]
  {
    if rs != [] {
      SurvivorsOfAllSome(rs[1..]);
      assert Survivors(rs) == [rs[0].value] + Survivors(rs[1..]);
    }
  }

  /** Mapping the simulator over a concatenation maps it over each part. */
  lemma SimulateAllAppend(prices: seq<real>, a: seq<Sample>, b: seq<Sample>, p: Params)
    requires PositivePrices(prices) && PositiveDurations(a) && PositiveDurations(b)
    ensures PositiveDurations(a + b)
    ensures SimulateAll(prices, a + b, p) == SimulateAll(prices, a, p) + SimulateAll(prices, b, p)
  {
    assert forall k :: 0 <= k < |a + b| ==> (a + b)[k] == if k < |a| then a[k] else b[k - |a|];
  }

  /**
   * Batching changes nothing: filtering the results of the batch `lo .. hi` and
   * appending them to the filtered results of `.. lo` gives the filtered results of `.. hi`.
   */
  lemma BatchStep(prices: seq<real>, args: seq<Sample>, lo: nat, hi: nat, p: Params)
    requires PositivePrices(prices) && PositiveDurations(args) && lo <= hi <= |args|
    ensures Survivors(SimulateAll(prices, args[..hi], p))
            == Survivors(SimulateAll(prices, args[..lo], p)) + Survivors(SimulateAll(prices, args[lo..hi], p))
  {
    assert args[..hi] == args[..lo] + args[lo..hi];
    SimulateAllAppend(prices, args[..lo], args[lo..hi], p);
    SurvivorsAppend(SimulateAll(prices, args[..lo], p), SimulateAll(prices, args[lo..hi], p));
  }

  /**
   * Sampling legality: a draw from non-empty ranges ends strictly inside the
   * series, so the simulator never rejects it.
   */
  lemma SampleAccepted(prices: seq<real>, s: Sample, minDays: nat, maxDays: nat, p: Params)
    requires PositivePrices(prices) && minDays >= 1
    requires CanSample(|prices|, minDays, maxDays) && LegalDraw(s, |prices|, minDays, maxDays)
    ensures s.start + s.duration < |prices| - 1
    ensures Run(prices, s, p).Some?
  {
  }

  /** With legal draws from non-empty ranges, every trial is kept: one result per draw, in order. */
  lemma NoRejection(prices: seq<real>, draws: seq<Sample>, minDays: nat, maxDays: nat, p: Params)
    requires PositivePrices(prices) && minDays >= 1
    requires CanSample(|prices|, minDays, maxDays) && LegalDraws(draws, |prices|, minDays, maxDays)
    ensures PositiveDurations(draws)
    ensures |Survivors(SimulateAll(prices, draws, p))| == |draws|
    ensures forall k :: 0 <= k < |draws| ==> Some(Survivors(SimulateAll(prices, draws, p))[k]) == Run(prices, draws[k], p)
  {
    assert forall k :: 0 <= k < |draws| ==> LegalDraw(draws[k], |prices|, minDays, maxDays);
    forall k | 0 <= k < |draws| ensures Run(prices, draws[k], p).Some? {
      SampleAccepted(prices, draws[k], minDays, maxDays, p);
    }
    SurvivorsOfAllSome(SimulateAll(prices, draws, p));
  }

  /**
   * The batch loop of `run_simulations`: evaluate the trials 100 at a time and append
   * the valid ones of each batch. The result is one filter over one map of all trials.
   */
  method EvaluateInBatches(prices: seq<real>, args: seq<Sample>, p: Params) returns (results: seq<Trial>)
    requires PositivePrices(prices) && PositiveDurations(args)
    ensures results == Survivors(SimulateAll(prices, args, p))
  {
    results := [];
    var i: nat := 0;
    while i < |args|
      invariant results == Survivors(SimulateAll(prices, args[..if i < |args| then i else |args|], p))
    {
      var hi := if i + BatchSize <= |args| then i + BatchSize else |args|;
      var batchResults := SimulateAll(prices, args[i..hi], p);
      BatchStep(prices, args, i, hi, p);
      results := results + Survivors(batchResults);
      i := i + BatchSize;
    }
    assert args[..|args|] == args;
  }

  /**
   * `run_simulations`: draw `numSimulations` trials, then evaluate them in batches
   * and keep the valid ones. Drawing fails, before anything is simulated, when a
   * sampling range is empty; otherwise no trial is rejected.
   */
  method RunSimulations(numSimulations: nat, minDays: nat, maxDays: nat, prices: seq<real>, p: Params,
                        draws: seq<Sample>)
    returns (r: Result<seq<Trial>, ConfigError>)
    requires PositivePrices(prices) && minDays >= 1
    requires |draws| == numSimulations && LegalDraws(draws, |prices|, minDays, maxDays)
    ensures r.Failure? <==> numSimulations > 0 && !CanSample(|prices|, minDays, maxDays)
    ensures r.Failure? ==> r.error == if StartBound(|prices|, maxDays) <= 0 then EmptyStartRange else EmptyDurationRange
    ensures r.Success? ==> PositiveDurations(draws) && r.value == Survivors(SimulateAll(prices, draws, p))
    ensures r.Success? ==> |r.value| == numSimulations
    ensures r.Success? ==> forall k :: 0 <= k < numSimulations ==> Some(r.value[k]) == Run(prices, draws[k], p)
  {
    var possibleStarts := StartBound(|prices|, maxDays);
    var args: seq<Sample> := [];
    var n := 0;
    while n < numSimulations
      invariant 0 <= n <= numSimulations
      invariant args == draws[..n]
      invariant n > 0 ==> CanSample(|prices|, minDays, maxDays)
    {
      if possibleStarts <= 0 {
        return Failure(EmptyStartRange);
      }
      if minDays > maxDays {
        return Failure(EmptyDurationRange);
      }
      args := args + [draws[n]];
      n := n + 1;
    }
    assert args == draws;
    if numSimulations > 0 {
      NoRejection(prices, draws, minDays, maxDays, p);
    }
    var results := EvaluateInBatches(prices, args, p);
    r := Success(results);
  }
}
