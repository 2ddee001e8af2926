/**
 * The page's study: the same sampled configuration run once for the S&P 500 and once
 * for the twice-leveraged S&P 500, with the results tagged into one table.
 */
module Study {
  import opened Wrappers
  import opened Simulator
  import opened Runner
  import opened Results

  /** The monthly contribution in euros, spread over 21 trading days a month. */
  const MonthlyInvestment: real := 833.33
  const DailyInvestment: real := MonthlyInvestment / 21.0

  /** The annual fees of the two funds: 0.25 % and 0.35 %. */
  const SP500AnnualFee: real := 0.25 / 100.0
  const LeveragedAnnualFee: real := 0.35 / 100.0

  /** `int(years * 252)`: the duration bounds in trading days. */
  function DurationDays(years: nat): (days: nat)
    ensures days / TradingDaysPerYear == years && days % TradingDaysPerYear == 0
  {
    years * TradingDaysPerYear
  }

  /** The parameters of the unleveraged run; `dailyFee` is `(1 + annual fee) ** (1 / 252) - 1`. */
  function SP500Params(dailyFee: real): Params
  {
    Params(DailyInvestment, SP500AnnualFee, dailyFee, 1.0)
  }

  /** The parameters of the leveraged run. */
  function LeveragedParams(dailyFee: real): Params
  {
    Params(DailyInvestment, LeveragedAnnualFee, dailyFee, 2.0)
  }

  /**
   * Run both strategies on the same configuration and tag the results. Either run
   * fails exactly when sampling is impossible, and then the page stops; otherwise the
   * table holds one row per draw of each strategy, the unleveraged ones first, each
   * with its duration bucketed between the configured years. The number of
   * simulations is at least 100, the lower bound of its input.
   */
  method RunStudy(numSimulations: nat, minYears: nat, maxYears: nat, prices: seq<real>,
                  spDailyFee: real, levDailyFee: real, spDraws: seq<Sample>, levDraws: seq<Sample>)
    returns (r: Result<seq<Row>, ConfigError>)
    requires PositivePrices(prices) && minYears >= 1 && numSimulations >= 100
    requires |spDraws| == numSimulations && |levDraws| == numSimulations
    requires LegalDraws(spDraws, |prices|, DurationDays(minYears), DurationDays(maxYears))
    requires LegalDraws(levDraws, |prices|, DurationDays(minYears), DurationDays(maxYears))
    ensures r.Failure? <==> !CanSample(|prices|, DurationDays(minYears), DurationDays(maxYears))
    ensures r.Success? ==> |r.value| == 2 * numSimulations
    ensures r.Success? ==> forall k :: 0 <= k < numSimulations ==>
              Some(r.value[k].trial) == Run(prices, spDraws[k], SP500Params(spDailyFee))
              && r.value[k].strategy == SP500 && r.value[k].years == YearBucket(spDraws[k].duration)
    ensures r.Success? ==> forall k :: 0 <= k < numSimulations ==>
              Some(r.value[numSimulations + k].trial) == Run(prices, levDraws[k], LeveragedParams(levDailyFee))
              && r.value[numSimulations + k].strategy == LeveragedSP500
              && r.value[numSimulations + k].years == YearBucket(levDraws[k].duration)
    ensures r.Success? ==> forall k :: 0 <= k < |r.value| ==> minYears <= r.value[k].years <= maxYears
  {
    var minDays, maxDays := DurationDays(minYears), DurationDays(maxYears);
    var sp := RunSimulations(numSimulations, minDays, maxDays, prices, SP500Params(spDailyFee), spDraws);
    if sp.Failure? {
      return Failure(sp.error);
    }
    var lev := RunSimulations(numSimulations, minDays, maxDays, prices, LeveragedParams(levDailyFee), levDraws);
    if lev.Failure? {
      // the same configuration has already been sampled from successfully
      assert false;
    } else {
      TaggedRuns(prices, numSimulations, minYears, maxYears, spDraws, levDraws, sp.value, lev.value,
                 SP500Params(spDailyFee), LeveragedParams(levDailyFee));
      r := Success(Tag(sp.value, lev.value));
    }
  }

  /** Tagging the trials of two runs over legal draws gives the study's table. */
  lemma TaggedRuns(prices: seq<real>, n: nat, minYears: nat, maxYears: nat, spDraws: seq<Sample>,
                   levDraws: seq<Sample>, sp: seq<Trial>, lev: seq<Trial>, ps: Params, pl: Params)
    requires PositivePrices(prices) && minYears >= 1
    requires |spDraws| == n && |levDraws| == n && |sp| == n && |lev| == n
    requires n > 0 ==> CanSample(|prices|, DurationDays(minYears), DurationDays(maxYears))
    requires LegalDraws(spDraws, |prices|, DurationDays(minYears), DurationDays(maxYears))
    requires LegalDraws(levDraws, |prices|, DurationDays(minYears), DurationDays(maxYears))
    requires PositiveDurations(spDraws) && PositiveDurations(levDraws)
    requires forall k :: 0 <= k < n ==> Some(sp[k]) == Run(prices, spDraws[k], ps)
    requires forall k :: 0 <= k < n ==> Some(lev[k]) == Run(prices, levDraws[k], pl)
    ensures |Tag(sp, lev)| == 2 * n
    ensures forall k :: 0 <= k < n ==>
              Some(Tag(sp, lev)[k].trial) == Run(prices, spDraws[k], ps)
              && Tag(sp, lev)[k].strategy == SP500 && Tag(sp, lev)[k].years == YearBucket(spDraws[k].duration)
    ensures forall k :: 0 <= k < n ==>
              Some(Tag(sp, lev)[n + k].trial) == Run(prices, levDraws[k], pl)
              && Tag(sp, lev)[n + k].strategy == LeveragedSP500
              && Tag(sp, lev)[n + k].years == YearBucket(levDraws[k].duration)
    ensures forall k :: 0 <= k < |Tag(sp, lev)| ==> minYears <= Tag(sp, lev)[k].years <= maxYears
  {
    var minDays, maxDays := DurationDays(minYears), DurationDays(maxYears);
    RunDurations(prices, n, spDraws, sp, ps, minDays, maxDays);
    RunDurations(prices, n, levDraws, lev, pl, minDays, maxDays);
    var rows := Tag(sp, lev);
    forall k | 0 <= k < n
      ensures rows[k].trial == sp[k] && rows[k].strategy == SP500 && rows[k].years == YearBucket(spDraws[k].duration)
      ensures minYears <= rows[k].years <= maxYears
    {
      YearBucketBounds(sp[k].durationDays, minYears, maxYears);
    }
    forall j | n <= j < 2 * n
      ensures rows[j].trial == lev[j - n] && rows[j].strategy == LeveragedSP500
      ensures rows[j].years == YearBucket(levDraws[j - n].duration)
      ensures minYears <= rows[j].years <= maxYears
    {
      assert rows[j] == rows[n + (j - n)];
      YearBucketBounds(lev[j - n].durationDays, minYears, maxYears);
    }
  }

  /** The trials of legal draws last as long as their draws say, within the configured bounds. */
  lemma RunDurations(prices: seq<real>, n: nat, draws: seq<Sample>, trials: seq<Trial>, p: Params,
                     minDays: nat, maxDays: nat)
    requires PositivePrices(prices) && |draws| == n && |trials| == n && PositiveDurations(draws)
    requires n > 0 ==> minDays <= maxDays
    requires LegalDraws(draws, |prices|, minDays, maxDays)
    requires forall k :: 0 <= k < n ==> Some(trials[k]) == Run(prices, draws[k], p)
    ensures forall k :: 0 <= k < n ==>
              trials[k].durationDays == draws[k].duration && minDays <= trials[k].durationDays <= maxDays
  {
    forall k | 0 <= k < n
      ensures trials[k].durationDays == draws[k].duration && minDays <= trials[k].durationDays <= maxDays
    {
      assert LegalDraw(draws[k], |prices|, minDays, maxDays);
      assert Run(prices, draws[k], p).value == trials[k];
    }
  }

  /**
   * The page's two strategies on one draw, with the leveraged fund's daily fee at
   * least the unleveraged one's: over a window that falls every day the leveraged
   * trial returns strictly less, and over one where doubling the leverage earns more
   * each day than the extra fee, strictly more.
   */
  lemma StrategiesCompared(prices: seq<real>, s: Sample, spDailyFee: real, levDailyFee: real)
    requires PositivePrices(prices) && s.duration >= 2 && InSeries(prices, s.start, s.duration)
    requires spDailyFee <= levDailyFee
    requires PositiveFactors(prices, s.start, s.duration, 1.0, spDailyFee)
    requires PositiveFactors(prices, s.start, s.duration, 2.0, levDailyFee)
    ensures Run(prices, s, SP500Params(spDailyFee)).Some? && Run(prices, s, LeveragedParams(levDailyFee)).Some?
    ensures Run(prices, s, SP500Params(spDailyFee)).value.totalReturn.Num?
    ensures Run(prices, s, LeveragedParams(levDailyFee)).value.totalReturn.Num?
    ensures FallingWindow(prices, s.start, s.duration) ==>
              Run(prices, s, LeveragedParams(levDailyFee)).value.totalReturn.val
              < Run(prices, s, SP500Params(spDailyFee)).value.totalReturn.val
    ensures LeverageBeatsFee(prices, s.start, s.duration, 1.0, spDailyFee, 2.0, levDailyFee) ==>
              Run(prices, s, SP500Params(spDailyFee)).value.totalReturn.val
              < Run(prices, s, LeveragedParams(levDailyFee)).value.totalReturn.val
  {
    LeverageAmplifies(prices, s.start, s.duration, DailyInvestment, SP500AnnualFee, LeveragedAnnualFee,
                      spDailyFee, levDailyFee, 1.0, 2.0);
  }
}
