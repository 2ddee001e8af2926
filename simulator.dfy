/**
 * The trial simulator: one dollar-cost-averaged investment over one window of a
 * daily price series. A fixed amount is invested on each of `duration` days and
 * every contribution compounds through the leveraged daily returns, net of a daily
 * fee, that follow it up to the end of the window.
 *
 * Prices and money are exact reals. The daily fee, which the program derives from
 * the annual fee by a 252nd root, is a parameter; the annualized return is not modelled.
 */
module Simulator {
  import opened Wrappers
  import opened Stats

  /** Trading days per year, the convention of the fee and year-bucket formulas. */
  const TradingDaysPerYear: nat := 252

  /**
   * A float64 as the simulator can produce one in exact arithmetic: a number, or
   * the NaN that numpy returns for 0/0 once a running product has become zero.
   */
  datatype Float = Num(val: real) | NaN

  /** One trial's outcome record. The start date is represented by its index in the series. */
  datatype Trial = Trial(
    startIndex: nat,
    durationDays: nat,
    totalInvested: real,
    totalFee: real,
    endValue: Float,
    totalReturn: Float)

  /** The price series invariant: every price is positive. */
  predicate PositivePrices(prices: seq<real>)
  {
    forall k :: 0 <= k < |prices| ==> prices[k] > 0.0
  }

  /** Python's `s[lo:hi]` for non-negative bounds: both ends are clamped to the length. */
  function Slice(s: seq<real>, lo: nat, hi: nat): (w: seq<real>)
    ensures |w| == if lo <= hi && lo <= |s| then (if hi <= |s| then hi else |s|) - lo else 0
    ensures forall k :: 0 <= k < |w| ==> lo + k < |s| && w[k] == s[lo + k]
  {
    var h := if hi <= |s| then hi else |s|;
    var l := if lo <= h then lo else h;
    s[l..h]
  }

  /** `np.diff(w) / w[:-1]`: the simple return between each pair of consecutive prices. */
  function DailyReturns(w: seq<real>): (r: seq<real>)
    requires |w| > 0 && PositivePrices(w)
    ensures |r| == |w| - 1
  {
    seq(|w| - 1, k requires 0 <= k < |w| - 1 => (w[k + 1] - w[k]) / w[k])
  }

  /** `returns * leverage - daily_fee`, elementwise. */
  function Adjusted(r: seq<real>, leverage: real, dailyFee: real): (a: seq<real>)
    ensures |a| == |r|
    ensures leverage == 1.0 && dailyFee == 0.0 ==> a == r
  {
    seq(|r|, k requires 0 <= k < |r| => r[k] * leverage - dailyFee)
  }

  /** `1 + returns`, elementwise: each day's growth factor. */
  function Growth(a: seq<real>): (g: seq<real>)
    ensures |g| == |a|
    ensures forall k :: 0 <= k < |a| ==> (g[k] > 0.0 <==> a[k] > -1.0) && (g[k] == 0.0 <==> a[k] == -1.0)
  {
    seq(|a|, k requires 0 <= k < |a| => 1.0 + a[k])
  }

  /** The product of the factors `g[lo] .. g[hi - 1]`; 1 for an empty range. */
  function Prod(g: seq<real>, lo: nat, hi: nat): real
    requires lo <= hi <= |g|
    decreases hi - lo
  {
    if lo == hi then 1.0 else g[lo] * Prod(g, lo + 1, hi)
  }

  /** The first `n` entries of `np.cumprod(g)`: each entry is the previous one times the next factor. */
  function CumProdUpTo(g: seq<real>, n: nat): (c: seq<real>)
    requires n <= |g|
    ensures |c| == n
    ensures forall j :: 0 <= j < n ==> c[j] == Prod(g, 0, j + 1)
  {
    if n == 0 then []
    else
      var c' := CumProdUpTo(g, n - 1);
      ProdSnoc(g, 0, n - 1);
      c' + [(if n == 1 then 1.0 else c'[n - 2]) * g[n - 1]]
  }

  /** `np.cumprod(g)`: entry `j` is the product of the factors of days `0 .. j`. */
  function CumProd(g: seq<real>): (c: seq<real>)
    ensures |c| == |g|
    ensures forall j :: 0 <= j < |g| ==> c[j] == Prod(g, 0, j + 1)
  {
    CumProdUpTo(g, |g|)
  }

  /**
   * `daily_investment * (cum[-1] / cum)`: the end value of each day's contribution.
   * A zero entry of the running product makes the last entry zero too, so numpy's
   * quotient there is 0/0, a NaN.
   */
  function ContributionValues(d: real, c: seq<real>): (v: seq<Float>)
    requires |c| > 0
    ensures |v| == |c|
  {
    seq(|c|, i requires 0 <= i < |c| => if c[i] == 0.0 then NaN else Num(d * (c[|c| - 1] / c[i])))
  }

  /** `np.sum`: NaN as soon as one term is NaN. */
  function FloatSum(v: seq<Float>): (s: Float)
    ensures s.NaN? <==> exists i :: 0 <= i < |v| && v[i].NaN?
  {
    if v == [] then Num(0.0)
    else
      var rest := FloatSum(v[1..]);
      assert forall i :: 0 < i < |v| ==> v[i] == v[1..][i - 1];
      if v[0].NaN? || rest.NaN? then NaN else Num(v[0].val + rest.val)
  }

  /**
   * `(total_value - total_invested) / total_invested`. Nothing is invested only when
   * the daily amount is zero, and then the value is 0 or NaN (ZeroInvestmentValue),
   * so the quotient is numpy's 0/0, a NaN.
   */
  function ReturnOn(value: Float, invested: real): (r: Float)
    ensures r.NaN? <==> value.NaN? || invested == 0.0
  {
    match value
    case NaN => NaN
    case Num(v) => if invested == 0.0 then NaN else Num((v - invested) / invested)
  }

  /**
   * `simulate_investment`: one trial over the prices `start .. start + duration`, or
   * `None` when the window runs past the end of the series.
   */
  function Simulate(prices: seq<real>, start: nat, duration: nat, dailyInvestment: real,
                    annualFee: real, dailyFee: real, leverage: real): (r: Option<Trial>)
    requires PositivePrices(prices)
    requires duration >= 1
    ensures r.None? <==> start + duration >= |prices|
    ensures r.Some? ==> r.value.startIndex == start && r.value.durationDays == duration
    ensures r.Some? ==> r.value.totalInvested == dailyInvestment * duration as real
    ensures r.Some? ==> r.value.totalFee
                        == annualFee * (duration as real / TradingDaysPerYear as real) * (dailyInvestment * duration as real)
    ensures r.Some? ==> r.value.totalReturn == ReturnOn(r.value.endValue, r.value.totalInvested)
  {
    var endIdx := start + duration;
    if endIdx >= |prices| then None
    else
      var window := Window(prices, start, duration);
      if |window| != duration + 1 then None
      else
        var growth := SimulatedGrowth(prices, start, duration, leverage, dailyFee);
        var totalInvested := dailyInvestment * duration as real;
        var totalValue := FloatSum(ContributionValues(dailyInvestment, CumProd(growth)));
        var totalFee := annualFee * (duration as real / TradingDaysPerYear as real) * totalInvested;
        Some(Trial(start, duration, totalInvested, totalFee, totalValue, ReturnOn(totalValue, totalInvested)))
  }

  // ---------------------------------------------------------------------------
  // The window and the daily factors, stated on the original price series

  /** The prices `simulate_investment` slices out for a trial. */
  function Window(prices: seq<real>, start: nat, duration: nat): seq<real>
  {
    Slice(prices, start, start + duration + 1)
  }

  /** Whether `Simulate` accepts the window: it ends inside the series. */
  predicate InSeries(prices: seq<real>, start: nat, duration: nat)
  {
    start + duration < |prices|
  }

  /** Day `k`'s growth factor: one plus the leveraged simple return of day `k + 1`, less the daily fee. */
  function DayFactor(prices: seq<real>, start: nat, k: nat, leverage: real, dailyFee: real): real
    requires PositivePrices(prices) && start + k + 1 < |prices|
  {
    1.0 + (leverage * (prices[start + k + 1] / prices[start + k] - 1.0) - dailyFee)
  }

  /** The growth factors of the `duration` days of a window. */
  function Factors(prices: seq<real>, start: nat, duration: nat, leverage: real, dailyFee: real): (f: seq<real>)
    requires PositivePrices(prices) && InSeries(prices, start, duration)
    ensures |f| == duration
  {
    seq(duration, k requires 0 <= k < duration => DayFactor(prices, start, k, leverage, dailyFee))
  }

  /** What `Simulate` compounds: the growth factors it derives from its window. */
  function SimulatedGrowth(prices: seq<real>, start: nat, duration: nat, leverage: real, dailyFee: real): seq<real>
    requires PositivePrices(prices) && InSeries(prices, start, duration)
  {
    var window := Window(prices, start, duration);
    assert |window| == duration + 1 && forall k :: 0 <= k < |window| ==> window[k] == prices[start + k];
    Growth(Adjusted(DailyReturns(window), leverage, dailyFee))
  }

  /**
   * The window of an accepted trial holds exactly `duration + 1` prices, those from
   * `start` on, and yields exactly `duration` daily returns: the second length check
   * of `simulate_investment` never rejects anything the first one lets through.
   */
  lemma WindowShape(prices: seq<real>, start: nat, duration: nat)
    requires PositivePrices(prices) && InSeries(prices, start, duration)
    ensures |Window(prices, start, duration)| == duration + 1
    ensures forall k :: 0 <= k <= duration ==> Window(prices, start, duration)[k] == prices[start + k]
    ensures |DailyReturns(Window(prices, start, duration))| == duration
  {
  }

  /** Each adjusted daily return is `leverage * (p[k+1] / p[k] - 1) - daily_fee`. */
  lemma AdjustedReturn(prices: seq<real>, start: nat, duration: nat, leverage: real, dailyFee: real, k: nat)
    requires PositivePrices(prices) && InSeries(prices, start, duration) && k < duration
    ensures |SimulatedGrowth(prices, start, duration, leverage, dailyFee)| == duration
    ensures SimulatedGrowth(prices, start, duration, leverage, dailyFee)[k] - 1.0
            == leverage * (prices[start + k + 1] / prices[start + k] - 1.0) - dailyFee
  {
    SimpleReturn(prices[start + k + 1], prices[start + k]);
  }

  /** The growth `Simulate` compounds is exactly the sequence of day factors. */
  lemma GrowthIsFactors(prices: seq<real>, start: nat, duration: nat, leverage: real, dailyFee: real)
    requires PositivePrices(prices) && InSeries(prices, start, duration)
    ensures SimulatedGrowth(prices, start, duration, leverage, dailyFee) == Factors(prices, start, duration, leverage, dailyFee)
  {
    var g := SimulatedGrowth(prices, start, duration, leverage, dailyFee);
    var f := Factors(prices, start, duration, leverage, dailyFee);
    forall k | 0 <= k < duration ensures g[k] == f[k] {
      AdjustedReturn(prices, start, duration, leverage, dailyFee, k);
    }
  }

  /** The end value `Simulate` reports, written with the day factors. */
  lemma EndValueIsFactorSum(prices: seq<real>, start: nat, duration: nat, d: real, annualFee: real, dailyFee: real, leverage: real)
    requires PositivePrices(prices) && duration >= 1 && InSeries(prices, start, duration)
    ensures Simulate(prices, start, duration, d, annualFee, dailyFee, leverage).Some?
    ensures Simulate(prices, start, duration, d, annualFee, dailyFee, leverage).value.endValue
            == FloatSum(ContributionValues(d, CumProd(Factors(prices, start, duration, leverage, dailyFee))))
  {
    GrowthIsFactors(prices, start, duration, leverage, dailyFee);
  }

  // ---------------------------------------------------------------------------
  // Real arithmetic

  lemma SimpleReturn(q: real, p: real)
    requires p != 0.0
    ensures (q - p) / p == q / p - 1.0
  {
    assert p / p == 1.0;
    assert (q - p) / p == q / p - p / p;
  }

  lemma Telescope(x: real, y: real, z: real)
    requires x != 0.0 && y != 0.0
    ensures (y / x) * (z / y) == z / x
  {
  }

  lemma DivCancel(a: real, b: real)
    requires a != 0.0
    ensures (a * b) / a == b
  {
  }

  // ---------------------------------------------------------------------------
  // Products

  /** Extending a range by one factor multiplies its product by that factor. */
  lemma {:induction false} ProdSnoc(g: seq<real>, lo: nat, hi: nat)
    requires lo <= hi < |g|
    ensures Prod(g, lo, hi + 1) == Prod(g, lo, hi) * g[hi]
    decreases hi - lo
  {
    if lo < hi {
      ProdSnoc(g, lo + 1, hi);
    }
  }

  /** A product splits at any point of its range. */
  lemma {:induction false} ProdSplit(g: seq<real>, lo: nat, mid: nat, hi: nat)
    requires lo <= mid <= hi <= |g|
    ensures Prod(g, lo, hi) == Prod(g, lo, mid) * Prod(g, mid, hi)
    decreases mid - lo
  {
    if lo < mid {
      ProdSplit(g, lo + 1, mid, hi);
    }
  }

  /** No factor in `g[lo .. hi - 1]` is zero. */
  predicate NoZeroIn(g: seq<real>, lo: nat, hi: nat)
    requires lo <= hi <= |g|
  {
    forall k :: lo <= k < hi ==> g[k] != 0.0
  }

  /** No factor is zero. */
  predicate NoZero(g: seq<real>)
  {
    NoZeroIn(g, 0, |g|)
  }

  /** A product is zero exactly when one of its factors is. */
  lemma {:induction false} ProdZero(g: seq<real>, lo: nat, hi: nat)
    requires lo <= hi <= |g|
    ensures Prod(g, lo, hi) == 0.0 <==> !NoZeroIn(g, lo, hi)
    decreases hi - lo
  {
    if lo < hi {
      ProdZero(g, lo + 1, hi);
    }
  }

  /** The product of a range depends only on the factors in it. */
  lemma {:induction false} ProdAgree(g: seq<real>, h: seq<real>, lo: nat, hi: nat)
    requires lo <= hi <= |g| && hi <= |h|
    requires forall k :: lo <= k < hi ==> g[k] == h[k]
    ensures Prod(g, lo, hi) == Prod(h, lo, hi)
    decreases hi - lo
  {
    if lo < hi {
      ProdAgree(g, h, lo + 1, hi);
    }
  }

  // ---------------------------------------------------------------------------
  // Compounding of each contribution

  /**
   * Telescoping: when no growth factor is zero, contribution `i` ends at the daily
   * amount times the factors of days `i + 1 .. n - 1`. The last contribution is
   * worth exactly the amount, and day 0's factor reaches no contribution.
   */
  lemma Compounding(d: real, g: seq<real>, i: nat)
    requires NoZero(g) && i < |g|
    ensures ContributionValues(d, CumProd(g))[i] == Num(d * Prod(g, i + 1, |g|))
  {
    ProdSplit(g, 0, i + 1, |g|);
    ProdZero(g, 0, i + 1);
    DivCancel(Prod(g, 0, i + 1), Prod(g, i + 1, |g|));
  }

  /** The last contribution is never compounded: it ends at exactly the daily amount. */
  lemma LastContribution(d: real, g: seq<real>)
    requires NoZero(g) && |g| > 0
    ensures ContributionValues(d, CumProd(g))[|g| - 1] == Num(d)
  {
    Compounding(d, g, |g| - 1);
  }

  /**
   * Day 0's factor is never applied: two factor sequences that differ only there
   * give every contribution the same end value.
   */
  lemma FirstFactorUnused(d: real, g: seq<real>, h: seq<real>)
    requires NoZero(g) && NoZero(h) && |g| == |h| > 0
    requires forall k :: 0 < k < |g| ==> g[k] == h[k]
    ensures ContributionValues(d, CumProd(g)) == ContributionValues(d, CumProd(h))
  {
    forall i | 0 <= i < |g|
      ensures ContributionValues(d, CumProd(g))[i] == ContributionValues(d, CumProd(h))[i]
    {
      Compounding(d, g, i);
      Compounding(d, h, i);
      ProdAgree(g, h, i + 1, |g|);
    }
  }

  /** The end value of each contribution when no growth factor is zero. */
  function CompoundedValues(d: real, g: seq<real>): (v: seq<real>)
    ensures |v| == |g|
  {
    seq(|g|, i requires 0 <= i < |g| => d * Prod(g, i + 1, |g|))
  }

  lemma {:induction false} FloatSumOfNums(v: seq<Float>, x: seq<real>)
    requires |v| == |x| && forall i :: 0 <= i < |v| ==> v[i] == Num(x[i])
    ensures FloatSum(v) == Num(Sum(x))
  {
    if v != [] {
      FloatSumOfNums(v[1..], x[1..]);
    }
  }

  /**
   * The total value of a trial: NaN exactly when some growth factor of its window is
   * zero, and otherwise the sum of its compounded contributions.
   */
  lemma TotalValue(d: real, g: seq<real>)
    requires |g| > 0
    ensures FloatSum(ContributionValues(d, CumProd(g))).NaN? <==> !NoZero(g)
    ensures NoZero(g) ==> FloatSum(ContributionValues(d, CumProd(g))) == Num(Sum(CompoundedValues(d, g)))
  {
    var c := CumProd(g);
    var v := ContributionValues(d, c);
    var n := |g|;
    ProdZero(g, 0, n);
    if NoZero(g) {
      forall i | 0 <= i < n ensures v[i] == Num(CompoundedValues(d, g)[i]) {
        Compounding(d, g, i);
      }
      FloatSumOfNums(v, CompoundedValues(d, g));
    } else {
      assert c[n - 1] == 0.0 && v[n - 1].NaN?;
    }
  }

  /**
   * A trial's end value is NaN exactly when one of its day factors is zero; numpy
   * produces the NaN and the program keeps the trial.
   */
  lemma EndValueNaN(prices: seq<real>, start: nat, duration: nat, d: real, annualFee: real, dailyFee: real, leverage: real)
    requires PositivePrices(prices) && duration >= 1 && InSeries(prices, start, duration)
    ensures Simulate(prices, start, duration, d, annualFee, dailyFee, leverage).Some?
    ensures Simulate(prices, start, duration, d, annualFee, dailyFee, leverage).value.endValue.NaN?
            <==> exists k :: 0 <= k < duration && DayFactor(prices, start, k, leverage, dailyFee) == 0.0
  {
    EndValueIsFactorSum(prices, start, duration, d, annualFee, dailyFee, leverage);
    var f := Factors(prices, start, duration, leverage, dailyFee);
    TotalValue(d, f);
    if NoZero(f) {
      forall k | 0 <= k < duration ensures DayFactor(prices, start, k, leverage, dailyFee) != 0.0 {
        assert f[k] == DayFactor(prices, start, k, leverage, dailyFee);
      }
    } else {
      var k :| 0 <= k < duration && f[k] == 0.0;
      assert DayFactor(prices, start, k, leverage, dailyFee) == 0.0;
    }
  }

  /**
   * With no zero day factor, a trial ends at the sum over its days `i` of the daily
   * amount times the day factors of days `i + 1 .. duration - 1`.
   */
  lemma EndValueCompounded(prices: seq<real>, start: nat, duration: nat, d: real, annualFee: real, dailyFee: real, leverage: real)
    requires PositivePrices(prices) && duration >= 1 && InSeries(prices, start, duration)
    requires NoZero(Factors(prices, start, duration, leverage, dailyFee))
    ensures Simulate(prices, start, duration, d, annualFee, dailyFee, leverage)
            == Some(Trial(start, duration, d * duration as real,
                          annualFee * (duration as real / TradingDaysPerYear as real) * (d * duration as real),
                          Num(Sum(CompoundedValues(d, Factors(prices, start, duration, leverage, dailyFee)))),
                          ReturnOn(Num(Sum(CompoundedValues(d, Factors(prices, start, duration, leverage, dailyFee)))),
                                   d * duration as real)))
  {
    EndValueIsFactorSum(prices, start, duration, d, annualFee, dailyFee, leverage);
    TotalValue(d, Factors(prices, start, duration, leverage, dailyFee));
  }

  /**
   * With nothing invested each day, the end value is 0 or NaN, so the total return
   * is numpy's 0/0.
   */
  lemma ZeroInvestmentValue(g: seq<real>)
    requires |g| > 0
    ensures FloatSum(ContributionValues(0.0, CumProd(g))) in {Num(0.0), NaN}
  {
    var v := ContributionValues(0.0, CumProd(g));
    if !FloatSum(v).NaN? {
      forall i | 0 <= i < |v| ensures v[i] == Num(0.0) {
      }
      FloatSumOfNums(v, seq(|v|, i => 0.0));
      SumZeros(|v|);
    }
  }

  lemma {:induction false} SumZeros(n: nat)
    ensures Sum(seq(n, i => 0.0)) == 0.0
  {
    if n > 0 {
      assert seq(n, i => 0.0)[1..] == seq(n - 1, i => 0.0);
      SumZeros(n - 1);
    }
  }

  /** The end value is the invested amount grown by the total return. */
  lemma ReturnRoundTrip(value: real, invested: real)
    requires invested != 0.0
    ensures ReturnOn(Num(value), invested).Num?
    ensures value == invested * (1.0 + ReturnOn(Num(value), invested).val)
  {
    var r := (value - invested) / invested;
    assert invested * r == value - invested;
  }

  // ---------------------------------------------------------------------------
  // Unleveraged, fee-free closed form

  /** The price relatives `p[k + 1] / p[k]` for `k` in `[a, b)`. */
  function Ratios(prices: seq<real>, a: nat, b: nat): (r: seq<real>)
    requires PositivePrices(prices) && a <= b < |prices|
    ensures |r| == b - a
  {
    seq(b - a, k requires 0 <= k < b - a => prices[a + k + 1] / prices[a + k])
  }

  /** The price relatives of days `j .. m - 1` of `Ratios(prices, a, a + m)` multiply to `p[a + m] / p[a + j]`. */
  lemma {:induction false} RatiosTelescope(prices: seq<real>, a: nat, b: nat, j: nat)
    requires PositivePrices(prices) && a <= b < |prices| && j <= b - a
    ensures Prod(Ratios(prices, a, b), j, b - a) == prices[b] / prices[a + j]
    decreases b - a - j
  {
    if j < b - a {
      RatiosTelescope(prices, a, b, j + 1);
      Telescope(prices[a + j], prices[a + j + 1], prices[b]);
    }
  }

  /**
   * With leverage 1 and no fee, contribution `i` is worth `d * p[end] / p[start + i + 1]`:
   * it buys at the close of day `i + 1` of the window and is marked at the last price.
   */
  lemma UnleveragedContribution(prices: seq<real>, start: nat, duration: nat, d: real, i: nat)
    requires PositivePrices(prices) && InSeries(prices, start, duration) && i < duration
    ensures |CompoundedValues(d, Factors(prices, start, duration, 1.0, 0.0))| == duration
    ensures CompoundedValues(d, Factors(prices, start, duration, 1.0, 0.0))[i]
            == d * (prices[start + duration] / prices[start + i + 1])
  {
    UnleveragedFactors(prices, start, duration);
    RatiosTelescope(prices, start, start + duration, i + 1);
  }

  /** The day factors with leverage 1 and no fee are the price relatives, none of them zero. */
  lemma UnleveragedFactors(prices: seq<real>, start: nat, duration: nat)
    requires PositivePrices(prices) && InSeries(prices, start, duration)
    ensures Factors(prices, start, duration, 1.0, 0.0) == Ratios(prices, start, start + duration)
    ensures NoZero(Factors(prices, start, duration, 1.0, 0.0))
  {
    var f := Factors(prices, start, duration, 1.0, 0.0);
    forall k | 0 <= k < duration ensures f[k] == prices[start + k + 1] / prices[start + k] {
      var x, y := prices[start + k], prices[start + k + 1];
      assert 1.0 + (1.0 * (y / x - 1.0) - 0.0) == y / x;
    }
  }

  /** Contribution `i` marked at the last price, with leverage 1 and no fee. */
  function UnleveragedValues(prices: seq<real>, start: nat, duration: nat, d: real): (v: seq<real>)
    requires PositivePrices(prices) && InSeries(prices, start, duration)
    ensures |v| == duration
  {
    seq(duration, i requires 0 <= i < duration => d * (prices[start + duration] / prices[start + i + 1]))
  }

  /**
   * With leverage 1 and no fee, the end portfolio value is the sum over the days `i`
   * of `d * p[start + duration] / p[start + i + 1]`.
   */
  lemma UnleveragedEndValue(prices: seq<real>, start: nat, duration: nat, d: real, annualFee: real)
    requires PositivePrices(prices) && duration >= 1 && InSeries(prices, start, duration)
    ensures Simulate(prices, start, duration, d, annualFee, 0.0, 1.0).Some?
    ensures Simulate(prices, start, duration, d, annualFee, 0.0, 1.0).value.endValue
            == Num(Sum(UnleveragedValues(prices, start, duration, d)))
  {
    UnleveragedFactors(prices, start, duration);
    EndValueCompounded(prices, start, duration, d, annualFee, 0.0, 1.0);
    UnleveragedCompounded(prices, start, duration, d);
  }

  lemma UnleveragedCompounded(prices: seq<real>, start: nat, duration: nat, d: real)
    requires PositivePrices(prices) && InSeries(prices, start, duration)
    ensures CompoundedValues(d, Factors(prices, start, duration, 1.0, 0.0)) == UnleveragedValues(prices, start, duration, d)
  {
    var v := CompoundedValues(d, Factors(prices, start, duration, 1.0, 0.0));
    var u := UnleveragedValues(prices, start, duration, d);
    forall i | 0 <= i < duration ensures v[i] == u[i] {
      UnleveragedContribution(prices, start, duration, d, i);
    }
  }

  /** The worked example of five rising prices 100 .. 104 over four days. */
  lemma FivePriceExample(d: real)
    ensures Simulate([100.0, 101.0, 102.0, 103.0, 104.0], 0, 4, d, 0.0, 0.0, 1.0)
            == Some(Trial(0, 4, 4.0 * d, 0.0, Num(d * (104.0 / 101.0 + 104.0 / 102.0 + 104.0 / 103.0 + 1.0)),
                          ReturnOn(Num(d * (104.0 / 101.0 + 104.0 / 102.0 + 104.0 / 103.0 + 1.0)), 4.0 * d)))
  {
    var p := [100.0, 101.0, 102.0, 103.0, 104.0];
    UnleveragedEndValue(p, 0, 4, d, 0.0);
    var s := UnleveragedValues(p, 0, 4, d);
    assert s == [d * (104.0 / 101.0), d * (104.0 / 102.0), d * (104.0 / 103.0), d * (104.0 / 104.0)];
    assert s[3..][1..] == [];
    assert Sum(s[3..]) == d;
    assert Sum(s[2..]) == d * (104.0 / 103.0) + d;
    assert Sum(s[1..]) == d * (104.0 / 102.0) + (d * (104.0 / 103.0) + d);
    assert Sum(s) == d * (104.0 / 101.0 + 104.0 / 102.0 + 104.0 / 103.0 + 1.0);
  }

  // ---------------------------------------------------------------------------
  // Fee drag and leverage

  lemma MulMono(a: real, b: real, x: real, y: real)
    requires 0.0 < a <= b && 0.0 < x <= y
    ensures 0.0 < a * x <= b * y
    ensures (a < b ==> a * x < b * y) && (x < y ==> a * x < b * y)
  {
    assert a * x <= a * y;
    assert a * y <= b * y;
  }

  /** Products of positive factors grow with their factors, strictly when every factor does. */
  lemma {:induction false} ProdMono(g: seq<real>, h: seq<real>, lo: nat, hi: nat)
    requires lo <= hi <= |g| && |g| == |h|
    requires forall k :: lo <= k < hi ==> 0.0 < g[k] <= h[k]
    ensures 0.0 < Prod(g, lo, hi) <= Prod(h, lo, hi)
    ensures lo < hi && (forall k :: lo <= k < hi ==> g[k] < h[k]) ==> Prod(g, lo, hi) < Prod(h, lo, hi)
    decreases hi - lo
  {
    if lo < hi {
      ProdMono(g, h, lo + 1, hi);
      MulMono(g[lo], h[lo], Prod(g, lo + 1, hi), Prod(h, lo + 1, hi));
    }
  }

  /**
   * Larger positive growth factors give a larger end value; when all of them are
   * strictly larger and there are at least two days, the end value is strictly larger
   * (the first contribution compounds through at least one of them).
   */
  lemma CompoundedMono(d: real, g: seq<real>, h: seq<real>)
    requires d > 0.0 && |g| == |h|
    requires forall k :: 0 <= k < |g| ==> 0.0 < g[k] <= h[k]
    ensures Sum(CompoundedValues(d, g)) <= Sum(CompoundedValues(d, h))
    ensures |g| >= 2 && (forall k :: 0 <= k < |g| ==> g[k] < h[k])
            ==> Sum(CompoundedValues(d, g)) < Sum(CompoundedValues(d, h))
  {
    var u, v := CompoundedValues(d, g), CompoundedValues(d, h);
    forall i | 0 <= i < |g| ensures u[i] <= v[i] {
      ContributionMono(d, g, h, i);
    }
    if |g| >= 2 && (forall k :: 0 <= k < |g| ==> g[k] < h[k]) {
      ContributionMono(d, g, h, 0);
    }
    SumMono(u, v);
  }

  /** One contribution's end value grows with the factors it compounds through. */
  lemma ContributionMono(d: real, g: seq<real>, h: seq<real>, i: nat)
    requires d > 0.0 && |g| == |h| && i < |g|
    requires forall k :: 0 <= k < |g| ==> 0.0 < g[k] <= h[k]
    ensures CompoundedValues(d, g)[i] <= CompoundedValues(d, h)[i]
    ensures i + 1 < |g| && (forall k :: 0 <= k < |g| ==> g[k] < h[k]) ==> CompoundedValues(d, g)[i] < CompoundedValues(d, h)[i]
  {
    ProdMono(g, h, i + 1, |g|);
    ScaleMono(d, Prod(g, i + 1, |g|), Prod(h, i + 1, |g|));
  }

  lemma ScaleMono(d: real, x: real, y: real)
    requires d > 0.0 && x <= y
    ensures d * x <= d * y
    ensures x < y ==> d * x < d * y
  {
  }

  /** All day factors of a window are positive, so no contribution changes sign and none is NaN. */
  predicate PositiveFactors(prices: seq<real>, start: nat, duration: nat, leverage: real, dailyFee: real)
    requires PositivePrices(prices) && InSeries(prices, start, duration)
  {
    forall k :: 0 <= k < duration ==> DayFactor(prices, start, k, leverage, dailyFee) > 0.0
  }

  /** The end values of two trials over the same window, as sums of compounded contributions. */
  lemma TwoTrials(prices: seq<real>, start: nat, duration: nat, d: real, annualFee1: real, annualFee2: real,
                  fee1: real, fee2: real, lev1: real, lev2: real)
    requires PositivePrices(prices) && duration >= 1 && InSeries(prices, start, duration)
    requires PositiveFactors(prices, start, duration, lev1, fee1)
    requires PositiveFactors(prices, start, duration, lev2, fee2)
    ensures Simulate(prices, start, duration, d, annualFee1, fee1, lev1).Some?
    ensures Simulate(prices, start, duration, d, annualFee2, fee2, lev2).Some?
    ensures Simulate(prices, start, duration, d, annualFee1, fee1, lev1).value.endValue
            == Num(Sum(CompoundedValues(d, Factors(prices, start, duration, lev1, fee1))))
    ensures Simulate(prices, start, duration, d, annualFee2, fee2, lev2).value.endValue
            == Num(Sum(CompoundedValues(d, Factors(prices, start, duration, lev2, fee2))))
  {
    var f1, f2 := Factors(prices, start, duration, lev1, fee1), Factors(prices, start, duration, lev2, fee2);
    assert forall k :: 0 <= k < duration ==> f1[k] > 0.0 && f2[k] > 0.0;
    EndValueCompounded(prices, start, duration, d, annualFee1, fee1, lev1);
    EndValueCompounded(prices, start, duration, d, annualFee2, fee2, lev2);
  }

  /** A higher daily fee lowers every day factor by the difference of the fees. */
  lemma FeeFactors(prices: seq<real>, start: nat, duration: nat, leverage: real, fee1: real, fee2: real)
    requires PositivePrices(prices) && InSeries(prices, start, duration) && fee1 < fee2
    requires PositiveFactors(prices, start, duration, leverage, fee2)
    ensures PositiveFactors(prices, start, duration, leverage, fee1)
    ensures forall k :: 0 <= k < duration ==>
              0.0 < Factors(prices, start, duration, leverage, fee2)[k] < Factors(prices, start, duration, leverage, fee1)[k]
  {
    forall k | 0 <= k < duration ensures DayFactor(prices, start, k, leverage, fee1) > DayFactor(prices, start, k, leverage, fee2) > 0.0 {
    }
  }

  /**
   * A higher fee (a higher annual rate and the higher daily rate derived from it)
   * lowers the end value, strictly once the window has two days.
   */
  lemma FeeMonotone(prices: seq<real>, start: nat, duration: nat, d: real, leverage: real,
                    annualFee1: real, annualFee2: real, fee1: real, fee2: real)
    requires PositivePrices(prices) && duration >= 1 && InSeries(prices, start, duration)
    requires d > 0.0 && annualFee1 < annualFee2 && fee1 < fee2
    requires PositiveFactors(prices, start, duration, leverage, fee2)
    ensures Simulate(prices, start, duration, d, annualFee1, fee1, leverage).Some?
    ensures Simulate(prices, start, duration, d, annualFee2, fee2, leverage).Some?
    ensures Simulate(prices, start, duration, d, annualFee1, fee1, leverage).value.endValue.Num?
    ensures Simulate(prices, start, duration, d, annualFee2, fee2, leverage).value.endValue.Num?
    ensures Simulate(prices, start, duration, d, annualFee2, fee2, leverage).value.endValue.val
            <= Simulate(prices, start, duration, d, annualFee1, fee1, leverage).value.endValue.val
    ensures duration >= 2 ==>
            Simulate(prices, start, duration, d, annualFee2, fee2, leverage).value.endValue.val
            < Simulate(prices, start, duration, d, annualFee1, fee1, leverage).value.endValue.val
  {
    FeeFactors(prices, start, duration, leverage, fee1, fee2);
    TwoTrials(prices, start, duration, d, annualFee1, annualFee2, fee1, fee2, leverage, leverage);
    FeeSums(prices, start, duration, d, leverage, fee1, fee2);
  }

  /** A higher annual fee rate gives a higher `Total Fee`. */
  lemma FeeChargedMonotone(prices: seq<real>, start: nat, duration: nat, d: real, leverage: real,
                           annualFee1: real, annualFee2: real, fee1: real, fee2: real)
    requires PositivePrices(prices) && duration >= 1 && InSeries(prices, start, duration)
    requires d > 0.0 && annualFee1 < annualFee2
    ensures Simulate(prices, start, duration, d, annualFee1, fee1, leverage).Some?
    ensures Simulate(prices, start, duration, d, annualFee2, fee2, leverage).Some?
    ensures Simulate(prices, start, duration, d, annualFee1, fee1, leverage).value.totalFee
            < Simulate(prices, start, duration, d, annualFee2, fee2, leverage).value.totalFee
  {
    var x := (duration as real / TradingDaysPerYear as real) * (d * duration as real);
    assert x > 0.0 by {
      ScaleMono(d, 0.0, duration as real);
      ScaleMono(duration as real / TradingDaysPerYear as real, 0.0, d * duration as real);
    }
    ScaleMono(x, annualFee1, annualFee2);
  }

  /** A higher daily fee lowers the sum of the compounded contributions, strictly over two or more days. */
  lemma FeeSums(prices: seq<real>, start: nat, duration: nat, d: real, leverage: real, fee1: real, fee2: real)
    requires PositivePrices(prices) && InSeries(prices, start, duration) && d > 0.0 && fee1 < fee2
    requires PositiveFactors(prices, start, duration, leverage, fee2)
    ensures Sum(CompoundedValues(d, Factors(prices, start, duration, leverage, fee2)))
            <= Sum(CompoundedValues(d, Factors(prices, start, duration, leverage, fee1)))
    ensures duration >= 2 ==>
            Sum(CompoundedValues(d, Factors(prices, start, duration, leverage, fee2)))
            < Sum(CompoundedValues(d, Factors(prices, start, duration, leverage, fee1)))
  {
    FeeFactors(prices, start, duration, leverage, fee1, fee2);
    CompoundedMono(d, Factors(prices, start, duration, leverage, fee2), Factors(prices, start, duration, leverage, fee1));
  }

  /** The total return grows with the end value when something is invested. */
  lemma ReturnMono(v1: real, v2: real, invested: real)
    requires invested > 0.0 && v1 < v2
    ensures ReturnOn(Num(v1), invested).val < ReturnOn(Num(v2), invested).val
  {
  }

  /** Every day of the window closes above the day before. */
  predicate RisingWindow(prices: seq<real>, start: nat, duration: nat)
    requires InSeries(prices, start, duration)
  {
    forall k :: start <= k < start + duration ==> prices[k] < prices[k + 1]
  }

  /** Every day of the window closes below the day before. */
  predicate FallingWindow(prices: seq<real>, start: nat, duration: nat)
    requires InSeries(prices, start, duration)
  {
    forall k :: start <= k < start + duration ==> prices[k + 1] < prices[k]
  }

  /**
   * Each day of the window the extra leverage earns more than the extra daily fee
   * costs: `(lev2 - lev1) * r > fee2 - fee1` for every daily return `r`.
   */
  predicate LeverageBeatsFee(prices: seq<real>, start: nat, duration: nat, lev1: real, fee1: real,
                             lev2: real, fee2: real)
    requires PositivePrices(prices) && InSeries(prices, start, duration)
  {
    forall k :: start <= k < start + duration ==> (lev2 - lev1) * (prices[k + 1] / prices[k] - 1.0) > fee2 - fee1
  }

  /** At one daily fee, a window that rises every day is one where more leverage beats the fee. */
  lemma RisingBeatsFee(prices: seq<real>, start: nat, duration: nat, lev1: real, lev2: real, fee: real)
    requires PositivePrices(prices) && InSeries(prices, start, duration) && lev1 < lev2
    requires RisingWindow(prices, start, duration)
    ensures LeverageBeatsFee(prices, start, duration, lev1, fee, lev2, fee)
  {
    forall k | start <= k < start + duration
      ensures (lev2 - lev1) * (prices[k + 1] / prices[k] - 1.0) > 0.0
    {
      assert prices[k] < prices[k + 1];
      PositiveExcess(prices[k], prices[k + 1], lev2 - lev1);
    }
    assert fee - fee == 0.0;
  }

  /** `l * (q / p - 1)` is positive when `q` is above `p` and `l` is positive. */
  lemma PositiveExcess(p: real, q: real, l: real)
    requires 0.0 < p < q && l > 0.0
    ensures l * (q / p - 1.0) > 0.0
  {
    assert q / p > 1.0;
  }

  /**
   * More leverage at a daily fee at least as high lowers every day factor of a falling
   * window, and raises every day factor of a window where it beats the extra fee.
   */
  lemma LeverageFactors(prices: seq<real>, start: nat, duration: nat, lev1: real, fee1: real,
                        lev2: real, fee2: real)
    requires PositivePrices(prices) && InSeries(prices, start, duration) && lev1 < lev2 && fee1 <= fee2
    ensures LeverageBeatsFee(prices, start, duration, lev1, fee1, lev2, fee2) ==> forall k :: 0 <= k < duration ==>
              Factors(prices, start, duration, lev1, fee1)[k] < Factors(prices, start, duration, lev2, fee2)[k]
    ensures FallingWindow(prices, start, duration) ==> forall k :: 0 <= k < duration ==>
              Factors(prices, start, duration, lev2, fee2)[k] < Factors(prices, start, duration, lev1, fee1)[k]
  {
    var f1, f2 := Factors(prices, start, duration, lev1, fee1), Factors(prices, start, duration, lev2, fee2);
    forall k | 0 <= k < duration
      ensures LeverageBeatsFee(prices, start, duration, lev1, fee1, lev2, fee2) ==> f1[k] < f2[k]
      ensures FallingWindow(prices, start, duration) ==> f2[k] < f1[k]
    {
      if FallingWindow(prices, start, duration) {
        assert prices[start + k + 1] < prices[start + k];
      }
      LeverageStep(prices[start + k], prices[start + k + 1], lev1, fee1, lev2, fee2);
    }
  }

  /**
   * Over a window of two days or more, more leverage at a daily fee at least as high
   * gives a strictly lower total return when the window falls every day, and a strictly
   * higher one when on every day the extra leverage earns more than the extra fee;
   * at one and the same daily fee that is every window that rises every day.
   */
  lemma LeverageAmplifies(prices: seq<real>, start: nat, duration: nat, d: real, annualFee1: real,
                          annualFee2: real, fee1: real, fee2: real, lev1: real, lev2: real)
    requires PositivePrices(prices) && duration >= 2 && InSeries(prices, start, duration)
    requires d > 0.0 && lev1 < lev2 && fee1 <= fee2
    requires PositiveFactors(prices, start, duration, lev1, fee1)
    requires PositiveFactors(prices, start, duration, lev2, fee2)
    ensures Simulate(prices, start, duration, d, annualFee1, fee1, lev1).Some?
    ensures Simulate(prices, start, duration, d, annualFee2, fee2, lev2).Some?
    ensures Simulate(prices, start, duration, d, annualFee1, fee1, lev1).value.totalReturn.Num?
    ensures Simulate(prices, start, duration, d, annualFee2, fee2, lev2).value.totalReturn.Num?
    ensures LeverageBeatsFee(prices, start, duration, lev1, fee1, lev2, fee2) ==>
              Simulate(prices, start, duration, d, annualFee1, fee1, lev1).value.totalReturn.val
              < Simulate(prices, start, duration, d, annualFee2, fee2, lev2).value.totalReturn.val
    ensures RisingWindow(prices, start, duration) && fee1 == fee2 ==>
              Simulate(prices, start, duration, d, annualFee1, fee1, lev1).value.totalReturn.val
              < Simulate(prices, start, duration, d, annualFee2, fee2, lev2).value.totalReturn.val
    ensures FallingWindow(prices, start, duration) ==>
              Simulate(prices, start, duration, d, annualFee2, fee2, lev2).value.totalReturn.val
              < Simulate(prices, start, duration, d, annualFee1, fee1, lev1).value.totalReturn.val
  {
    var invested := d * duration as real;
    assert invested > 0.0 by {
      ScaleMono(d, 0.0, duration as real);
    }
    TwoTrials(prices, start, duration, d, annualFee1, annualFee2, fee1, fee2, lev1, lev2);
    if RisingWindow(prices, start, duration) && fee1 == fee2 {
      RisingBeatsFee(prices, start, duration, lev1, lev2, fee1);
    }
    LeverageSums(prices, start, duration, d, lev1, fee1, lev2, fee2);
    var v1 := Sum(CompoundedValues(d, Factors(prices, start, duration, lev1, fee1)));
    var v2 := Sum(CompoundedValues(d, Factors(prices, start, duration, lev2, fee2)));
    if v1 < v2 {
      ReturnMono(v1, v2, invested);
    }
    if v2 < v1 {
      ReturnMono(v2, v1, invested);
    }
  }

  /** The sums of compounded contributions behind `LeverageAmplifies`. */
  lemma LeverageSums(prices: seq<real>, start: nat, duration: nat, d: real, lev1: real, fee1: real,
                     lev2: real, fee2: real)
    requires PositivePrices(prices) && duration >= 2 && InSeries(prices, start, duration)
    requires d > 0.0 && lev1 < lev2 && fee1 <= fee2
    requires PositiveFactors(prices, start, duration, lev1, fee1)
    requires PositiveFactors(prices, start, duration, lev2, fee2)
    ensures LeverageBeatsFee(prices, start, duration, lev1, fee1, lev2, fee2) ==>
              Sum(CompoundedValues(d, Factors(prices, start, duration, lev1, fee1)))
              < Sum(CompoundedValues(d, Factors(prices, start, duration, lev2, fee2)))
    ensures FallingWindow(prices, start, duration) ==>
              Sum(CompoundedValues(d, Factors(prices, start, duration, lev2, fee2)))
              < Sum(CompoundedValues(d, Factors(prices, start, duration, lev1, fee1)))
  {
    var f1, f2 := Factors(prices, start, duration, lev1, fee1), Factors(prices, start, duration, lev2, fee2);
    LeverageFactors(prices, start, duration, lev1, fee1, lev2, fee2);
    assert forall k :: 0 <= k < duration ==> f1[k] > 0.0 && f2[k] > 0.0;
    if LeverageBeatsFee(prices, start, duration, lev1, fee1, lev2, fee2) {
      CompoundedMono(d, f1, f2);
    }
    if FallingWindow(prices, start, duration) {
      CompoundedMono(d, f2, f1);
    }
  }

  /**
   * One day's factor under more leverage and a fee at least as high: lower on a down
   * day, higher on a day where the extra leverage earns more than the extra fee.
   */
  lemma LeverageStep(p: real, q: real, lev1: real, fee1: real, lev2: real, fee2: real)
    requires p > 0.0 && lev1 < lev2 && fee1 <= fee2
    ensures (lev2 - lev1) * (q / p - 1.0) > fee2 - fee1 ==>
              1.0 + (lev1 * (q / p - 1.0) - fee1) < 1.0 + (lev2 * (q / p - 1.0) - fee2)
    ensures q < p ==> 1.0 + (lev2 * (q / p - 1.0) - fee2) < 1.0 + (lev1 * (q / p - 1.0) - fee1)
  {
    var r := q / p - 1.0;
    assert lev2 * r - lev1 * r == (lev2 - lev1) * r;
    if q < p {
      assert q / p < 1.0;
      assert lev2 * r < lev1 * r;
      assert 1.0 + (lev2 * r - fee2) < 1.0 + (lev1 * r - fee1);
    }
  }
}
