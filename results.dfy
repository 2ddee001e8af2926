/**
 * The results table: the trials of both strategies, each tagged with its strategy
 * and with its duration rounded to whole years.
 */
module Results {
  import opened Simulator

  /** The two strategies the page simulates. */
  datatype Strategy = SP500 | LeveragedSP500
  {
    /** The label written in the `Strategy` column. */
    function Label(): string
    {
      match this
      case SP500 => "S&P 500"
      case LeveragedSP500 => "Leveraged S&P 500"
    }
  }

  /** A row of the results table: a trial with its `Strategy` and `Duration (Years)` columns. */
  datatype Row = Row(trial: Trial, strategy: Strategy, years: int)

  /**
   * numpy's rounding of `n / d` to the nearest integer, ties to the even one.
   * The quotient of two integers is exact enough in float64 for a tie to be a true tie.
   */
  function RoundHalfEven(n: int, d: int): (r: int)
    requires d > 0
    ensures -d <= 2 * (n - r * d) <= d
    ensures (2 * (n - r * d) == d || 2 * (n - r * d) == -d) ==> r % 2 == 0
  {
    var q, rem := n / d, n % d;
    if 2 * rem < d then q
    else if 2 * rem > d then q + 1
    else if q % 2 == 0 then q
    else q + 1
  }

  /** The two properties above pin the rounded value down: no other integer has them. */
  lemma RoundingUnique(n: int, d: int, m: int)
    requires d > 0
    requires -d <= 2 * (n - m * d) <= d
    requires (2 * (n - m * d) == d || 2 * (n - m * d) == -d) ==> m % 2 == 0
    ensures m == RoundHalfEven(n, d)
  {
    NearestBoth(n, d, m, RoundHalfEven(n, d));
  }

  /** Two integers both nearest to `n / d`, ties to even, are equal. */
  lemma NearestBoth(n: int, d: int, m: int, r: int)
    requires d > 0
    requires -d <= 2 * (n - m * d) <= d
    requires (2 * (n - m * d) == d || 2 * (n - m * d) == -d) ==> m % 2 == 0
    requires -d <= 2 * (n - r * d) <= d
    requires (2 * (n - r * d) == d || 2 * (n - r * d) == -d) ==> r % 2 == 0
    ensures m == r
  {
    var e := m - r;
    var x := e * d;
    assert (n - r * d) - (n - m * d) == x by {
      assert m * d - r * d == (m - r) * d;
    }
    SmallMultiple(e, d, x);
  }

  /** A multiple `e * d` of `d` within `[-d, d]` is `-d`, `0` or `d`. */
  lemma SmallMultiple(e: int, d: int, x: int)
    requires d > 0 && x == e * d && -d <= x <= d
    ensures -1 <= e <= 1
    ensures e == 1 ==> x == d
    ensures e == -1 ==> x == -d
  {
    if e >= 2 {
      MulAtLeast(e, d);
    } else if e <= -2 {
      MulAtLeast(-e, d);
    }
  }

  lemma MulAtLeast(e: int, d: int)
    requires e >= 2 && d > 0
    ensures e * d >= 2 * d
  {
    assert e * d - 2 * d == (e - 2) * d;
  }

  /** `(days / 252).round().astype(int)`: the `Duration (Years)` bucket. */
  function YearBucket(days: nat): (years: int)
    ensures years >= 0
    ensures years * TradingDaysPerYear - 126 <= days <= years * TradingDaysPerYear + 126
    ensures (days == years * TradingDaysPerYear - 126 || days == years * TradingDaysPerYear + 126) ==> years % 2 == 0
  {
    RoundHalfEven(days, TradingDaysPerYear)
  }

  /** A duration of between `minYears` and `maxYears` whole years of trading days falls in a bucket between them. */
  lemma YearBucketBounds(days: nat, minYears: nat, maxYears: nat)
    requires minYears * TradingDaysPerYear <= days <= maxYears * TradingDaysPerYear
    ensures minYears <= YearBucket(days) <= maxYears
  {
  }

  /** A whole number of years of trading days is its own bucket. */
  lemma YearBucketExact(years: nat)
    ensures YearBucket(years * TradingDaysPerYear) == years
  {
    RoundingUnique(years * 252, 252, years);
  }

  /** `[x] * n`. */
  function Repeat<T>(x: T, n: nat): (s: seq<T>)
    ensures |s| == n
  {
    if n == 0 then [] else [x] + Repeat(x, n - 1)
  }

  lemma {:induction false} RepeatAll<T>(x: T, n: nat)
    ensures forall k :: 0 <= k < n ==> Repeat(x, n)[k] == x
  {
    if n > 0 {
      RepeatAll(x, n - 1);
      assert forall k :: 0 < k < n ==> Repeat(x, n)[k] == Repeat(x, n - 1)[k - 1];
    }
  }

  /** The `Strategy` column: `['S&P 500'] * len(sp) + ['Leveraged S&P 500'] * len(lev)`. */
  function Labels(nsp: nat, nlev: nat): (labels: seq<Strategy>)
    ensures |labels| == nsp + nlev
    ensures forall k :: 0 <= k < nsp + nlev ==> labels[k] == if k < nsp then SP500 else LeveragedSP500
  {
    RepeatAll(SP500, nsp);
    RepeatAll(LeveragedSP500, nlev);
    Repeat(SP500, nsp) + Repeat(LeveragedSP500, nlev)
  }

  /**
   * `results_sp500 + results_leveraged` with its `Strategy` and `Duration (Years)`
   * columns. The first `|sp|` rows are the unleveraged trials labelled `S&P 500`, the
   * rest the leveraged ones labelled `Leveraged S&P 500`, all in their original order.
   */
  function Tag(sp: seq<Trial>, lev: seq<Trial>): (rows: seq<Row>)
    ensures |rows| == |sp| + |lev|
    ensures forall k :: 0 <= k < |sp| ==> rows[k] == Row(sp[k], SP500, YearBucket(sp[k].durationDays))
    ensures forall k :: 0 <= k < |lev| ==>
              rows[|sp| + k] == Row(lev[k], LeveragedSP500, YearBucket(lev[k].durationDays))
  {
    var trials := sp + lev;
    var labels := Labels(|sp|, |lev|);
    seq(|trials|, k requires 0 <= k < |trials| => Row(trials[k], labels[k], YearBucket(trials[k].durationDays)))
  }

  /** Every row of the table has its duration bucketed between the configured bounds. */
  lemma TagYearBounds(sp: seq<Trial>, lev: seq<Trial>, minYears: nat, maxYears: nat)
    requires forall t :: t in sp + lev ==>
               minYears * TradingDaysPerYear <= t.durationDays <= maxYears * TradingDaysPerYear
    ensures forall k :: 0 <= k < |Tag(sp, lev)| ==> minYears <= Tag(sp, lev)[k].years <= maxYears
  {
    var rows := Tag(sp, lev);
    forall k | 0 <= k < |rows| ensures minYears <= rows[k].years <= maxYears {
      var t := if k < |sp| then sp[k] else lev[k - |sp|];
      assert t in sp + lev && rows[k].trial == t;
      YearBucketBounds(t.durationDays, minYears, maxYears);
    }
  }
}
