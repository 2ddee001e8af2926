# Dollar-cost-averaging backtest of the S&P 500, modelled in Dafny

The page runs a Monte Carlo backtest of a savings plan. A fixed amount goes into an
index fund every trading day: the plain S&P 500 with a 0.25 % annual fee, or a
twice-leveraged S&P 500 with a 0.35 % annual fee. Each trial has a random start day in
the historical daily price series and a random duration. It reports:

- the total invested;
- the fee;
- the end portfolio value;
- the total return.

The trials of both strategies go into one results table. Each row is tagged with its
strategy and with its duration rounded to whole years. The table is then grouped by
(years, strategy) into two outputs:

- a summary table: mean, median, minimum and maximum end value, mean invested amount,
  mean fee and share of positive returns;
- a risk curve: the share of negative returns.

The model has seven modules:

- `Wrappers` (`wrappers.dfy`): the `Option` and `Result` types the others return.

- `Simulator` (`simulator.dfy`): one trial, `simulate_investment`.
  - Prices and money are exact reals.
  - `np.cumprod`, the division by the running product and `np.sum` are written out.
  - A NaN end value is modelled explicitly. numpy produces one when some growth factor
    is zero, because the running product then becomes zero and `0 / 0` follows.
  - It is proved that:
    - the window is rejected exactly when it runs past the end of the series;
    - each daily factor is `leverage * (p[k+1] / p[k] - 1) - daily fee`;
    - when no factor is zero, the contribution of day `i` is compounded through the
      factors of days `i+1 .. n-1`, so the last contribution ends at its face value;
      the first day's factor is never applied;
    - with leverage 1 and no fee, contribution `i` is worth `d * p[n] / p[i+1]`;
    - the end value is NaN exactly when some factor is zero;
    - when every day factor is positive and the daily amount is positive, a lower fee
      never lowers the end value;
    - under the same two conditions, more leverage at a daily fee at least as high
      gives a lower return on a window
      that falls every day, and a higher one on a window where, every day, the extra
      leverage earns more than the extra fee. At one and the same fee, that is every
      window that rises every day. This covers the page's comparison of leverage 2 at
      0.35 % against leverage 1 at 0.25 % (`Study.StrategiesCompared`).
- `Runner` (`runner.dfy`): `run_simulations`, as two loops.
  - The first loop copies the given random draws into the argument list. It fails
    (numpy's `ValueError`) when the start range `[0, total - max - 1)` or the duration
    range `[min, max]` is empty.
  - The second loop evaluates the trials in batches of 100 and keeps the non-`None`
    results.
  - It is proved that batching equals a single filter over a single map. Legal draws
    are never rejected, so there is exactly one trial per draw, in draw order.
- `Stats` (`stats.dfy`): sum, minimum, maximum, mean and median of a non-empty sequence
  of reals. The median sorts, then takes the middle value or the average of the two
  middle ones.
- `Results` (`results.dfy`): the `Strategy` column, assigned by position, and the
  `Duration (Years)` column.
  - The years are numpy's `round` of `days / 252`, ties to even. `RoundingUnique`
    characterises it.
  - A duration between `min * 252` and `max * 252` days lands in a bucket between `min`
    and `max` years.
- `Summary` (`summary.dfy`): the `(Duration (Years), Strategy)` group-by of the summary
  table and of the risk curve, with pandas' conventions:
  - groups come sorted by key, and the label order is proved to be string order;
  - `mean`, `median`, `min` and `max` skip NaN;
  - `(x > 0).mean()` treats NaN as false but counts it in the group size.

  It is proved that:
  - the groups partition the table;
  - both outputs list the same keys, sorted, and exactly the keys present;
  - the end-value statistics are ordered;
  - the percentages lie in `[0, 100]` and add up to at most 100, with exactly 100 when
    every return is finite and non-zero.
- `Study` (`study.dfy`): the page's constants and the two runs tagged into the results
  table.

Three properties of the code are proved and worth knowing:

- Sampling bound: the sampled start range stops one day short of what
  `simulate_investment` would accept. A drawn window therefore ends at index at most
  `total - 2` (`SampleAccepted`), and the last price of the series is never an end
  price.
- NaN trials are kept: a zero growth factor makes `End Portfolio Value` NaN, and the
  trial stays in the results. A zero factor needs a daily return of exactly
  `(fee - 1) / leverage`, e.g. a 50 % drop at leverage 2 with no fee.
- Fee formula: `Total Fee (€)` is the one-shot formula
  `annual_fee * days / 252 * total_invested`. It is not the sum of the fees deducted
  day by day, and the model states it as the code computes it.

## Model

| member | source | states |
|---|---|---|
| `Simulator.Simulate` | simulation_page.py:50-82 | `None` exactly when `start + duration >= len(prices)`. Otherwise the trial records the start and duration, `total_invested = d * duration`, `total_fee = annual_fee * duration / 252 * total_invested` and `total_return = (value - invested) / invested`. |
| `Simulator.Slice` | simulation_page.py:56 | Python's `s[lo:hi]`: as many elements as the clamped range holds, element `k` being `s[lo + k]`. |
| `Simulator.DailyReturns` | simulation_page.py:60 | `np.diff(w) / w[:-1]` has one entry fewer than the window. |
| `Simulator.Adjusted` | simulation_page.py:62 | One adjusted return per daily return; with leverage 1 and no fee the returns are unchanged. |
| `Simulator.Growth` | simulation_page.py:64 | One growth factor per adjusted return; a factor is positive exactly when the day loses less than everything, and zero exactly when it loses all. |
| `Simulator.CumProd` | simulation_page.py:64 | Entry `j` of the running product is the product of factors `0 .. j`. |
| `Simulator.ContributionValues` | simulation_page.py:65-66 | One future value per day of the window. |
| `Simulator.FloatSum` | simulation_page.py:69 | `np.sum` is NaN exactly when some term is NaN. |
| `Simulator.ReturnOn` | simulation_page.py:71 | The total return is NaN exactly when the end value is NaN or nothing was invested. |
| `Simulator.WindowShape` | simulation_page.py:52-60 | An accepted window holds exactly `duration + 1` prices, `prices[start + k]` for each `k`, and yields exactly `duration` daily returns. |
| `Simulator.AdjustedReturn` | simulation_page.py:60-62 | Each adjusted daily return equals `leverage * (p[k+1] / p[k] - 1) - daily_fee`. |
| `Simulator.GrowthIsFactors` | simulation_page.py:60-64 | The factors compounded are exactly the day factors of the window. |
| `Simulator.EndValueIsFactorSum` | simulation_page.py:64-69 | The reported end value is the NaN-aware sum of the contribution values over the day factors. |
| `Simulator.ProdSplit` | simulation_page.py:64-65 | A product of factors splits at any point of its range, which is what makes `cum[last] / cum[i]` telescope. |
| `Simulator.ProdZero` | simulation_page.py:64-65 | A running product is zero exactly when one of its factors is. |
| `Simulator.Compounding` | simulation_page.py:64-66 | With no zero factor, contribution `i` is worth `d` times the product of factors `i+1 .. n-1`. |
| `Simulator.LastContribution` | simulation_page.py:65-66 | When no factor is zero, the last contribution ends at exactly the daily amount. |
| `Simulator.FirstFactorUnused` | simulation_page.py:64-66 | For two factor sequences, neither with a zero factor, that differ only in the first day's factor, every contribution is the same: day 0's return is never applied. |
| `Simulator.TotalValue` | simulation_page.py:64-69 | The sum is NaN exactly when a factor is zero, and otherwise is the sum of the compounded contributions. |
| `Simulator.EndValueNaN` | simulation_page.py:60-69 | A trial's end value is NaN exactly when some day factor of its window is zero. |
| `Simulator.EndValueCompounded` | simulation_page.py:60-71 | With no zero factor, the end value is the sum of the compounded contributions and the return is computed from it. |
| `Simulator.ZeroInvestmentValue` | simulation_page.py:66-69 | With a daily investment of 0 the end value is 0 or NaN. |
| `Simulator.ReturnRoundTrip` | simulation_page.py:71 | When the investment is non-zero, the return is finite and the end value is recovered as `invested * (1 + total_return)`. |
| `Simulator.RatiosTelescope` | simulation_page.py:60-65 | The price relatives of days `j ..` multiply to `p[b] / p[a + j]`. |
| `Simulator.UnleveragedFactors` | simulation_page.py:60-62 | With leverage 1 and no fee the day factors are the price relatives, none zero. |
| `Simulator.UnleveragedContribution` | simulation_page.py:60-66 | With leverage 1 and no fee, contribution `i` is worth `d * p[start + n] / p[start + i + 1]`. |
| `Simulator.UnleveragedCompounded` | simulation_page.py:60-66 | With leverage 1 and no fee, the compounded contributions are the closed-form values `d * p[start + n] / p[start + i + 1]`. |
| `Simulator.UnleveragedEndValue` | simulation_page.py:60-69 | With leverage 1 and no fee, the end value is the sum of those closed-form contributions. |
| `Simulator.FivePriceExample` | simulation_page.py:50-82 | Prices 100 .. 104 over four days give `d * (104/101 + 104/102 + 104/103 + 1)`. |
| `Simulator.ProdMono` | simulation_page.py:64-65 | Products of positive factors grow with their factors, strictly when every factor does. |
| `Simulator.CompoundedMono` | simulation_page.py:64-69 | For a positive daily amount, positive factors that are each at least as large give a sum of compounded contributions at least as large, strictly larger over two or more days when every factor is strictly larger. |
| `Simulator.TwoTrials` | simulation_page.py:60-69 | Two trials over the same window, with every day factor of both positive, are accepted and have finite end values that are sums of compounded contributions. |
| `Simulator.FeeFactors` | simulation_page.py:62 | When the day factors under the higher daily fee are positive, the lower fee gives strictly larger factors, so they are positive too. |
| `Simulator.FeeSums` | simulation_page.py:62-69 | When the day factors under the higher fee are positive and the daily amount is positive, a higher daily fee gives a lower sum of compounded contributions, strictly over two or more days. |
| `Simulator.FeeMonotone` | simulation_page.py:61-69 | When the day factors under the higher fee are positive and the daily amount is positive, a higher fee gives a lower end value, strictly over two or more days. |
| `Simulator.FeeChargedMonotone` | simulation_page.py:70 | For a positive daily amount, a higher annual fee rate gives a strictly higher `total_fee`. |
| `Simulator.ReturnMono` | simulation_page.py:71 | When something is invested (`invested > 0`), the total return grows strictly with the end value. |
| `Simulator.RisingBeatsFee` | simulation_page.py:62 | At one daily fee, on a window that rises every day more leverage earns more than the (zero) extra fee each day. |
| `Simulator.LeverageFactors` | simulation_page.py:62 | More leverage at a daily fee at least as high lowers every factor of a falling window, and raises every factor of a window where the extra leverage beats the extra fee each day. |
| `Simulator.LeverageSums` | simulation_page.py:62-69 | With every day factor of both trials positive and a positive daily amount, under the same conditions the sum of compounded contributions is strictly smaller, respectively strictly larger, over two or more days. |
| `Simulator.LeverageAmplifies` | simulation_page.py:60-71 | Two trials with leverage `lev1 < lev2` and daily fees `fee1 <= fee2`, annual fees arbitrary, over two or more days, with every day factor of both trials positive and a positive daily amount: the more leveraged one returns strictly less on a window that falls every day, and strictly more where the extra leverage beats the extra fee every day; at equal fees, on every window that rises every day. |
| `Simulator.LeverageStep` | simulation_page.py:62 | One day's factor under more leverage and a fee at least as high is lower on a down day, and higher on a day where the extra leverage beats the extra fee. |
| `Runner.SimulateAll` | simulation_page.py:101 | The worker-pool map gives one result per argument. |
| `Runner.Survivors` | simulation_page.py:102 | Dropping `None`s never lengthens the list. |
| `Runner.SurvivorsSound` | simulation_page.py:102 | Every kept trial was a result of the map. |
| `Runner.SurvivorsAppend` | simulation_page.py:102 | Filtering distributes over concatenation. |
| `Runner.SurvivorsOfAllSome` | simulation_page.py:102 | Filtering a list without `None` keeps every value, in order. |
| `Runner.SimulateAllAppend` | simulation_page.py:99-101 | Mapping over a concatenation is the concatenation of the maps. |
| `Runner.BatchStep` | simulation_page.py:98-102 | Extending with the filtered batch `lo .. hi` gives the filtered results of `.. hi`. |
| `Runner.SampleAccepted` | simulation_page.py:53 | A draw from non-empty ranges ends before `len(prices) - 1`, so the simulator accepts it. |
| `Runner.NoRejection` | simulation_page.py:87-104 | With legal draws from non-empty ranges, the results match the draws one for one, in order. |
| `Runner.EvaluateInBatches` | simulation_page.py:96-104 | The batched filter-and-extend loop returns exactly the filtered map over all arguments. |
| `Runner.RunSimulations` | simulation_page.py:85-104 | Fails exactly when trials are requested and the start range or the duration range is empty, naming which. Otherwise it returns exactly one trial per draw, each the simulation of its draw. |
| `Stats.Min` | simulation_page.py:129 | The minimum is an element and bounds every element from below. |
| `Stats.Max` | simulation_page.py:130 | The maximum is an element and bounds every element from above. |
| `Stats.Mean` | simulation_page.py:127 | The mean lies between the minimum and the maximum. |
| `Stats.Median` | simulation_page.py:128 | The median lies between the minimum and the maximum. |
| `Stats.SortAscending` | simulation_page.py:128 | Sorting gives an ascending permutation. |
| `Results.RoundHalfEven` | simulation_page.py:122 | The result is within half a unit of `n / d`, and even on a tie. |
| `Results.RoundingUnique` | simulation_page.py:122 | No other integer is within half a unit of `n / d` and even on ties. |
| `Results.NearestBoth` | simulation_page.py:122 | Two integers that are both within half a unit of `n / d`, and even on ties, are equal. |
| `Results.YearBucket` | simulation_page.py:122 | `(days / 252).round()`: a non-negative number of years within 126 days of `days`, even when `days` lies exactly halfway. |
| `Results.YearBucketBounds` | simulation_page.py:40-41 | A duration between `min * 252` and `max * 252` days rounds to between `min` and `max` years. |
| `Results.YearBucketExact` | simulation_page.py:122 | `years * 252` days round to `years`. |
| `Results.Labels` | simulation_page.py:121 | Label `k` is `S&P 500` exactly when `k < len(results_sp500)`. |
| `Results.Tag` | simulation_page.py:119-122 | The first `len(sp)` rows are the unleveraged trials labelled `S&P 500` and the rest are the leveraged ones, in order, each with its year bucket. |
| `Results.TagYearBounds` | simulation_page.py:119-122 | Every tagged row's year bucket lies in the configured range. |
| `Summary.RankIsLabelOrder` | simulation_page.py:126 | The group order of the strategies is the string order of their labels. |
| `Summary.InsertKey` | simulation_page.py:126 | Inserting a key keeps the key list strictly sorted and adds exactly that key. |
| `Summary.GroupKeys` | simulation_page.py:126 | The group keys are strictly sorted and are exactly the keys of the rows. |
| `Summary.Group` | simulation_page.py:126 | A group holds only rows of its key, and is non-empty exactly when the key occurs. |
| `Summary.GroupCounts` | simulation_page.py:126 | A group holds each row of its key exactly as often as the table does, and no other row. |
| `Summary.RowInItsGroup` | simulation_page.py:126 | Every row lies in the group of its key, and that key is listed. |
| `Summary.GroupsPartition` | simulation_page.py:126 | The group sizes add up to the number of rows. |
| `Summary.Finite` | simulation_page.py:127-130 | Skipping NaN keeps exactly the finite values, each as often as it occurs. |
| `Summary.FiniteEmpty` | simulation_page.py:127-130 | Nothing finite is left exactly when every value is NaN. |
| `Summary.NanMean` | simulation_page.py:127 | The NaN-skipping mean is NaN exactly when every value is NaN, and otherwise lies between the smallest and the largest finite value. |
| `Summary.NanMedian` | simulation_page.py:128 | The NaN-skipping median is NaN exactly when every value is NaN, and otherwise lies between the smallest and the largest finite value. |
| `Summary.NanMin` | simulation_page.py:129 | The NaN-skipping minimum is NaN exactly when every value is NaN, and otherwise is one of the values and at most every finite one. |
| `Summary.NanMax` | simulation_page.py:130 | The NaN-skipping maximum is NaN exactly when every value is NaN, and otherwise is one of the values and at least every finite one. |
| `Summary.Positives` | simulation_page.py:133 | The count of positive returns is at most the group size, 0 exactly when no return is positive and the group size exactly when all are. |
| `Summary.Negatives` | simulation_page.py:169 | The count of negative returns is at most the group size, 0 exactly when no return is negative and the group size exactly when all are. |
| `Summary.Percentage` | simulation_page.py:133 | `mean() * 100` of a boolean column is at least 0, 0 exactly for no true entry, at most 100 exactly when the count is within the size, and 100 exactly when every entry is true. |
| `Summary.Summarize` | simulation_page.py:126-134 | A group's summary row carries its key, a positive share in `[0, 100]` that is 0 or 100 exactly when no or every return is positive, and a mean invested amount and mean fee between their extremes in the group. |
| `Summary.SummaryTable` | simulation_page.py:126-134 | One row per group key, in key order, each with a positive share in `[0, 100]`. |
| `Summary.RiskCurve` | simulation_page.py:167-171 | One point per group key, in key order, each with a negative share in `[0, 100]`. |
| `Summary.TableKeys` | simulation_page.py:126-134 | Both outputs list each present key once, sorted, and the risk curve's keys are the summary table's keys, in the same order. |
| `Summary.EndValueStatistics` | simulation_page.py:127-130 | The four end-value statistics are NaN exactly when every end value is. Otherwise the minimum and maximum are attained and bound every finite value, with the median and the mean between them. |
| `Summary.AllNaNEndValues` | simulation_page.py:127-130 | The end-value column of a group is all NaN exactly when every trial's end value is. |
| `Summary.SummarizeBounds` | simulation_page.py:126-134 | In each group, the mean invested amount and the mean fee lie between their extremes, and the positive share is a percentage. |
| `Summary.SummaryRowBounds` | simulation_page.py:126-134 | Each row of the summary table summarizes the non-empty group of its key. |
| `Summary.SignCounts` | simulation_page.py:133 | The positive and negative counts add up to at most the group size, and to exactly the size when every return is finite and non-zero. |
| `Summary.PercentageSum` | simulation_page.py:133 | Counts within the group size give percentages at least 0 that add up to at most 100, and to exactly 100 when the counts fill the group. |
| `Summary.PercentagesBounded` | simulation_page.py:133 | The positive and negative percentages of a group each lie in `[0, 100]` and add up to at most 100. |
| `Summary.PositivesAndNegatives` | simulation_page.py:167-171 | A group's positive and negative percentages add up to 100 exactly when no return is NaN or zero. |
| `Summary.RiskPointOfGroup` | simulation_page.py:167-171 | Each risk-curve point is the percentage of negative returns in the non-empty group of its key: 0 exactly when none is negative, 100 exactly when all are. |
| `Summary.RiskCurveBounds` | simulation_page.py:167-171 | Each risk-curve point is a percentage, and with the positive share of the summary row of the same group it adds up to at most 100. |
| `Summary.ThreeReturnsExample` | simulation_page.py:133 | Returns of +10 %, -5 % and +20 % give 200/3 % positive and 100/3 % negative. |
| `Study.DurationDays` | simulation_page.py:40-41 | `years * 252` days is a whole number of trading years. |
| `Study.RunStudy` | simulation_page.py:110-122 | Given at least 100 simulations, the input's lower bound, it fails exactly when sampling is impossible. Otherwise the table has `2 * num_simulations` rows, the unleveraged trials first, each row the simulation of its draw with its label and a year bucket in the configured range. |
| `Study.TaggedRuns` | simulation_page.py:119-122 | Tagging two runs over legal draws gives that table. |
| `Study.StrategiesCompared` | simulation_page.py:111-115 | On one draw of two or more days, with the leveraged fund's daily fee at least the unleveraged one's and every day factor of both trials positive, the leveraged trial returns strictly less over a window that falls every day, and strictly more where doubling the leverage beats the extra fee every day. |
| `Study.RunDurations` | simulation_page.py:93-94 | Each trial lasts as long as its draw, within the configured day bounds. |

## Left out

- The Streamlit interface is not modelled. That covers the title, the progress bar, the status text and the number inputs. Their values become parameters; `minYears >= 1` and `numSimulations >= 100` match the inputs' lower bounds. With no simulations the code would fail at the `Duration (Days)` column of an empty table (`KeyError`); the input's minimum of 100 rules that out, and `Study.RunStudy` requires it. The upper bounds of the inputs are not needed by any proof.
- The price download through `yfinance` is network I/O. The adjusted closing prices are an input sequence of positive reals.
- CSV output, the histograms, the risk-curve and box plots are file output and rendering, and are not modelled.
- The `numerize` formatting of the summary table is a display library and is not modelled.
- The thread pool is modelled as a sequential map. The pool returns results in argument order, so nothing observable is lost.
- `np.random.choice` and `np.random.randint` become given draws. Their ranges are preconditions whenever the range is non-empty.
- The daily fee `(1 + annual_fee) ** (1 / 252) - 1` is a fractional power. It is a parameter of the model: the model does not relate it to the annual fee.
- The annualized return, also a fractional power, is not modelled.
- Floating point is not modelled: prices and money are exact reals, with no rounding, overflow or infinities. The one IEEE effect kept is the NaN of `0 / 0` described above.
- The `Start Date` column is not modelled. It holds `daily_prices.index[start_idx]`, which the model keeps as the start index.
- A duration of 0 is excluded by `Simulate`'s precondition. In the code, when `start < len(prices)`, it raises `IndexError` at `cumulative_returns[-1]`; otherwise the window check returns `None` first. The runner never draws one.
- The second window check, the slice length, can never fail once the first check passes. It is modelled but not treated as a separate case.
- display_page.py (a dashboard over stored results) and gcs_utils.py (cloud-storage wrappers) are UI and network I/O, and are not part of this model.
- `Simulator.Simulate`: `total_return` with nothing invested is NaN whatever the end value. numpy's `x / 0` would give ±inf for a non-zero `x`, but the end value is then 0 or NaN (`ZeroInvestmentValue`), so this never differs.
