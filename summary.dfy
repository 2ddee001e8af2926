/**
 * The two tables the page derives from the tagged results: the summary table
 * (statistics of each duration and strategy group) and the risk curve (the share of
 * negative returns in each group).
 *
 * Both group by `(Duration (Years), Strategy)`. pandas sorts the groups by key: years
 * ascending, then the strategy label as a string. Missing values (NaN end values and
 * returns) are skipped by `mean`, `median`, `min` and `max`; a comparison such as
 * `x > 0` is false on NaN, so the percentages count NaN rows as neither positive
 * nor negative while still counting them in the group size.
 */
module Summary {
  import opened Stats
  import opened Simulator
  import opened Results

  /** A group key: `(Duration (Years), Strategy)`. */
  datatype Key = Key(years: int, strategy: Strategy)

  function KeyOf(r: Row): Key
  {
    Key(r.years, r.strategy)
  }

  /** Python's order on strings: lexicographic on characters, a proper prefix first. */
  predicate LexLess(a: string, b: string)
  {
    if a == [] then b != []
    else b != [] && (a[0] < b[0] || (a[0] == b[0] && LexLess(a[1..], b[1..])))
  }

  lemma {:induction false} LexIrreflexive(a: string)
    ensures !LexLess(a, a)
  {
    if a != [] {
      LexIrreflexive(a[1..]);
    }
  }

  /** The position of a strategy among the sorted labels. */
  function Rank(s: Strategy): nat
  {
    match s
    case LeveragedSP500 => 0
    case SP500 => 1
  }

  /** Ranking strategies is sorting their labels: `Leveraged S&P 500` comes before `S&P 500`. */
  lemma RankIsLabelOrder(a: Strategy, b: Strategy)
    ensures Rank(a) < Rank(b) <==> LexLess(a.Label(), b.Label())
  {
    if a == b {
      LexIrreflexive(a.Label());
    }
  }

  /** The order pandas puts the groups in. */
  predicate KeyLess(a: Key, b: Key)
  {
    a.years < b.years || (a.years == b.years && Rank(a.strategy) < Rank(b.strategy))
  }

  /** Keys in strictly ascending order, hence without repetition. */
  predicate SortedKeys(ks: seq<Key>)
  {
    forall i, j :: 0 <= i < j < |ks| ==> KeyLess(ks[i], ks[j])
  }

  /** Some row of `rows` belongs to group `k`. */
  predicate Present(rows: seq<Row>, k: Key)
  {
    exists i :: 0 <= i < |rows| && KeyOf(rows[i]) == k
  }

  lemma PresentCons(rows: seq<Row>, k: Key)
    requires rows != []
    ensures Present(rows, k) <==> KeyOf(rows[0]) == k || Present(rows[1..], k)
  {
    if Present(rows, k) && KeyOf(rows[0]) != k {
      var i :| 0 <= i < |rows| && KeyOf(rows[i]) == k;
      assert rows[1..][i - 1] == rows[i];
    }
    if Present(rows[1..], k) {
      var i :| 0 <= i < |rows[1..]| && KeyOf(rows[1..][i]) == k;
      assert rows[i + 1] == rows[1..][i];
    }
  }

  /** Adds a key to a sorted list of keys, unless it is already there. */
  function InsertKey(k: Key, ks: seq<Key>): (r: seq<Key>)
    requires SortedKeys(ks)
    ensures SortedKeys(r)
    ensures forall x :: x in r <==> x == k || x in ks
  {
    if ks == [] then [k]
    else if k == ks[0] then ks
    else if KeyLess(k, ks[0]) then [k] + ks
    else
      var rest := InsertKey(k, ks[1..]);
      assert KeyLess(ks[0], k);
      assert forall x :: x in rest ==> KeyLess(ks[0], x);
      assert forall j :: 0 < j < |rest| + 1 ==> ([ks[0]] + rest)[j] == rest[j - 1];
      [ks[0]] + rest
  }

  /** The keys of the groups, in the order pandas lists them. */
  function GroupKeys(rows: seq<Row>): (ks: seq<Key>)
    ensures SortedKeys(ks)
    ensures forall k :: k in ks <==> Present(rows, k)
  {
    if rows == [] then []
    else
      var ks := InsertKey(KeyOf(rows[0]), GroupKeys(rows[1..]));
      assert forall k :: Present(rows, k) <==> KeyOf(rows[0]) == k || Present(rows[1..], k) by {
        forall k ensures Present(rows, k) <==> KeyOf(rows[0]) == k || Present(rows[1..], k) {
          PresentCons(rows, k);
        }
      }
      ks
  }

  /** The rows of group `k`, in table order. */
  function Group(rows: seq<Row>, k: Key): (g: seq<Row>)
    ensures |g| <= |rows|
    ensures forall i :: 0 <= i < |g| ==> KeyOf(g[i]) == k && g[i] in rows
    ensures |g| > 0 <==> Present(rows, k)
  {
    if rows == [] then []
    else
      PresentCons(rows, k);
      (if KeyOf(rows[0]) == k then [rows[0]] else []) + Group(rows[1..], k)
  }

  /** A group holds each row of its key as often as the table does, and no other row. */
  lemma {:induction false} GroupCounts(rows: seq<Row>, k: Key)
    ensures forall r :: multiset(Group(rows, k))[r] == if KeyOf(r) == k then multiset(rows)[r] else 0
  {
    if rows != [] {
      GroupCounts(rows[1..], k);
      assert multiset(rows) == multiset([rows[0]]) + multiset(rows[1..]) by {
        assert rows == [rows[0]] + rows[1..];
      }
      if KeyOf(rows[0]) == k {
        assert multiset(Group(rows, k)) == multiset([rows[0]]) + multiset(Group(rows[1..], k));
      } else {
        assert Group(rows, k) == Group(rows[1..], k);
      }
    }
  }

  /** Every row lies in the group of its key, and that group is listed. */
  lemma {:induction false} RowInItsGroup(rows: seq<Row>, i: nat)
    requires i < |rows|
    ensures KeyOf(rows[i]) in GroupKeys(rows)
    ensures rows[i] in Group(rows, KeyOf(rows[i]))
  {
    if i > 0 {
      RowInItsGroup(rows[1..], i - 1);
      assert rows[1..][i - 1] == rows[i];
    }
  }

  /** The sizes of the groups `ks`, added up. */
  function GroupSizes(rows: seq<Row>, ks: seq<Key>): nat
  {
    if ks == [] then 0 else |Group(rows, ks[0])| + GroupSizes(rows, ks[1..])
  }

  /** How often `k` occurs in `ks`. */
  function Occurrences(ks: seq<Key>, k: Key): nat
  {
    if ks == [] then 0 else (if ks[0] == k then 1 else 0) + Occurrences(ks[1..], k)
  }

  lemma {:induction false} OccursOnce(ks: seq<Key>, k: Key)
    requires SortedKeys(ks) && k in ks
    ensures Occurrences(ks, k) == 1
  {
    if ks[0] == k {
      NotOccurring(ks[1..], k);
    } else {
      OccursOnce(ks[1..], k);
    }
  }

  lemma {:induction false} NotOccurring(ks: seq<Key>, k: Key)
    requires k !in ks
    ensures Occurrences(ks, k) == 0
  {
    if ks != [] {
      NotOccurring(ks[1..], k);
    }
  }

  lemma {:induction false} GroupSizesNone(ks: seq<Key>)
    ensures GroupSizes([], ks) == 0
  {
    if ks != [] {
      GroupSizesNone(ks[1..]);
    }
  }

  /** Adding a row in front grows exactly the groups with its key. */
  lemma {:induction false} GroupSizesCons(rows: seq<Row>, ks: seq<Key>)
    requires rows != []
    ensures GroupSizes(rows, ks) == Occurrences(ks, KeyOf(rows[0])) + GroupSizes(rows[1..], ks)
  {
    if ks != [] {
      GroupSizesCons(rows, ks[1..]);
    }
  }

  lemma {:induction false} GroupSizesCover(rows: seq<Row>, ks: seq<Key>)
    requires SortedKeys(ks)
    requires forall i :: 0 <= i < |rows| ==> KeyOf(rows[i]) in ks
    ensures GroupSizes(rows, ks) == |rows|
  {
    if rows == [] {
      GroupSizesNone(ks);
    } else {
      assert forall i :: 0 <= i < |rows[1..]| ==> rows[1..][i] == rows[i + 1];
      GroupSizesCover(rows[1..], ks);
      GroupSizesCons(rows, ks);
      OccursOnce(ks, KeyOf(rows[0]));
    }
  }

  /** The groups partition the table: their sizes add up to the number of rows. */
  lemma GroupsPartition(rows: seq<Row>)
    ensures GroupSizes(rows, GroupKeys(rows)) == |rows|
  {
    forall i | 0 <= i < |rows| ensures KeyOf(rows[i]) in GroupKeys(rows) {
      RowInItsGroup(rows, i);
    }
    GroupSizesCover(rows, GroupKeys(rows));
  }

  /** The `End Portfolio Value (€)` column of a group. */
  function EndValues(g: seq<Row>): (v: seq<Float>)
    ensures |v| == |g|
  {
    seq(|g|, i requires 0 <= i < |g| => g[i].trial.endValue)
  }

  /** The values pandas keeps when it skips missing ones. */
  function Finite(v: seq<Float>): (r: seq<real>)
    ensures |r| <= |v|
    ensures forall x :: x in r <==> Num(x) in v
    ensures forall x :: multiset(r)[x] == multiset(v)[Num(x)]
  {
    if v == [] then []
    else
      assert forall x :: Num(x) in v <==> v[0] == Num(x) || Num(x) in v[1..] by {
        assert v == [v[0]] + v[1..];
      }
      assert multiset(v) == multiset([v[0]]) + multiset(v[1..]) by {
        assert v == [v[0]] + v[1..];
      }
      (if v[0].Num? then [v[0].val] else []) + Finite(v[1..])
  }

  /** Nothing is left after skipping NaN exactly when every value is NaN. */
  lemma FiniteEmpty(v: seq<Float>)
    ensures Finite(v) == [] <==> forall i :: 0 <= i < |v| ==> v[i].NaN?
  {
    var f := Finite(v);
    if f != [] {
      assert f[0] in f;
      assert Num(f[0]) in v;
    } else {
      forall i | 0 <= i < |v| ensures v[i].NaN? {
      }
    }
  }

  /**
   * `mean()` skipping NaN: NaN exactly when every value is, and otherwise between the
   * smallest and the largest finite value.
   */
  function NanMean(v: seq<Float>): (m: Float)
    ensures m.NaN? <==> forall i :: 0 <= i < |v| ==> v[i].NaN?
    ensures m.Num? ==> Finite(v) != [] && Min(Finite(v)) <= m.val <= Max(Finite(v))
  {
    FiniteEmpty(v);
    var f := Finite(v);
    if f == [] then NaN else Num(Mean(f))
  }

  /** `median()` skipping NaN, with the same guarantees as `NanMean`. */
  function NanMedian(v: seq<Float>): (m: Float)
    ensures m.NaN? <==> forall i :: 0 <= i < |v| ==> v[i].NaN?
    ensures m.Num? ==> Finite(v) != [] && Min(Finite(v)) <= m.val <= Max(Finite(v))
  {
    FiniteEmpty(v);
    var f := Finite(v);
    if f == [] then NaN else Num(Median(f))
  }

  /** `min()` skipping NaN: NaN exactly when every value is, and otherwise a finite value below all others. */
  function NanMin(v: seq<Float>): (m: Float)
    ensures m.NaN? <==> forall i :: 0 <= i < |v| ==> v[i].NaN?
    ensures m.Num? ==> m in v && forall i :: 0 <= i < |v| && v[i].Num? ==> m.val <= v[i].val
  {
    FiniteEmpty(v);
    var f := Finite(v);
    if f == [] then NaN
    else
      assert forall i :: 0 <= i < |v| && v[i].Num? ==> v[i].val in f;
      Num(Min(f))
  }

  /** `max()` skipping NaN: NaN exactly when every value is, and otherwise a finite value above all others. */
  function NanMax(v: seq<Float>): (m: Float)
    ensures m.NaN? <==> forall i :: 0 <= i < |v| ==> v[i].NaN?
    ensures m.Num? ==> m in v && forall i :: 0 <= i < |v| && v[i].Num? ==> v[i].val <= m.val
  {
    FiniteEmpty(v);
    var f := Finite(v);
    if f == [] then NaN
    else
      assert forall i :: 0 <= i < |v| && v[i].Num? ==> v[i].val in f;
      Num(Max(f))
  }

  function Invested(g: seq<Row>): (v: seq<real>)
    ensures |v| == |g|
  {
    seq(|g|, i requires 0 <= i < |g| => g[i].trial.totalInvested)
  }

  function Fees(g: seq<Row>): (v: seq<real>)
    ensures |v| == |g|
  {
    seq(|g|, i requires 0 <= i < |g| => g[i].trial.totalFee)
  }

  predicate PositiveReturn(r: Row)
  {
    r.trial.totalReturn.Num? && r.trial.totalReturn.val > 0.0
  }

  predicate NegativeReturn(r: Row)
  {
    r.trial.totalReturn.Num? && r.trial.totalReturn.val < 0.0
  }

  /** `(x > 0).sum()` over the `Total Return` column: none when no return is positive, all when every one is. */
  function Positives(g: seq<Row>): (n: nat)
    ensures n <= |g|
    ensures n == 0 <==> forall i :: 0 <= i < |g| ==> !PositiveReturn(g[i])
    ensures n == |g| <==> forall i :: 0 <= i < |g| ==> PositiveReturn(g[i])
  {
    if g == [] then 0
    else
      assert forall i :: 0 < i < |g| ==> g[i] == g[1..][i - 1];
      (if PositiveReturn(g[0]) then 1 else 0) + Positives(g[1..])
  }

  /** `(x < 0).sum()` over the `Total Return` column: none when no return is negative, all when every one is. */
  function Negatives(g: seq<Row>): (n: nat)
    ensures n <= |g|
    ensures n == 0 <==> forall i :: 0 <= i < |g| ==> !NegativeReturn(g[i])
    ensures n == |g| <==> forall i :: 0 <= i < |g| ==> NegativeReturn(g[i])
  {
    if g == [] then 0
    else
      assert forall i :: 0 < i < |g| ==> g[i] == g[1..][i - 1];
      (if NegativeReturn(g[0]) then 1 else 0) + Negatives(g[1..])
  }

  /**
   * `mean() * 100` of a boolean column with `n` true entries out of `size`: 0 exactly
   * for no true entry, 100 exactly for all, at most 100 exactly when `n` is a count.
   */
  function Percentage(n: nat, size: nat): (p: real)
    requires size > 0
    ensures 0.0 <= p
    ensures p == 0.0 <==> n == 0
    ensures p <= 100.0 <==> n <= size
    ensures p == 100.0 <==> n == size
  {
    DivLeOne(n as real, size as real);
    n as real / size as real * 100.0
  }

  /** A row of the summary table. */
  datatype SummaryRow = SummaryRow(
    key: Key,
    meanEndValue: Float,
    medianEndValue: Float,
    minEndValue: Float,
    maxEndValue: Float,
    meanInvested: real,
    meanFee: real,
    positiveReturnPct: real)

  /** A point of the risk curve. */
  datatype RiskRow = RiskRow(key: Key, negativeReturnPct: real)

  /**
   * The aggregates of one group: its key, a share of positive returns between 0 and
   * 100 that is 0 or 100 exactly when none or all of them are positive, and mean
   * invested amounts and fees between their extremes in the group.
   */
  function Summarize(k: Key, g: seq<Row>): (r: SummaryRow)
    requires |g| > 0
    ensures r.key == k
    ensures 0.0 <= r.positiveReturnPct <= 100.0
    ensures r.positiveReturnPct == 0.0 <==> forall i :: 0 <= i < |g| ==> !PositiveReturn(g[i])
    ensures r.positiveReturnPct == 100.0 <==> forall i :: 0 <= i < |g| ==> PositiveReturn(g[i])
    ensures Min(Invested(g)) <= r.meanInvested <= Max(Invested(g))
    ensures Min(Fees(g)) <= r.meanFee <= Max(Fees(g))
  {
    var ends := EndValues(g);
    SummaryRow(k, NanMean(ends), NanMedian(ends), NanMin(ends), NanMax(ends),
               Mean(Invested(g)), Mean(Fees(g)), Percentage(Positives(g), |g|))
  }

  /** `results_df.groupby(['Duration (Years)', 'Strategy']).agg(...)`: one row per group, in key order. */
  function SummaryTable(rows: seq<Row>): (t: seq<SummaryRow>)
    ensures |t| == |GroupKeys(rows)|
    ensures forall i :: 0 <= i < |t| ==> t[i].key == GroupKeys(rows)[i] && 0.0 <= t[i].positiveReturnPct <= 100.0
  {
    var ks := GroupKeys(rows);
    seq(|ks|, i requires 0 <= i < |ks| => Summarize(ks[i], Group(rows, ks[i])))
  }

  /** The risk curve: the percentage of negative returns in each group, in key order. */
  function RiskCurve(rows: seq<Row>): (t: seq<RiskRow>)
    ensures |t| == |GroupKeys(rows)|
    ensures forall i :: 0 <= i < |t| ==> t[i].key == GroupKeys(rows)[i] && 0.0 <= t[i].negativeReturnPct <= 100.0
  {
    var ks := GroupKeys(rows);
    seq(|ks|, i requires 0 <= i < |ks| => RiskRow(ks[i], Percentage(Negatives(Group(rows, ks[i])), |Group(rows, ks[i])|)))
  }

  /**
   * The summary table has one row for each group present and no other, sorted by
   * years and then strategy label, and the risk curve lists the same groups in the
   * same order.
   */
  lemma TableKeys(rows: seq<Row>)
    ensures forall i, j :: 0 <= i < j < |SummaryTable(rows)| ==> KeyLess(SummaryTable(rows)[i].key, SummaryTable(rows)[j].key)
    ensures forall k :: Present(rows, k) <==> exists i :: 0 <= i < |SummaryTable(rows)| && SummaryTable(rows)[i].key == k
    ensures |RiskCurve(rows)| == |SummaryTable(rows)|
    ensures forall i :: 0 <= i < |RiskCurve(rows)| ==> RiskCurve(rows)[i].key == SummaryTable(rows)[i].key
  {
    var ks := GroupKeys(rows);
    var t := SummaryTable(rows);
    forall k ensures Present(rows, k) <==> exists i :: 0 <= i < |t| && t[i].key == k {
      if Present(rows, k) {
        var i :| 0 <= i < |ks| && ks[i] == k;
        assert t[i].key == k;
      }
    }
  }

  /**
   * The end-value statistics skip NaN: they are NaN exactly when every end value of
   * the group is, and otherwise the minimum and maximum are finite end values of the
   * group that bound all the others, with the median and the mean between them.
   */
  lemma EndValueStatistics(v: seq<Float>)
    ensures NanMin(v).NaN? <==> forall i :: 0 <= i < |v| ==> v[i].NaN?
    ensures NanMin(v).NaN? == NanMax(v).NaN? == NanMean(v).NaN? == NanMedian(v).NaN?
    ensures NanMin(v).Num? ==> NanMin(v) in v && NanMax(v) in v
    ensures NanMin(v).Num? ==> forall i :: 0 <= i < |v| && v[i].Num? ==> NanMin(v).val <= v[i].val <= NanMax(v).val
    ensures NanMin(v).Num? ==> NanMin(v).val <= NanMedian(v).val <= NanMax(v).val
    ensures NanMin(v).Num? ==> NanMin(v).val <= NanMean(v).val <= NanMax(v).val
  {
    var f := Finite(v);
    if f == [] {
      forall i | 0 <= i < |v| ensures v[i].NaN? {
      }
    } else {
      assert f[0] in f;
      assert Num(f[0]) in v;
      forall i | 0 <= i < |v| && v[i].Num? ensures Min(f) <= v[i].val <= Max(f) {
        assert v[i].val in f;
      }
    }
  }

  /** Both percentages of a group lie between 0 and 100 and add up to at most 100. */
  lemma PercentagesBounded(g: seq<Row>)
    requires |g| > 0
    ensures 0.0 <= Percentage(Positives(g), |g|) <= 100.0
    ensures 0.0 <= Percentage(Negatives(g), |g|) <= 100.0
    ensures Percentage(Positives(g), |g|) + Percentage(Negatives(g), |g|) <= 100.0
  {
    SignCounts(g);
    PercentageSum(Positives(g), Negatives(g), |g|);
  }

  lemma DivLeOne(x: real, s: real)
    requires s > 0.0 && x >= 0.0
    ensures x / s >= 0.0
    ensures x / s <= 1.0 <==> x <= s
    ensures x / s == 1.0 <==> x == s
  {
    assert x / s * s == x;
    if x / s > 1.0 {
      assert x / s * s > s by {
        assert (x / s - 1.0) * s > 0.0;
      }
    }
    if x / s < 1.0 {
      assert x / s * s < s by {
        assert (1.0 - x / s) * s > 0.0;
      }
    }
  }

  /** Given counts add up to at most the group size, the percentages do to at most 100. */
  lemma PercentageSum(a: nat, b: nat, size: nat)
    requires size > 0 && a + b <= size
    ensures 0.0 <= Percentage(a, size) && 0.0 <= Percentage(b, size)
    ensures Percentage(a, size) + Percentage(b, size) <= 100.0
    ensures Percentage(a, size) + Percentage(b, size) == 100.0 <==> a + b == size
  {
    var s := size as real;
    FracSum(a as real, b as real, s);
    DivLeOne(a as real, s);
    DivLeOne(b as real, s);
    DivLeOne((a + b) as real, s);
  }

  lemma FracSum(x: real, y: real, s: real)
    requires s > 0.0
    ensures x / s + y / s == (x + y) / s
  {
    assert (x / s) * s == x && (y / s) * s == y;
    assert (x / s + y / s) * s == x + y;
  }

  /**
   * No return is both positive and negative; the two counts add up to the group size
   * exactly when every return of the group is finite and non-zero.
   */
  lemma {:induction false} SignCounts(g: seq<Row>)
    ensures Positives(g) + Negatives(g) <= |g|
    ensures Positives(g) + Negatives(g) == |g| <==>
            forall i :: 0 <= i < |g| ==> g[i].trial.totalReturn.Num? && g[i].trial.totalReturn.val != 0.0
  {
    if g != [] {
      SignCounts(g[1..]);
      assert forall i :: 0 < i < |g| ==> g[i] == g[1..][i - 1];
    }
  }

  /** The positive and negative percentages of a group sum to 100 exactly when no return is NaN or zero. */
  lemma PositivesAndNegatives(rows: seq<Row>, k: Key)
    requires Present(rows, k)
    ensures var g := Group(rows, k);
            Percentage(Positives(g), |g|) + Percentage(Negatives(g), |g|) == 100.0 <==>
            forall i :: 0 <= i < |g| ==> g[i].trial.totalReturn.Num? && g[i].trial.totalReturn.val != 0.0
  {
    var g := Group(rows, k);
    SignCounts(g);
    PercentageSum(Positives(g), Negatives(g), |g|);
  }

  /**
   * The aggregates of a group: the mean invested amount and the mean fee lie between
   * their extremes in the group, the share of positive returns is a percentage, and
   * the end-value statistics are as `EndValueStatistics` states.
   */
  lemma SummarizeBounds(k: Key, g: seq<Row>)
    requires |g| > 0
    ensures var r := Summarize(k, g);
            && r.key == k
            && Min(Invested(g)) <= r.meanInvested <= Max(Invested(g))
            && Min(Fees(g)) <= r.meanFee <= Max(Fees(g))
            && 0.0 <= r.positiveReturnPct <= 100.0
            && (r.minEndValue.NaN? <==> forall j :: 0 <= j < |g| ==> g[j].trial.endValue.NaN?)
            && (r.minEndValue.Num? ==> r.minEndValue.val <= r.medianEndValue.val <= r.maxEndValue.val)
            && (r.minEndValue.Num? ==> r.minEndValue.val <= r.meanEndValue.val <= r.maxEndValue.val)
  {
    var r, ends := Summarize(k, g), EndValues(g);
    assert r.minEndValue == NanMin(ends) && r.maxEndValue == NanMax(ends);
    assert r.meanEndValue == NanMean(ends) && r.medianEndValue == NanMedian(ends);
    EndValueStatistics(ends);
    AllNaNEndValues(g);
  }

  /** The end values of a group are all NaN exactly when every trial's is. */
  lemma AllNaNEndValues(g: seq<Row>)
    ensures (forall i :: 0 <= i < |EndValues(g)| ==> EndValues(g)[i].NaN?)
            <==> forall j :: 0 <= j < |g| ==> g[j].trial.endValue.NaN?
  {
    assert forall j :: 0 <= j < |g| ==> EndValues(g)[j] == g[j].trial.endValue;
  }

  /** Every row of the summary table summarizes the non-empty group of its key. */
  lemma SummaryRowBounds(rows: seq<Row>, i: nat)
    requires i < |SummaryTable(rows)|
    ensures var r := SummaryTable(rows)[i];
            var g := Group(rows, r.key);
            |g| > 0 && r == Summarize(r.key, g)
  {
    var ks := GroupKeys(rows);
    assert SummaryTable(rows)[i] == Summarize(ks[i], Group(rows, ks[i]));
  }

  /**
   * Each point of the risk curve is a percentage, and with the share of positive
   * returns in the summary row of the same group it adds up to at most 100.
   */
  lemma RiskCurveBounds(rows: seq<Row>, i: nat)
    requires i < |RiskCurve(rows)|
    ensures 0.0 <= RiskCurve(rows)[i].negativeReturnPct <= 100.0
    ensures SummaryTable(rows)[i].positiveReturnPct + RiskCurve(rows)[i].negativeReturnPct <= 100.0
  {
    var ks := GroupKeys(rows);
    var g := Group(rows, ks[i]);
    assert SummaryTable(rows)[i] == Summarize(ks[i], g);
    assert RiskCurve(rows)[i].negativeReturnPct == Percentage(Negatives(g), |g|);
    PercentagesBounded(g);
  }

  /**
   * Each point of the risk curve is the share of negative returns in the non-empty
   * group of its key: 0 exactly when no return of the group is negative, 100 exactly
   * when every one is.
   */
  lemma RiskPointOfGroup(rows: seq<Row>, i: nat)
    requires i < |RiskCurve(rows)|
    ensures var pct, g := RiskCurve(rows)[i].negativeReturnPct, Group(rows, RiskCurve(rows)[i].key);
            && |g| > 0
            && pct == Percentage(Negatives(g), |g|)
            && (pct == 0.0 <==> forall j :: 0 <= j < |g| ==> !NegativeReturn(g[j]))
            && (pct == 100.0 <==> forall j :: 0 <= j < |g| ==> NegativeReturn(g[j]))
  {
    var ks := GroupKeys(rows);
    assert RiskCurve(rows)[i] == RiskRow(ks[i], Percentage(Negatives(Group(rows, ks[i])), |Group(rows, ks[i])|));
  }

  function ExampleTrial(ret: real): Trial
  {
    Trial(0, 252, 1000.0, 0.0, Num(1000.0 * (1.0 + ret)), Num(ret))
  }

  /** Returns of +10 %, -5 % and +20 % in a group: two thirds positive, one third negative. */
  lemma ThreeReturnsExample()
    ensures var g := [Row(ExampleTrial(0.1), SP500, 1), Row(ExampleTrial(-0.05), SP500, 1),
                      Row(ExampleTrial(0.2), SP500, 1)];
            Percentage(Positives(g), |g|) == 200.0 / 3.0 && Percentage(Negatives(g), |g|) == 100.0 / 3.0
  {
    var g := [Row(ExampleTrial(0.1), SP500, 1), Row(ExampleTrial(-0.05), SP500, 1),
              Row(ExampleTrial(0.2), SP500, 1)];
    assert g[1..][1..] == [g[2]];
    assert Positives(g) == 2;
    assert Negatives(g) == 1;
  }
}
