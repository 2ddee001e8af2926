/** Reductions over sequences of reals: sum, mean, minimum, maximum, sorting and the median. */
module Stats {

  /** The sum of a sequence; 0 for the empty one. */
  function Sum(s: seq<real>): real
  {
    if s == [] then 0.0 else s[0] + Sum(s[1..])
  }

  lemma {:induction false} SumAppend(a: seq<real>, b: seq<real>)
    ensures Sum(a + b) == Sum(a) + Sum(b)
  {
    if a == [] {
      assert a + b == b;
    } else {
      assert (a + b)[1..] == a[1..] + b;
      SumAppend(a[1..], b);
    }
  }

  /** A sum grows with its terms, strictly when one term grows strictly. */
  lemma {:induction false} SumMono(a: seq<real>, b: seq<real>)
    requires |a| == |b| && forall i :: 0 <= i < |a| ==> a[i] <= b[i]
    ensures Sum(a) <= Sum(b)
    ensures (exists i :: 0 <= i < |a| && a[i] < b[i]) ==> Sum(a) < Sum(b)
  {
    if a != [] {
      SumMono(a[1..], b[1..]);
      assert forall i :: 0 < i < |a| ==> a[i] == a[1..][i - 1] && b[i] == b[1..][i - 1];
    }
  }

  /** The smallest element. */
  function Min(s: seq<real>): (m: real)
    requires |s| > 0
    ensures m in s
    ensures forall i :: 0 <= i < |s| ==> m <= s[i]
  {
    if |s| == 1 then s[0]
    else
      var rest := Min(s[1..]);
      if s[0] <= rest then s[0] else rest
  }

  /** The largest element. */
  function Max(s: seq<real>): (m: real)
    requires |s| > 0
    ensures m in s
    ensures forall i :: 0 <= i < |s| ==> s[i] <= m
  {
    if |s| == 1 then s[0]
    else
      var rest := Max(s[1..]);
      if rest <= s[0] then s[0] else rest
  }

  /** A sum lies between the length times any lower bound and the length times any upper bound. */
  lemma {:induction false} SumBounds(s: seq<real>, lo: real, hi: real)
    requires forall i :: 0 <= i < |s| ==> lo <= s[i] <= hi
    ensures |s| as real * lo <= Sum(s) <= |s| as real * hi
  {
    if s != [] {
      assert forall i :: 0 <= i < |s[1..]| ==> s[1..][i] == s[i + 1];
      SumBounds(s[1..], lo, hi);
      assert |s| as real * lo == lo + |s[1..]| as real * lo;
      assert |s| as real * hi == hi + |s[1..]| as real * hi;
    }
  }

  /** Every element of `s` lies in `[lo, hi]`. */
  predicate Within(s: seq<real>, lo: real, hi: real)
  {
    forall i :: 0 <= i < |s| ==> lo <= s[i] <= hi
  }

  /** The arithmetic mean, as pandas' `mean` computes it on a column without NaN. */
  function Mean(s: seq<real>): (m: real)
    requires |s| > 0
    ensures Min(s) <= m <= Max(s)
  {
    MeanWithin(s, Min(s), Max(s));
    Sum(s) / |s| as real
  }

  /** A mean lies within any bounds of the elements. */
  lemma MeanWithin(s: seq<real>, lo: real, hi: real)
    requires |s| > 0 && Within(s, lo, hi)
    ensures lo <= Sum(s) / |s| as real <= hi
  {
    SumBounds(s, lo, hi);
    DivWithin(Sum(s), |s| as real, lo, hi);
  }

  lemma DivWithin(x: real, n: real, lo: real, hi: real)
    requires n > 0.0 && n * lo <= x <= n * hi
    ensures lo <= x / n <= hi
  {
    assert x / n - lo == (x - n * lo) / n;
    assert hi - x / n == (n * hi - x) / n;
  }

  predicate Sorted(s: seq<real>)
  {
    forall i, j :: 0 <= i < j < |s| ==> s[i] <= s[j]
  }

  /** Insert `x` into an ascending sequence. */
  function Insert(x: real, s: seq<real>): (r: seq<real>)
    requires Sorted(s)
    ensures |r| == |s| + 1
    ensures forall i :: 0 <= i < |r| ==> r[i] == x || r[i] in s
    ensures Sorted(r)
    ensures multiset(r) == multiset(s) + multiset{x}
  {
    if s == [] || x <= s[0] then
      ConsSorted(x, s);
      [x] + s
    else
      var tail := Insert(x, s[1..]);
      TailAbove(x, s, tail);
      ConsSorted(s[0], tail);
      assert s == [s[0]] + s[1..];
      [s[0]] + tail
  }

  /** Putting a lower bound in front of an ascending sequence keeps it ascending. */
  lemma ConsSorted(a: real, t: seq<real>)
    requires Sorted(t) && (t == [] || a <= t[0])
    ensures Sorted([a] + t)
  {
    assert forall j :: 0 < j < |t| + 1 ==> ([a] + t)[j] == t[j - 1];
  }

  lemma TailAbove(x: real, s: seq<real>, tail: seq<real>)
    requires Sorted(s) && s != [] && s[0] < x
    requires forall i :: 0 <= i < |tail| ==> tail[i] == x || tail[i] in s[1..]
    ensures tail == [] || s[0] <= tail[0]
  {
    if tail != [] && tail[0] != x {
      var j :| 0 <= j < |s[1..]| && s[1..][j] == tail[0];
      assert s[j + 1] == tail[0];
    }
  }

  /** The values of `s` in ascending order (what pandas sorts by to take a median). */
  function SortAscending(s: seq<real>): (r: seq<real>)
    ensures |r| == |s|
    ensures Sorted(r)
    ensures multiset(r) == multiset(s)
  {
    if s == [] then []
    else
      assert s == [s[0]] + s[1..];
      Insert(s[0], SortAscending(s[1..]))
  }

  /** pandas' `median`: the middle value of the sorted values, or the mean of the two middle ones. */
  function Median(s: seq<real>): (m: real)
    requires |s| > 0
    ensures Min(s) <= m <= Max(s)
  {
    var t := SortAscending(s);
    var n := |t|;
    ElementsIn(t, s, n / 2);
    if n % 2 == 1 then t[n / 2]
    else
      ElementsIn(t, s, n / 2 - 1);
      (t[n / 2 - 1] + t[n / 2]) / 2.0
  }

  /** Every element of a rearrangement of `s` lies between the minimum and the maximum of `s`. */
  lemma ElementsIn(t: seq<real>, s: seq<real>, k: nat)
    requires multiset(t) == multiset(s) && k < |t|
    ensures |s| > 0 && Min(s) <= t[k] <= Max(s)
  {
    assert t[k] in multiset(t);
    assert t[k] in s;
  }
}
