/** The integer and exact-rational parts of the per-category delay
    statistics, and the betting-signal rule built on them. */
module Statistics {

  /** The sum of the first `k` elements. */
  function SumWithin(s: seq<int>, k: nat): int
    requires k <= |s|
  {
    if k == 0 then 0 else SumWithin(s, k - 1) + s[k - 1]
  }

  /** `sum(s)` */
  function Sum(s: seq<int>): int {
    SumWithin(s, |s|)
  }

  /** The least of the first `k` elements. */
  function MinWithin(s: seq<int>, k: nat): int
    requires 0 < k <= |s|
  {
    if k == 1 then s[0]
    else
      var m := MinWithin(s, k - 1);
      if s[k - 1] < m then s[k - 1] else m
  }

  /** The greatest of the first `k` elements. */
  function MaxWithin(s: seq<int>, k: nat): int
    requires 0 < k <= |s|
  {
    if k == 1 then s[0]
    else
      var m := MaxWithin(s, k - 1);
      if s[k - 1] > m then s[k - 1] else m
  }

  /** `min(s)` */
  function Min(s: seq<int>): int
    requires s != []
  {
    MinWithin(s, |s|)
  }

  /** `max(s)` */
  function Max(s: seq<int>): int
    requires s != []
  {
    MaxWithin(s, |s|)
  }

  lemma {:induction false} MinWithinBounds(s: seq<int>, k: nat)
    requires 0 < k <= |s|
    ensures exists i :: 0 <= i < k && s[i] == MinWithin(s, k)
    ensures forall i :: 0 <= i < k ==> MinWithin(s, k) <= s[i]
  {
    if k == 1 {
      assert s[0] == MinWithin(s, k);
    } else {
      MinWithinBounds(s, k - 1);
      if s[k - 1] < MinWithin(s, k - 1) {
        assert s[k - 1] == MinWithin(s, k);
      } else {
        var i :| 0 <= i < k - 1 && s[i] == MinWithin(s, k - 1);
        assert s[i] == MinWithin(s, k);
      }
    }
  }

  lemma {:induction false} MaxWithinBounds(s: seq<int>, k: nat)
    requires 0 < k <= |s|
    ensures exists i :: 0 <= i < k && s[i] == MaxWithin(s, k)
    ensures forall i :: 0 <= i < k ==> s[i] <= MaxWithin(s, k)
  {
    if k == 1 {
      assert s[0] == MaxWithin(s, k);
    } else {
      MaxWithinBounds(s, k - 1);
      if s[k - 1] > MaxWithin(s, k - 1) {
        assert s[k - 1] == MaxWithin(s, k);
      } else {
        var i :| 0 <= i < k - 1 && s[i] == MaxWithin(s, k - 1);
        assert s[i] == MaxWithin(s, k);
      }
    }
  }

  /** The minimum is an element of the list and no element is smaller; the
      maximum is an element and no element is larger. */
  lemma {:induction false} MinMaxBounds(s: seq<int>)
    requires s != []
    ensures Min(s) in s && Max(s) in s
    ensures forall x :: x in s ==> Min(s) <= x <= Max(s)
  {
    MinWithinBounds(s, |s|);
    MaxWithinBounds(s, |s|);
  }

  /** The arithmetic mean, exactly. */
  function Mean(s: seq<int>): (m: real)
    requires s != []
    ensures m * |s| as real == Sum(s) as real
  {
    Sum(s) as real / |s| as real
  }

  function Square(x: int): int {
    x * x
  }

  /** The sum of squared deviations of `s` from its mean, scaled by |s|²
      to stay in the integers: the sum of (n·x − Sum(s))² over the elements
      x, where n = |s|.  SpreadIsScaledVariance proves that the sample
      variance is this divided by n²(n − 1). */
  function Spread(s: seq<int>): int {
    ScaledDeviations(s, |s|, |s|, Sum(s))
  }

  /** The sum of (n·x − total)² over the first `k` elements x. */
  function ScaledDeviations(s: seq<int>, k: nat, n: int, total: int): int
    requires k <= |s|
  {
    if k == 0 then 0
    else ScaledDeviations(s, k - 1, n, total) + Square(n * s[k - 1] - total)
  }

  /** The sum of (x − m)² over the first `k` elements x, over the reals. */
  function Deviations(s: seq<int>, k: nat, m: real): real
    requires k <= |s|
  {
    if k == 0 then 0.0
    else Deviations(s, k - 1, m) + (s[k - 1] as real - m) * (s[k - 1] as real - m)
  }

  /** `statistics.variance`: the sample variance, with the exact mean and
      before any square root or rounding. */
  function SampleVariance(s: seq<int>): real
    requires |s| > 1
  {
    Deviations(s, |s|, Mean(s)) / (|s| - 1) as real
  }

  /** One scaled term: (n·x − total)² is n² times (x − m)² for m = total / n. */
  lemma {:induction false} ScaledTerm(n: int, x: int, total: int, m: real)
    requires m * n as real == total as real
    ensures Square(n * x - total) as real == (n as real) * (n as real) * ((x as real - m) * (x as real - m))
  {
    var nr, e := n as real, x as real - m;
    assert (n * x - total) as real == nr * e;
    assert (nr * e) * (nr * e) == nr * nr * (e * e);
  }

  /** The sum of f(x) over the first `k` elements x, in the integers and in
      the reals.  They keep the term-wise scaling below apart from the
      recursion over the list. */
  function SumOf(f: int -> int, s: seq<int>, k: nat): int
    requires k <= |s|
  {
    if k == 0 then 0 else SumOf(f, s, k - 1) + f(s[k - 1])
  }

  function RealSumOf(f: int -> real, s: seq<int>, k: nat): real
    requires k <= |s|
  {
    if k == 0 then 0.0 else RealSumOf(f, s, k - 1) + f(s[k - 1])
  }

  /** Scaling every term by c scales the sum by c. */
  lemma {:induction false} SumOfScaled(f: int -> int, g: int -> real, c: real, s: seq<int>, k: nat)
    requires k <= |s|
    requires forall x :: f(x) as real == c * g(x)
    ensures SumOf(f, s, k) as real == c * RealSumOf(g, s, k)
  {
    if k > 0 {
      SumOfScaled(f, g, c, s, k - 1);
    }
  }

  /** The term (n·x − total)² of ScaledDeviations, as a function of x. */
  function ScaledTermOf(n: int, total: int): int -> int {
    x => Square(n * x - total)
  }

  /** The term (x − m)² of Deviations, as a function of x. */
  function DeviationOf(m: real): int -> real {
    x => (x as real - m) * (x as real - m)
  }

  lemma {:induction false} ScaledDeviationsAsSum(s: seq<int>, k: nat, n: int, total: int)
    requires k <= |s|
    ensures ScaledDeviations(s, k, n, total) == SumOf(ScaledTermOf(n, total), s, k)
  {
    if k > 0 {
      ScaledDeviationsAsSum(s, k - 1, n, total);
    }
  }

  lemma {:induction false} DeviationsAsSum(s: seq<int>, k: nat, m: real)
    requires k <= |s|
    ensures Deviations(s, k, m) == RealSumOf(DeviationOf(m), s, k)
  {
    if k > 0 {
      DeviationsAsSum(s, k - 1, m);
    }
  }

  /** The scaled sum is n² times the sum of squared deviations from
      m = total / n. */
  lemma {:induction false} ScaledDeviationsReal(s: seq<int>, n: int, total: int, m: real)
    requires m * n as real == total as real
    ensures ScaledDeviations(s, |s|, n, total) as real == (n as real) * (n as real) * Deviations(s, |s|, m)
  {
    TermsScale(n, total, m);
    SumOfScaled(ScaledTermOf(n, total), DeviationOf(m), (n as real) * (n as real), s, |s|);
    ScaledDeviationsAsSum(s, |s|, n, total);
    DeviationsAsSum(s, |s|, m);
  }

  /** Each scaled term is n² times the matching squared deviation. */
  lemma {:induction false} TermsScale(n: int, total: int, m: real)
    requires m * n as real == total as real
    ensures forall x :: ScaledTermOf(n, total)(x) as real == (n as real) * (n as real) * DeviationOf(m)(x)
  {
    forall x
      ensures ScaledTermOf(n, total)(x) as real == (n as real) * (n as real) * DeviationOf(m)(x)
    {
      ScaledTerm(n, x, total, m);
    }
  }

  /** With v = dev / n1 and sp = nn · dev, sp is nn · n1 · v, and for
      positive nn it is zero exactly when v is. */
  lemma {:induction false} Rescale(sp: real, nn: real, dev: real, n1: real, v: real)
    requires nn > 0.0 && n1 > 0.0 && v == dev / n1 && sp == nn * dev
    ensures sp == nn * n1 * v
    ensures sp == 0.0 <==> v == 0.0
  {
    assert dev == n1 * v;
  }

  /** The integer spread is the sample variance scaled by n²(n − 1); in
      particular the sample variance, and so the standard deviation, is
      zero exactly when all elements are equal. */
  lemma {:induction false} SpreadIsScaledVariance(s: seq<int>)
    requires |s| > 1
    ensures Spread(s) as real == (|s| as real) * (|s| as real) * ((|s| - 1) as real) * SampleVariance(s)
    ensures SampleVariance(s) == 0.0 <==> AllEqual(s)
  {
    var n := |s|;
    var nr, mean := n as real, Mean(s);
    ScaledDeviationsReal(s, n, Sum(s), mean);
    Rescale(Spread(s) as real, nr * nr, Deviations(s, n, mean), (n - 1) as real, SampleVariance(s));
    SpreadZeroIffAllEqual(s);
  }

  predicate AllEqual(s: seq<int>) {
    forall i, j :: 0 <= i < |s| && 0 <= j < |s| ==> s[i] == s[j]
  }

  lemma {:induction false} SquareZero(d: int)
    ensures Square(d) >= 0
    ensures Square(d) == 0 ==> d == 0
  {
    if d > 0 {
      assert d * d >= d;
    } else if d < 0 {
      assert d * d == (-d) * (-d) >= -d;
    }
  }

  lemma {:induction false} ScaledDeviationsZero(s: seq<int>, k: nat, n: int, total: int)
    requires k <= |s|
    ensures ScaledDeviations(s, k, n, total) >= 0
    ensures ScaledDeviations(s, k, n, total) == 0 <==> forall i :: 0 <= i < k ==> n * s[i] == total
  {
    if k > 0 {
      ScaledDeviationsZero(s, k - 1, n, total);
      SquareZero(n * s[k - 1] - total);
    }
  }

  lemma {:induction false} SumOfConstant(s: seq<int>, k: nat, v: int)
    requires k <= |s|
    requires forall i :: 0 <= i < k ==> s[i] == v
    ensures SumWithin(s, k) == k * v
  {
    if k > 0 {
      SumOfConstant(s, k - 1, v);
    }
  }

  lemma {:induction false} CancelFactor(n: int, a: int, b: int)
    requires n > 0 && n * a == n * b
    ensures a == b
  {
  }

  /** The sample standard deviation of a non-empty list is zero exactly when
      all its elements are equal. */
  lemma {:induction false} SpreadZeroIffAllEqual(s: seq<int>)
    requires s != []
    ensures Spread(s) >= 0
    ensures Spread(s) == 0 <==> AllEqual(s)
  {
    var n, total := |s|, Sum(s);
    ScaledDeviationsZero(s, n, n, total);
    if AllEqual(s) {
      SumOfConstant(s, n, s[0]);
    }
    if Spread(s) == 0 {
      forall i, j | 0 <= i < |s| && 0 <= j < |s|
        ensures s[i] == s[j]
      {
        CancelFactor(n, s[i], s[j]);
      }
    }
  }

  /** Appending an element adds it to the sum. */
  lemma {:induction false} SumAppend(s: seq<int>, x: int)
    ensures Sum(s + [x]) == Sum(s) + x
  {
    SumWithinPrefix(s, [x], |s|);
    assert (s + [x])[|s|] == x;
  }

  lemma {:induction false} SumWithinPrefix(s: seq<int>, t: seq<int>, k: nat)
    requires k <= |s|
    ensures SumWithin(s + t, k) == SumWithin(s, k)
  {
    if k > 0 {
      SumWithinPrefix(s, t, k - 1);
      assert (s + t)[k - 1] == s[k - 1];
    }
  }

  /** Per-category statistics.  With more than one gap the source reports the
      mean, deviation, minimum, maximum and count (and sigma thresholds);
      otherwise a "Datos insuficientes" marker with mean and deviation 0. */
  datatype DelayStats =
    | Full(mean: real, spread: int, minimum: int, maximum: int, count: nat)
    | InsufficientData(mean: real, deviation: real)

  function StatsOf(gaps: seq<int>): (r: DelayStats)
    ensures r.Full? <==> |gaps| > 1
  {
    if |gaps| > 1 then Full(Mean(gaps), Spread(gaps), Min(gaps), Max(gaps), |gaps|)
    else InsufficientData(0.0, 0.0)
  }

  /** With more than one gap the statistics are complete: minimum and
      maximum are gaps bounding all others, the count is the number of gaps,
      the mean is their exact average, and the deviation is zero exactly when
      all gaps are equal.  Otherwise mean and deviation are reported as 0. */
  lemma {:induction false} StatsOfMeaning(gaps: seq<int>)
    ensures var r := StatsOf(gaps);
      r.Full? <==> |gaps| > 1
    ensures var r := StatsOf(gaps);
      r.Full? ==>
        r.minimum in gaps && r.maximum in gaps && r.minimum <= r.maximum &&
        (forall g :: g in gaps ==> r.minimum <= g <= r.maximum) &&
        r.count == |gaps| &&
        r.mean * |gaps| as real == Sum(gaps) as real &&
        r.spread >= 0 && (r.spread == 0 <==> AllEqual(gaps))
    ensures var r := StatsOf(gaps);
      r.InsufficientData? ==> r.mean == 0.0 && r.deviation == 0.0
  {
    if |gaps| > 1 {
      MinMaxBounds(gaps);
      SpreadZeroIffAllEqual(gaps);
    }
  }

  /** A category's signal.  `NoBet` is the insufficient-data entry, whose bet
      flag is always false; `Assessed` carries the current delay and the mean
      of a category with statistics. */
  datatype Signal = Assessed(currentDelay: int, mean: real) | NoBet

  /** The exceptions the signal computation can raise: a sigma level with no
      threshold key, and a division by a zero standard deviation. */
  datatype SignalError = KeyError | ZeroDivisionError

  datatype Result<T> = Ok(value: T) | Err(error: SignalError)

  /** The signal of one category, raising as the source does: the threshold
      key is looked up before the division by the deviation. */
  function SignalFor(st: DelayStats, delay: int, level: int): (r: Result<Signal>)
    ensures r.Err? ==> st.Full?
    ensures r == Err(KeyError) <==> st.Full? && !(1 <= level <= 3)
    ensures r.Ok? <==> st.InsufficientData? || (1 <= level <= 3 && st.spread != 0)
  {
    if st.InsufficientData? then Ok(NoBet)
    else if !(1 <= level <= 3) then Err(KeyError)
    else if st.spread == 0 then Err(ZeroDivisionError)
    else Ok(Assessed(delay, st.mean))
  }

  /** The signal of a category with gap list `gaps` and current delay
      `delay`: no bet with at most one gap; otherwise a KeyError for a level
      outside 1..3, a ZeroDivisionError when all gaps are equal, and the
      delay with the mean gap when neither happens. */
  lemma {:induction false} SignalForStats(gaps: seq<int>, delay: int, level: int)
    ensures SignalFor(StatsOf(gaps), delay, level) ==
      if |gaps| <= 1 then Ok(NoBet)
      else if !(1 <= level <= 3) then Err(KeyError)
      else if AllEqual(gaps) then Err(ZeroDivisionError)
      else Ok(Assessed(delay, Mean(gaps)))
  {
    if |gaps| > 1 {
      SpreadZeroIffAllEqual(gaps);
    }
  }
}
