/** The slope of recent round-trip times, and the trend read from it. Times are real. */
module Trend {
  import opened Numbers

  datatype Verdict = Degrading | Improving | Stable

  function SumTo(v: seq<real>, n: nat): real
    requires n <= |v|
  {
    if n == 0 then 0.0 else SumTo(v, n - 1) + v[n - 1]
  }

  function Times(a: real, b: real): real {
    a * b
  }

  function Mean(v: seq<real>): real {
    if v == [] then 0.0 else SumTo(v, |v|) / |v| as real
  }

  function XMean(n: nat): real {
    (n as real - 1.0) / 2.0
  }

  /** The sum of (i - x)(v[i] - y) for i below n. */
  function Cross(v: seq<real>, x: real, y: real, n: nat): real
    requires n <= |v|
  {
    if n == 0 then 0.0 else Cross(v, x, y, n - 1) + Times((n - 1) as real - x, v[n - 1] - y)
  }

  /** The sum of (i - x)^2 for i below n. */
  function Squares(x: real, n: nat): real {
    if n == 0 then 0.0 else Squares(x, n - 1) + Times((n - 1) as real - x, (n - 1) as real - x)
  }

  function Slope(v: seq<real>): real {
    if |v| < 3 then 0.0 else
      var num := Cross(v, XMean(|v|), Mean(v), |v|);
      var den := Squares(XMean(|v|), |v|);
      if den > 0.0 then num / den else 0.0
  }

  /** The last twenty entries. */
  function Recent(hist: seq<real>): seq<real> {
    if |hist| <= 20 then hist else hist[|hist| - 20..]
  }

  function DetectTrend(hist: seq<real>): Verdict {
    if |hist| < 10 then Stable else
      var slope := Slope(Recent(hist));
      var mean := Mean(Recent(hist));
      var normalized := if mean > 0.0 then slope / mean else 0.0;
      if normalized > 0.02 then Degrading else if normalized < -0.02 then Improving else Stable
  }

  // ---------- sums about the mean ----------

  /** The distances from x, summed. */
  function Offsets(x: real, n: nat): real {
    if n == 0 then 0.0 else Offsets(x, n - 1) + ((n - 1) as real - x)
  }

  lemma {:induction false} OffsetsAre(x: real, n: nat)
    ensures Offsets(x, n) == n as real * (XMean(n) - x)
  {
    if n != 0 { OffsetsAre(x, n - 1); }
  }

  /** Measuring from another height adds a multiple of the summed offsets. */
  lemma {:induction false} CrossShift(v: seq<real>, x: real, y: real, c: real, n: nat)
    requires n <= |v|
    ensures Cross(v, x, y, n) == Cross(v, x, c, n) + Times(c - y, Offsets(x, n))
  {
    if n == 0 {
      assert Times(c - y, 0.0) == 0.0;
    } else {
      hide Times;
      CrossShift(v, x, y, c, n - 1);
      Spread((n - 1) as real - x, v[n - 1], y, c);
      Join(c - y, Offsets(x, n - 1), (n - 1) as real - x);
    }
  }

  lemma Spread(d: real, v: real, y: real, c: real)
    ensures Times(d, v - y) == Times(d, v - c) + Times(c - y, d)
  {
  }

  lemma Join(a: real, b: real, c: real)
    ensures Times(a, b) + Times(a, c) == Times(a, b + c)
  {
  }

  /** About the mean index the height does not matter. */
  lemma AnyHeight(v: seq<real>, c: real)
    ensures Cross(v, XMean(|v|), Mean(v), |v|) == Cross(v, XMean(|v|), c, |v|)
  {
    CrossShift(v, XMean(|v|), Mean(v), c, |v|);
    OffsetsAre(XMean(|v|), |v|);
  }

  lemma SquaresNonNegative(x: real, n: nat)
    ensures Squares(x, n) >= 0.0
  {
    if n != 0 {
      SquaresNonNegative(x, n - 1);
      SquareNonNegative((n - 1) as real - x);
    }
  }

  lemma SquareNonNegative(d: real)
    ensures d * d >= 0.0
    ensures d != 0.0 ==> d * d > 0.0
  {
  }

  /** With two indices or more the denominator is positive. */
  lemma SquaresPositive(n: nat)
    requires n >= 2
    ensures Squares(XMean(n), n) > 0.0
  {
    SquaresNonNegative(XMean(n), n - 1);
    SquareNonNegative((n - 1) as real - XMean(n));
  }

  // ---------- what the slope says ----------

  ghost predicate NonIncreasing(v: seq<real>) {
    forall i, j :: 0 <= i < j < |v| ==> v[i] >= v[j]
  }

  ghost predicate NonDecreasing(v: seq<real>) {
    forall i, j :: 0 <= i < j < |v| ==> v[i] <= v[j]
  }

  ghost predicate Linear(v: seq<real>, a: real, b: real) {
    forall i :: 0 <= i < |v| ==> v[i] == a + b * i as real
  }

  /** Measured from the middle value, every term of a non-increasing sequence is at most zero. */
  lemma {:induction false} CrossFalls(v: seq<real>, mid: nat, n: nat)
    requires NonIncreasing(v) && n <= |v| && mid < |v| && mid == (|v| - 1) / 2
    ensures Cross(v, XMean(|v|), v[mid], n) <= 0.0
  {
    if n != 0 {
      CrossFalls(v, mid, n - 1);
      var d, h := (n - 1) as real - XMean(|v|), v[n - 1] - v[mid];
      Middle(n - 1, |v|, mid);
      hide Times;
      if n - 1 <= mid { OppositeSigns(d, h); } else { OppositeSigns(h, d); }
    }
  }

  /** Up to the middle index, indices are at most the mean index; after it, at least. */
  lemma Middle(k: nat, n: nat, mid: nat)
    requires n > 0 && mid == (n - 1) / 2
    ensures k <= mid ==> k as real <= XMean(n)
    ensures k > mid ==> k as real >= XMean(n)
  {
  }

  lemma OppositeSigns(a: real, b: real)
    requires a <= 0.0 && b >= 0.0
    ensures Times(a, b) <= 0.0 && Times(b, a) <= 0.0
  {
  }

  lemma {:induction false} CrossRises(v: seq<real>, mid: nat, n: nat)
    requires NonDecreasing(v) && n <= |v| && mid < |v| && mid == (|v| - 1) / 2
    ensures Cross(v, XMean(|v|), v[mid], n) >= 0.0
  {
    if n != 0 {
      CrossRises(v, mid, n - 1);
      var d, h := (n - 1) as real - XMean(|v|), v[n - 1] - v[mid];
      Middle(n - 1, |v|, mid);
      if n - 1 <= mid { OppositeSigns(d, -h); } else { OppositeSigns(-d, h); }
      TimesNegated(d, h);
    }
  }

  lemma TimesNegated(a: real, b: real)
    ensures Times(a, -b) == -Times(a, b) == Times(-a, b)
  {
    assert a * (-b) == -(a * b) == (-a) * b;
  }

  lemma DivideSigns(a: real, b: real)
    requires b > 0.0
    ensures a <= 0.0 ==> a / b <= 0.0
    ensures a >= 0.0 ==> a / b >= 0.0
  {
  }

  /** The slope of a non-increasing sequence is at most zero, of a non-decreasing one at least zero. */
  lemma SlopeSign(v: seq<real>)
    ensures NonIncreasing(v) ==> Slope(v) <= 0.0
    ensures NonDecreasing(v) ==> Slope(v) >= 0.0
  {
    if |v| >= 3 {
      var mid := (|v| - 1) / 2;
      AnyHeight(v, v[mid]);
      SquaresPositive(|v|);
      if NonIncreasing(v) { CrossFalls(v, mid, |v|); }
      if NonDecreasing(v) { CrossRises(v, mid, |v|); }
      DivideSigns(Cross(v, XMean(|v|), Mean(v), |v|), Squares(XMean(|v|), |v|));
    }
  }

  lemma {:induction false} CrossOfLine(v: seq<real>, a: real, b: real, x: real, n: nat)
    requires Linear(v, a, b) && n <= |v|
    ensures Cross(v, x, a + b * x, n) == Times(b, Squares(x, n))
  {
    if n != 0 {
      CrossOfLine(v, a, b, x, n - 1);
      LineTerm((n - 1) as real, a, b, x);
      var d := (n - 1) as real - x;
      Join(b, Squares(x, n - 1), Times(d, d));
    }
  }

  lemma LineTerm(i: real, a: real, b: real, x: real)
    ensures Times(i - x, a + b * i - (a + b * x)) == Times(b, Times(i - x, i - x))
  {
    var d := i - x;
    assert b * i - b * x == b * d;
    assert d * (b * d) == b * (d * d);
  }

  /** On a line of three points or more the slope is exact. */
  lemma SlopeOfLine(v: seq<real>, a: real, b: real)
    requires Linear(v, a, b) && |v| >= 3
    ensures Slope(v) == b
  {
    var x := XMean(|v|);
    AnyHeight(v, a + b * x);
    CrossOfLine(v, a, b, x, |v|);
    SquaresPositive(|v|);
    Cancel(b, Squares(x, |v|));
  }

  lemma Cancel(b: real, d: real)
    requires d > 0.0
    ensures Times(b, d) / d == b
  {
  }

  /** Falling times are never reported as degrading, nor rising times as improving. */
  lemma TrendIsSound(hist: seq<real>)
    ensures NonIncreasing(Recent(hist)) ==> DetectTrend(hist) != Degrading
    ensures NonDecreasing(Recent(hist)) ==> DetectTrend(hist) != Improving
  {
    var v := Recent(hist);
    SlopeSign(v);
    if Mean(v) > 0.0 { DivideSigns(Slope(v), Mean(v)); }
  }

  /** Steady growth is reported exactly when it exceeds two percent of the mean at each step. */
  lemma TrendOfLine(hist: seq<real>, a: real, b: real)
    requires |hist| >= 10 && Linear(Recent(hist), a, b) && Mean(Recent(hist)) > 0.0
    ensures DetectTrend(hist) == Degrading <==> b > 0.02 * Mean(Recent(hist))
    ensures DetectTrend(hist) == Improving <==> b < -0.02 * Mean(Recent(hist))
  {
    SlopeOfLine(Recent(hist), a, b);
    Ratio(b, Mean(Recent(hist)), 0.02);
    Ratio(b, Mean(Recent(hist)), -0.02);
  }

  lemma Ratio(b: real, m: real, c: real)
    requires m > 0.0
    ensures b / m > c <==> b > c * m
    ensures b / m < c <==> b < c * m
  {
    var q := b / m;
    assert q * m == b;
    Compare(q, c, m);
    Compare(c, q, m);
  }

  /** Only the last twenty times count. */
  lemma RecentAreTheLast(hist: seq<real>)
    ensures |Recent(hist)| == if |hist| < 20 then |hist| else 20
    ensures forall i :: 0 <= i < |Recent(hist)| ==> Recent(hist)[i] == hist[|hist| - |Recent(hist)| + i]
    ensures |hist| >= 20 ==> forall older: seq<real> :: DetectTrend(older + hist) == DetectTrend(hist)
  {
    if |hist| >= 20 {
      forall older: seq<real> ensures DetectTrend(older + hist) == DetectTrend(hist) {
        var all := older + hist;
        assert all[|all| - 20..] == hist[|hist| - 20..];
        assert |hist| == 20 ==> hist[0..] == hist;
      }
    }
  }

  /** Fewer than ten times, or times that are not positive on average, show no trend. */
  lemma TooLittleIsStable(hist: seq<real>)
    requires |hist| < 10 || Mean(Recent(hist)) <= 0.0
    ensures DetectTrend(hist) == Stable
  {
  }

  /** Two points or fewer have no slope. */
  lemma NoSlope(v: seq<real>)
    requires |v| < 3
    ensures Slope(v) == 0.0
  {
  }

  /** The mean of a constant is that constant, and it moves with the values. */
  lemma {:induction false} SumOfShifted(v: seq<real>, w: seq<real>, c: real, n: nat)
    requires n <= |v| == |w| && forall i :: 0 <= i < n ==> w[i] == v[i] + c
    ensures SumTo(w, n) == SumTo(v, n) + n as real * c
  {
    if n != 0 {
      SumOfShifted(v, w, c, n - 1);
      assert n as real * c == (n as real - 1.0) * c + c;
    }
  }

  lemma MeanShifts(v: seq<real>, w: seq<real>, c: real)
    requires |v| == |w| >= 1 && forall i :: 0 <= i < |v| ==> w[i] == v[i] + c
    ensures Mean(w) == Mean(v) + c
    ensures (forall i :: 0 <= i < |v| ==> v[i] == 0.0) ==> Mean(v) == 0.0
  {
    SumOfShifted(v, w, c, |v|);
    Split(SumTo(v, |v|), |v| as real, c);
    if forall i :: 0 <= i < |v| ==> v[i] == 0.0 { SumOfZeros(v, |v|); }
  }

  lemma {:induction false} SumOfZeros(v: seq<real>, n: nat)
    requires n <= |v| && forall i :: 0 <= i < n ==> v[i] == 0.0
    ensures SumTo(v, n) == 0.0
  {
    if n != 0 { SumOfZeros(v, n - 1); }
  }

  lemma Split(a: real, n: real, c: real)
    requires n > 0.0
    ensures (a + n * c) / n == a / n + c
  {
    assert n * c / n == c by { Cancel(c, n); }
  }
}
