/** The YIN difference function (python/data_augment/src/data_augment/_native_pyin/_yin.py), one
    frame at a time, with the autocorrelation as its sum over time. */
module Yin {
  import opened Basics
  import opened Sums

  function Square(x: real): real {
    x * x
  }

  // ---- The terms of the sums at lag k.

  function Lagged(y: seq<real>, k: int): int -> real {
    n => At(y, n) * At(y, n + k)
  }

  function Energy(y: seq<real>): int -> real {
    n => Square(At(y, n))
  }

  function Ahead(y: seq<real>, k: int): int -> real {
    n => Square(At(y, n + k))
  }

  function SquaredDifference(y: seq<real>, k: int): int -> real {
    n => Square(At(y, n) - At(y, n + k))
  }

  function Autocorrelation(y: seq<real>, k: int): real {
    Sum(Lagged(y, k), 0, |y|)
  }

  /** The difference function of the YIN paper, the frame being zero past its end. */
  function Difference(y: seq<real>, k: int): real {
    Sum(SquaredDifference(y, k), 0, |y|)
  }

  /** Energy of the first n samples. */
  function EnergyOf(y: seq<real>, n: int): real {
    Sum(Energy(y), 0, n)
  }

  lemma AutocorrelationAtZero(y: seq<real>)
    ensures Autocorrelation(y, 0) == EnergyOf(y, |y|)
  {
    SumCong(Lagged(y, 0), Energy(y), 0, |y|);
  }

  /** What lies k samples ahead is the energy without its first k terms. */
  lemma EnergyAhead(y: seq<real>, k: nat)
    requires k <= |y|
    ensures Sum(Ahead(y, k), 0, |y|) == EnergyOf(y, |y|) - EnergyOf(y, k)
  {
    SumShift(Ahead(y, k), Energy(y), 0, |y|, k);
    SumSplit(Energy(y), k, |y|, |y| + k);
    SumZero(Energy(y), |y|, |y| + k);
    SumSplit(Energy(y), 0, k, |y|);
  }

  lemma Expand(a: real, b: real)
    ensures (a - b) * (a - b) == a * a + b * b - 2.0 * (a * b)
  {
  }

  lemma TermIdentity(y: seq<real>, k: int, n: int)
    ensures SquaredDifference(y, k)(n) == Energy(y)(n) + Ahead(y, k)(n) - 2.0 * Lagged(y, k)(n)
  {
    Expand(At(y, n), At(y, n + k));
  }

  lemma {:induction false} SumExpanded(f: int -> real, e: int -> real, h: int -> real, l: int -> real, lo: int, hi: int)
    requires forall n | lo <= n < hi :: f(n) == e(n) + h(n) - 2.0 * l(n)
    ensures Sum(f, lo, hi) == Sum(e, lo, hi) + Sum(h, lo, hi) - 2.0 * Sum(l, lo, hi)
    decreases hi - lo
  {
    if lo < hi {
      SumExpanded(f, e, h, l, lo, hi - 1);
    }
  }

  /** The identity the fast form rests on: two autocorrelations and a prefix energy. */
  lemma DifferenceIdentity(y: seq<real>, k: nat)
    requires k <= |y|
    ensures Difference(y, k) == 2.0 * (Autocorrelation(y, 0) - Autocorrelation(y, k)) - EnergyOf(y, k)
  {
    AutocorrelationAtZero(y);
    EnergyAhead(y, k);
    forall n | 0 <= n < |y|
      ensures SquaredDifference(y, k)(n) == Energy(y)(n) + Ahead(y, k)(n) - 2.0 * Lagged(y, k)(n)
    {
      TermIdentity(y, k, n);
    }
    SumExpanded(SquaredDifference(y, k), Energy(y), Ahead(y, k), Lagged(y, k), 0, |y|);
  }

  lemma SquareNonNegative(x: real)
    ensures Square(x) >= 0.0
  {
  }

  lemma DifferenceTermNonNegative(y: seq<real>, k: int, n: int)
    ensures SquaredDifference(y, k)(n) >= 0.0
  {
    SquareNonNegative(At(y, n) - At(y, n + k));
  }

  lemma DifferenceNonNegative(y: seq<real>, k: int)
    ensures Difference(y, k) >= 0.0
  {
    forall n | 0 <= n < |y|
      ensures SquaredDifference(y, k)(n) >= 0.0
    {
      DifferenceTermNonNegative(y, k, n);
    }
    SumNonNegative(SquaredDifference(y, k), 0, |y|);
  }

  // ---- The rows the code computes.

  /** Row k: the difference function, but lag 1 also keeps the first sample's energy, because
      row 0 is zeroed before it is read. */
  function Row(y: seq<real>, k: nat): (r: real)
  {
    if k == 0 then 0.0 else Difference(y, k) + (if k == 1 then Square(At(y, 0)) else 0.0)
  }

  lemma RowNonNegative(y: seq<real>, k: nat)
    ensures Row(y, k) >= 0.0
  {
    DifferenceNonNegative(y, k);
    SquareNonNegative(At(y, 0));
  }

  lemma PrefixEnergyOfOne(y: seq<real>)
    ensures EnergyOf(y, 0) == 0.0 && EnergyOf(y, 1) == Square(At(y, 0))
  {
    assert EnergyOf(y, 1) == Sum(Energy(y), 0, 0) + Energy(y)(0);
  }

  /** The fast form of row k. */
  lemma FastRow(y: seq<real>, k: nat, previous: real)
    requires 1 <= k <= |y| && previous == (if k == 1 then 0.0 else EnergyOf(y, k))
    ensures 2.0 * (Autocorrelation(y, 0) - Autocorrelation(y, k)) - previous == Row(y, k)
  {
    DifferenceIdentity(y, k);
    PrefixEnergyOfOne(y);
  }

  /** square, cumsum in place, row 0 to zero. */
  method PrefixEnergies(y: seq<real>) returns (rows: array<real>)
    requires y != []
    ensures fresh(rows) && rows.Length == |y| && rows[0] == 0.0
    ensures forall i | 1 <= i < |y| :: rows[i] == EnergyOf(y, i + 1)
  {
    rows := new real[|y|](i requires 0 <= i < |y| => Square(y[i]));
    for i := 1 to |y|
      invariant forall j | 0 <= j < i :: rows[j] == EnergyOf(y, j + 1)
      invariant forall j | i <= j < |y| :: rows[j] == Square(y[j])
    {
      rows[i] := rows[i - 1] + rows[i];
    }
    rows[0] := 0.0;
  }

  /** rows[1:maxPeriod+1] from the values before any of them is assigned. */
  method SubtractRows(acf: seq<real>, rows: array<real>, maxPeriod: nat)
    requires maxPeriod < |acf| && maxPeriod < rows.Length
    modifies rows
    ensures rows[0] == old(rows[0])
    ensures forall k | 1 <= k <= maxPeriod :: rows[k] == 2.0 * (acf[0] - acf[k]) - old(rows[k - 1])
  {
    var before := rows[..];
    for k := 1 to maxPeriod + 1
      invariant rows[0] == before[0]
      invariant forall j | 1 <= j < k :: rows[j] == 2.0 * (acf[0] - acf[j]) - before[j - 1]
    {
      rows[k] := 2.0 * (acf[0] - acf[k]) - before[k - 1];
    }
  }

  function Autocorrelations(y: seq<real>, size: nat): (acf: seq<real>)
    ensures |acf| == size
  {
    seq(size, k => Autocorrelation(y, k))
  }

  method DifferenceRows(y: seq<real>, maxPeriod: nat) returns (rows: array<real>)
    requires maxPeriod < |y|
    ensures fresh(rows) && rows.Length == |y|
    ensures forall k | 0 <= k <= maxPeriod :: rows[k] == Row(y, k)
  {
    rows := PrefixEnergies(y);
    ghost var before := rows[..];
    SubtractRows(Autocorrelations(y, maxPeriod + 1), rows, maxPeriod);
    forall k | 1 <= k <= maxPeriod
      ensures rows[k] == Row(y, k)
    {
      FastRow(y, k, before[k - 1]);
    }
  }

  // ---- Normalisation.

  /** The sum of rows 1..k, and its mean. */
  function SumTo(rows: seq<real>, k: nat): real
    requires k < |rows|
  {
    if k == 0 then 0.0 else SumTo(rows, k - 1) + rows[k]
  }

  function CumulativeMean(rows: seq<real>, k: nat): real
    requires 1 <= k < |rows|
  {
    SumTo(rows, k) / k as real
  }

  lemma {:induction false} SumToAtLeast(rows: seq<real>, k: nat)
    requires k < |rows| && forall i | 0 <= i < |rows| :: rows[i] >= 0.0
    ensures SumTo(rows, k) >= 0.0
    ensures k >= 1 ==> SumTo(rows, k) >= rows[k]
  {
    if k > 0 {
      SumToAtLeast(rows, k - 1);
    }
  }

  lemma MeanBounds(r: real, x: real, k: real, mean: real)
    requires 0.0 <= r <= x && k > 0.0 && mean == x / k
    ensures mean >= 0.0 && r <= k * mean
  {
    assert k * mean == x;
  }

  lemma CumulativeMeanNonNegative(rows: seq<real>, k: nat)
    requires 1 <= k < |rows| && forall i | 0 <= i < |rows| :: rows[i] >= 0.0
    ensures CumulativeMean(rows, k) >= 0.0
    ensures rows[k] <= k as real * CumulativeMean(rows, k)
  {
    SumToAtLeast(rows, k);
    MeanBounds(rows[k], SumTo(rows, k), k as real, CumulativeMean(rows, k));
  }

  /** The rows from minPeriod on, each over its cumulative mean. */
  ghost predicate Normalized(rows: seq<real>, minPeriod: nat, tiny: real, result: seq<real>)
    requires minPeriod >= 1 && tiny > 0.0
  {
    && minPeriod + |result| <= |rows|
    && forall i | 0 <= i < |result| :: IsNormalized(rows, minPeriod + i, tiny, result[i])
  }

  ghost predicate IsNormalized(rows: seq<real>, k: nat, tiny: real, value: real)
    requires 1 <= k < |rows| && tiny > 0.0
  {
    var mean := CumulativeMean(rows, k);
    mean >= 0.0 && value == rows[k] / (mean + tiny)
  }

  /** Entry i belongs to period minPeriod + i. */
  method Normalize(rows: seq<real>, minPeriod: nat, maxPeriod: nat, tiny: real) returns (result: seq<real>)
    requires 1 <= minPeriod <= maxPeriod < |rows| && tiny > 0.0
    requires forall i | 0 <= i < |rows| :: rows[i] >= 0.0
    ensures |result| == maxPeriod - minPeriod + 1 && Normalized(rows, minPeriod, tiny, result)
  {
    result := [];
    var sum := 0.0;
    for k := 1 to maxPeriod + 1
      invariant sum == SumTo(rows, k - 1)
      invariant |result| == if k <= minPeriod then 0 else k - minPeriod
      invariant Normalized(rows, minPeriod, tiny, result)
    {
      sum := sum + rows[k];
      CumulativeMeanNonNegative(rows, k);
      if k >= minPeriod {
        var mean := sum / k as real;
        var value := rows[k] / (mean + tiny);
        assert IsNormalized(rows, k, tiny, value);
        result := result + [value];
      }
    }
  }

  lemma {:induction false} SumToIsSum(rows: seq<real>, k: nat)
    requires k < |rows|
    ensures SumTo(rows, k) == Sum(i => At(rows, i), 1, k + 1)
  {
    var f := i => At(rows, i);
    if k > 0 {
      SumToIsSum(rows, k - 1);
      assert Sum(f, 1, k + 1) == Sum(f, 1, k) + f(k);
    }
  }

  lemma Cleared(r: real, k: real, sum: real, tiny: real, value: real)
    requires k > 0.0 && sum / k + tiny != 0.0 && value == r / (sum / k + tiny)
    ensures value * (sum + k * tiny) == k * r
  {
    var mean := sum / k;
    assert mean * k == sum;
    assert value * (mean + tiny) == r;
    assert value * (sum + k * tiny) == value * (mean + tiny) * k;
  }

  /** A normalised value is row k in units of the mean of rows 1 to k (and `tiny`): k times the
      row is the value times the sum. */
  lemma NormalizedByTheMean(rows: seq<real>, k: nat, tiny: real, value: real)
    requires 1 <= k < |rows| && tiny > 0.0 && IsNormalized(rows, k, tiny, value)
    ensures value * (Sum(i => At(rows, i), 1, k + 1) + k as real * tiny) == k as real * rows[k]
  {
    SumToIsSum(rows, k);
    Cleared(rows[k], k as real, SumTo(rows, k), tiny, value);
  }

  lemma {:induction false} SumOfEqual(rows: seq<real>, k: nat, r: real)
    requires k < |rows| && forall i | 1 <= i <= k :: rows[i] == r
    ensures SumTo(rows, k) == k as real * r
  {
    if k > 0 {
      SumOfEqual(rows, k - 1, r);
    }
  }

  /** Equal rows normalise to one, but for `tiny`. */
  lemma EqualRowsNormaliseToOne(rows: seq<real>, k: nat, r: real, tiny: real, value: real)
    requires 1 <= k < |rows| && tiny > 0.0 && r >= 0.0 && IsNormalized(rows, k, tiny, value)
    requires forall i | 1 <= i <= k :: rows[i] == r
    ensures value == r / (r + tiny)
  {
    SumOfEqual(rows, k, r);
    MeanOfEqual(k as real, r);
  }

  lemma MeanOfEqual(k: real, r: real)
    requires k > 0.0
    ensures k * r / k == r
  {
  }

  /** A normalised value is never negative and never above its period. */
  lemma NormalizedInRange(rows: seq<real>, k: nat, tiny: real, value: real)
    requires 1 <= k < |rows| && tiny > 0.0 && forall i | 0 <= i < |rows| :: rows[i] >= 0.0
    requires IsNormalized(rows, k, tiny, value)
    ensures 0.0 <= value <= k as real
  {
    CumulativeMeanNonNegative(rows, k);
    NormalizedQuotient(rows[k], CumulativeMean(rows, k) + tiny, k as real, CumulativeMean(rows, k), value);
  }

  lemma NormalizedQuotient(r: real, d: real, k: real, mean: real, q: real)
    requires 0.0 <= r <= k * mean && mean >= 0.0 && d > mean && k > 0.0 && q == r / d
    ensures 0.0 <= q <= k
  {
    assert k * mean <= k * d;
    assert q * d == r;
  }

  function RowsOf(y: seq<real>, maxPeriod: nat): (rows: seq<real>)
    ensures |rows| == maxPeriod + 1
  {
    seq(maxPeriod + 1, k requires k >= 0 => Row(y, k))
  }

  lemma RowsNonNegative(y: seq<real>, maxPeriod: nat)
    ensures forall k | 0 <= k <= maxPeriod :: RowsOf(y, maxPeriod)[k] >= 0.0
  {
    forall k | 0 <= k <= maxPeriod
      ensures RowsOf(y, maxPeriod)[k] >= 0.0
    {
      RowNonNegative(y, k);
    }
  }

  lemma SameRows(rows: seq<real>, y: seq<real>, maxPeriod: nat)
    requires |rows| == maxPeriod + 1 && forall k | 0 <= k <= maxPeriod :: rows[k] == Row(y, k)
    ensures rows == RowsOf(y, maxPeriod)
  {
  }

  /** cumulative_mean_normalized_difference for one frame. `tiny` keeps the division defined. */
  method CumulativeMeanNormalizedDifference(y: seq<real>, minPeriod: nat, maxPeriod: nat, tiny: real)
    returns (result: seq<real>)
    requires 1 <= minPeriod <= maxPeriod < |y| && tiny > 0.0
    ensures |result| == maxPeriod - minPeriod + 1
    ensures forall i | 0 <= i < |result| :: IsNormalized(RowsOf(y, maxPeriod), minPeriod + i, tiny, result[i])
  {
    var rows := DifferenceRows(y, maxPeriod);
    SameRows(rows[..maxPeriod + 1], y, maxPeriod);
    RowsNonNegative(y, maxPeriod);
    result := Normalize(rows[..maxPeriod + 1], minPeriod, maxPeriod, tiny);
  }

  // ---- Sub-sample refinement.

  /** The shift of an interior bin from its neighbours' values. */
  function Shift(left: real, center: real, right: real): real {
    var a := right + left - 2.0 * center;
    var b := (right - left) / 2.0;
    if Abs(b) < Abs(a) then -b / a else 0.0
  }

  function ParabolicInterpolation(x: seq<real>): (shifts: seq<real>)
    ensures |shifts| == |x|
  {
    seq(|x|, i requires 0 <= i < |x| => if 0 < i < |x| - 1 then Shift(x[i - 1], x[i], x[i + 1]) else 0.0)
  }

  /** The parabola through three neighbouring values, at -1, 0 and 1. */
  function Parabola(left: real, center: real, right: real, t: real): real {
    center + (right - left) / 2.0 * t + (right + left - 2.0 * center) / 2.0 * (t * t)
  }

  lemma ParabolaFits(left: real, center: real, right: real)
    ensures Parabola(left, center, right, -1.0) == left
    ensures Parabola(left, center, right, 0.0) == center
    ensures Parabola(left, center, right, 1.0) == right
  {
  }

  lemma VertexIdentity(c: real, a: real, b: real, s: real, t: real)
    requires a * s == -b
    ensures c + b * t + a / 2.0 * (t * t) == c + b * s + a / 2.0 * (s * s) + a / 2.0 * ((t - s) * (t - s))
  {
    var p := a * s;
    assert a / 2.0 * ((t - s) * (t - s)) == a / 2.0 * (t * t) - p * t + p * s / 2.0;
    assert a / 2.0 * (s * s) == p * s / 2.0;
  }

  lemma DivisionBounds(b: real, a: real, s: real, h: real)
    requires a != 0.0 && s == -b / a && h > 0.0
    ensures a * s == -b
    ensures a > 0.0 && Abs(b) <= h * a ==> -h <= s <= h
  {
    assert s * a == -b;
    if a > 0.0 {
      Cancel(s, h, a);
      Cancel(-s, h, a);
    }
  }

  lemma Cancel(s: real, h: real, a: real)
    requires a > 0.0
    ensures s * a <= h * a ==> s <= h
  {
    if s > h {
      ProductPositive(s - h, a);
      assert (s - h) * a == s * a - h * a;
    }
  }

  /** At a local minimum the shift is at most half a bin, and leads to the lowest point of the
      parabola. */
  lemma TroughShift(left: real, center: real, right: real, t: real)
    requires center < left && center <= right
    ensures -0.5 <= Shift(left, center, right) <= 0.5
    ensures Parabola(left, center, right, Shift(left, center, right)) <= Parabola(left, center, right, t)
  {
    var a := right + left - 2.0 * center;
    var b := (right - left) / 2.0;
    var s := Shift(left, center, right);
    DivisionBounds(b, a, s, 0.5);
    VertexIdentity(center, a, b, s, t);
    SquareNonNegative(t - s);
    HalfSquare(a, (t - s) * (t - s));
  }

  /** So at every interior local minimum of a row, and edge bins are not shifted. */
  lemma TroughsAreRefined(x: seq<real>, i: nat, t: real)
    requires i < |x|
    ensures i == 0 || i == |x| - 1 ==> ParabolicInterpolation(x)[i] == 0.0
    ensures 0 < i < |x| - 1 && x[i] < x[i - 1] && x[i] <= x[i + 1] ==>
              && -0.5 <= ParabolicInterpolation(x)[i] <= 0.5
              && Parabola(x[i - 1], x[i], x[i + 1], ParabolicInterpolation(x)[i]) <=
                 Parabola(x[i - 1], x[i], x[i + 1], t)
  {
    if 0 < i < |x| - 1 && x[i] < x[i - 1] && x[i] <= x[i + 1] {
      TroughShift(x[i - 1], x[i], x[i + 1], t);
    }
  }

  lemma HalfSquare(a: real, q: real)
    requires a > 0.0 && q >= 0.0
    ensures a / 2.0 * q >= 0.0
  {
  }
}
