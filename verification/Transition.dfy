/** The banded transition matrix of native pyin (data_augment/_native_pyin/_viterbi.py) and
    its Kronecker product with the two-state voicing loop, over the reals. */
module Transition {
  import opened Sums

  /** scipy.signal.windows.triang(width)[k]. */
  function Triang(width: nat, k: nat): real
    requires width >= 1
  {
    var up := if k < width - k then k + 1 else width - k;
    if width % 2 == 1 then (2 * up) as real / (width + 1) as real
    else (2 * up - 1) as real / width as real
  }

  /** The window in the middle of a row of zeros. */
  function Base(n: nat, width: nat, c: int): real
    requires 1 <= width <= n
  {
    var lpad := (n - width) / 2;
    if lpad <= c < lpad + width then Triang(width, c - lpad) else 0.0
  }

  /** Row i before normalisation: np.roll of the base row, then the two masks. */
  function Weight(n: nat, width: nat, i: nat, c: nat): real
    requires 1 <= width <= n
  {
    var shifted: int := c as int - (n / 2 + i + 1);
    if c >= i + width / 2 + 1 || c + width / 2 < i then 0.0 else Base(n, width, shifted % n)
  }

  /** Where the roll takes column i + d of row i. */
  lemma RolledIndex(n: nat, i: nat, d: int)
    requires n >= 1 && 0 <= (n - 1) / 2 + d + n && (n - 1) / 2 + d < n
    ensures (i + d - (n / 2 + i + 1)) % n == if (n - 1) / 2 + d >= 0 then (n - 1) / 2 + d else (n - 1) / 2 + d + n
  {
    var r := (n - 1) / 2 + d;
    assert i + d - (n / 2 + i + 1) == (-1) * n + r;
    if r >= 0 {
      DivModUnique(i + d - (n / 2 + i + 1), n, -1, r);
    } else {
      assert (-2) * n == (-1) * n - n;
      DivModUnique(i + d - (n / 2 + i + 1), n, -2, r + n);
    }
  }

  /** Inside the band, and not wrapped: column i + d holds the base row's middle plus d. */
  lemma WeightInBand(n: nat, width: nat, i: nat, j: nat)
    requires 1 <= width <= n && i < n && j < n
    requires i <= j + width / 2 && j <= i + width / 2 && 0 <= (n - 1) / 2 + j - i < n
    ensures Weight(n, width, i, j) == Base(n, width, (n - 1) / 2 + j - i)
  {
    RolledIndex(n, i, j - i);
  }

  function Distance(i: nat, j: nat): nat {
    if i < j then j - i else i - j
  }

  /** For an odd width every row is the triangle centred on its own state, cut at the edges:
      the masks remove exactly what the roll wrapped around. */
  lemma WeightIsTriangle(n: nat, width: nat, i: nat, j: nat)
    requires 1 <= width <= n && width % 2 == 1 && i < n && j < n
    ensures var h := width / 2;
            Weight(n, width, i, j) ==
            if Distance(i, j) <= h then (h + 1 - Distance(i, j)) as real / (h + 1) as real else 0.0
  {
    var h := width / 2;
    if Distance(i, j) <= h {
      WeightInBand(n, width, i, j);
      assert (n - width) / 2 == (n - 1) / 2 - h;
      assert Weight(n, width, i, j) == Triang(width, h + j - i);
      HalvedFraction(h + 1 - Distance(i, j), h + 1);
    }
  }

  lemma HalvedFraction(a: nat, b: nat)
    requires b >= 1
    ensures (2 * a) as real / (2 * b) as real == a as real / b as real
  {
    var q := a as real / b as real;
    assert q * b as real == a as real;
    assert (2 * a) as real == q * (2 * b) as real;
  }

  /** The unnormalised matrix is symmetric exactly for odd widths (and the one 2 by 2 case):
      an even window has no middle for the roll to put on the diagonal. */
  lemma SymmetricExactly(n: nat, width: nat)
    requires 1 <= width <= n && n >= 2
    ensures (forall i: nat, j: nat | i < n && j < n :: Weight(n, width, i, j) == Weight(n, width, j, i))
            <==> width % 2 == 1 || (width == 2 && n == 2)
  {
    if width % 2 == 1 {
      forall i: nat, j: nat | i < n && j < n
        ensures Weight(n, width, i, j) == Weight(n, width, j, i)
      {
        WeightIsTriangle(n, width, i, j);
        WeightIsTriangle(n, width, j, i);
      }
    } else if n == 2 {
      assert Weight(2, 2, 0, 1) == Base(2, 2, (1 - 2) % 2) == Triang(2, 1);
      assert Weight(2, 2, 1, 0) == Base(2, 2, (0 - 3) % 2) == Triang(2, 1);
    } else {
      OffCentre(n, width);
    }
  }

  lemma OffCentre(n: nat, width: nat)
    requires 2 <= width <= n && n >= 3 && width % 2 == 0
    ensures Weight(n, width, 0, 1) != Weight(n, width, 1, 0)
  {
    var h := width / 2;
    WeightInBand(n, width, 0, 1);
    WeightInBand(n, width, 1, 0);
    Padding(n, width);
    if n % 2 == 0 {
      TriangBelow(width, h, h - 2);
    } else {
      TriangBelow(width, h - 1, h + 1);
    }
  }

  /** Where an even window begins, seen from the middle. */
  lemma Padding(n: int, width: int)
    requires width % 2 == 0
    ensures (n - width) / 2 == (n - 1) / 2 - width / 2 + if n % 2 == 0 then 1 else 0
  {
    var a, b := n / 2, width / 2;
    assert width == 2 * b;
    assert n == 2 * a + n % 2;
  }

  /** In an even window the two middle values are larger than anything further out. */
  lemma TriangBelow(width: nat, a: nat, k: int)
    requires width >= 2 && width % 2 == 0 && (a == width / 2 || a == width / 2 - 1)
    requires k == a - 2 || k == a + 2
    ensures Triang(width, a) > 0.0
    ensures 0 <= k < width && (k < width / 2 - 1 || k > width / 2) ==> Triang(width, k) < Triang(width, a)
  {
    var up := if a < width - a then a + 1 else width - a;
    assert up == width / 2;
    assert Triang(width, a) == (width - 1) as real / width as real;
    QuotientMono(0.0, (width - 1) as real, width as real);
    if 0 <= k < width && (k < width / 2 - 1 || k > width / 2) {
      var up' := if k < width - k then k + 1 else width - k;
      QuotientMono((2 * up' - 1) as real, (width - 1) as real, width as real);
    }
  }

  // ---- Rows after normalisation.

  function RowWeights(n: nat, width: nat, i: nat): int -> real
    requires 1 <= width <= n
  {
    j => if j >= 0 then Weight(n, width, i, j) else 0.0
  }

  function RowSum(n: nat, width: nat, i: nat): real
    requires 1 <= width <= n
  {
    Sum(RowWeights(n, width, i), 0, n)
  }

  lemma FractionRange(a: nat, b: nat)
    requires 1 <= a <= b
    ensures 0.0 < a as real / b as real <= 1.0
    ensures a == b ==> a as real / b as real == 1.0
  {
    QuotientMono(0.0, a as real, b as real);
    if a < b {
      QuotientMono(a as real, b as real, b as real);
    }
  }

  /** The support of row i is exactly the band around i, with weight 1 on the diagonal. */
  lemma WeightSupport(n: nat, width: nat, i: nat, j: nat)
    requires 1 <= width <= n && width % 2 == 1 && i < n && j < n
    ensures 0.0 <= Weight(n, width, i, j) <= 1.0
    ensures Weight(n, width, i, j) > 0.0 <==> Distance(i, j) <= width / 2
    ensures Weight(n, width, i, i) == 1.0
  {
    WeightIsTriangle(n, width, i, j);
    WeightIsTriangle(n, width, i, i);
    FractionRange(width / 2 + 1, width / 2 + 1);
    if Distance(i, j) <= width / 2 {
      FractionRange(width / 2 + 1 - Distance(i, j), width / 2 + 1);
    }
  }

  lemma TriangPositive(width: nat, k: nat)
    requires k < width
    ensures Triang(width, k) > 0.0
  {
    var up := if k < width - k then k + 1 else width - k;
    if width % 2 == 1 {
      QuotientMono(0.0, (2 * up) as real, (width + 1) as real);
    } else {
      QuotientMono(0.0, (2 * up - 1) as real, width as real);
    }
  }

  lemma WeightNonNegative(n: nat, width: nat, i: nat, j: nat)
    requires 1 <= width <= n && i < n && j < n
    ensures Weight(n, width, i, j) >= 0.0
  {
    BaseNonNegative(n, width, (j as int - (n / 2 + i + 1)) % n);
  }

  lemma BaseNonNegative(n: nat, width: nat, c: int)
    requires 1 <= width <= n
    ensures Base(n, width, c) >= 0.0
  {
    var lpad := (n - width) / 2;
    if lpad <= c < lpad + width {
      TriangPositive(width, c - lpad);
    }
  }

  /** The roll puts a tap of the window, whatever its width, on the diagonal. */
  lemma DiagonalPositive(n: nat, width: nat, i: nat)
    requires 1 <= width <= n && i < n
    ensures Weight(n, width, i, i) > 0.0
  {
    WeightInBand(n, width, i, i);
    MiddleInWindow(n, width);
    TriangPositive(width, (n - 1) / 2 - (n - width) / 2);
  }

  lemma MiddleInWindow(n: int, width: int)
    requires 1 <= width <= n
    ensures 0 <= (n - 1) / 2 - (n - width) / 2 < width
  {
  }

  /** Every row has weight on its own state, so normalising never divides by zero. */
  lemma RowSumPositive(n: nat, width: nat, i: nat)
    requires 1 <= width <= n && i < n
    ensures RowSum(n, width, i) > 0.0
  {
    var f := RowWeights(n, width, i);
    forall j | 0 <= j < n
      ensures f(j) >= 0.0
    {
      WeightNonNegative(n, width, i, j);
    }
    DiagonalPositive(n, width, i);
    SumSplit(f, 0, i, n);
    SumSplit(f, i, i + 1, n);
    SumNonNegative(f, 0, i);
    SumNonNegative(f, i + 1, n);
    assert Sum(f, i, i + 1) == f(i);
  }

  /** Entry (i, j) of the normalised matrix. */
  ghost function Probability(n: nat, width: nat, i: nat, j: nat): real
    requires 1 <= width <= n && i < n && j < n
  {
    RowSumPositive(n, width, i);
    Weight(n, width, i, j) / RowSum(n, width, i)
  }

  ghost function Row(n: nat, width: nat, i: nat): int -> real
    requires 1 <= width <= n && i < n
  {
    j => if 0 <= j < n then Probability(n, width, i, j) else 0.0
  }

  lemma QuotientSign(w: real, s: real)
    requires w >= 0.0 && s > 0.0
    ensures w / s >= 0.0 && (w / s > 0.0 <==> w > 0.0)
  {
    if w > 0.0 {
      QuotientMono(0.0, w, s);
    } else {
      assert w / s == 0.0;
    }
  }

  /** Dividing by the total makes a row sum to one. */
  lemma NormalisedSumsToOne(f: int -> real, g: int -> real, n: nat)
    requires Sum(f, 0, n) > 0.0
    requires forall j | 0 <= j < n :: g(j) == f(j) / Sum(f, 0, n)
    ensures Sum(g, 0, n) == 1.0
  {
    var s := Sum(f, 0, n);
    forall j | 0 <= j < n
      ensures g(j) == (1.0 / s) * f(j)
    {
      ScaledQuotient(f(j), s);
    }
    SumScale(1.0 / s, f, g, 0, n);
  }

  lemma ProbabilitySupport(n: nat, width: nat, i: nat, j: nat)
    requires 1 <= width <= n && i < n && j < n
    ensures Probability(n, width, i, j) >= 0.0
    ensures width % 2 == 1 ==> (Probability(n, width, i, j) > 0.0 <==> Distance(i, j) <= width / 2)
  {
    RowSumPositive(n, width, i);
    WeightNonNegative(n, width, i, j);
    if width % 2 == 1 {
      WeightSupport(n, width, i, j);
    }
    QuotientSign(Weight(n, width, i, j), RowSum(n, width, i));
  }

  /** The rows are probability distributions; for an odd width, over exactly the band around
      each state. */
  lemma RowsAreStochastic(n: nat, width: nat, i: nat)
    requires 1 <= width <= n && i < n
    ensures Sum(Row(n, width, i), 0, n) == 1.0
    ensures forall j: nat | j < n :: Probability(n, width, i, j) >= 0.0
    ensures width % 2 == 1 ==>
              forall j: nat | j < n :: Probability(n, width, i, j) > 0.0 <==> Distance(i, j) <= width / 2
  {
    forall j: nat | j < n
      ensures Probability(n, width, i, j) >= 0.0
      ensures width % 2 == 1 ==> (Probability(n, width, i, j) > 0.0 <==> Distance(i, j) <= width / 2)
    {
      ProbabilitySupport(n, width, i, j);
    }
    RowSumPositive(n, width, i);
    NormalisedSumsToOne(RowWeights(n, width, i), Row(n, width, i), n);
  }

  lemma ScaledQuotient(a: real, s: real)
    requires s > 0.0
    ensures a / s == (1.0 / s) * a
    ensures a == 0.0 ==> a / s == 0.0
  {
  }

  /** transition_local_triangle. A width of zero leaves every row empty, and one above n_states
      asks for negative padding. */
  method TransitionLocalTriangle(n: nat, width: nat) returns (transition: array2<real>)
    requires 1 <= width <= n
    ensures transition.Length0 == transition.Length1 == n
    ensures forall i: nat, j: nat | i < n && j < n :: transition[i, j] == Probability(n, width, i, j)
  {
    transition := new real[n, n];
    for i := 0 to n
      invariant forall r: nat, j: nat | r < i && j < n :: transition[r, j] == Weight(n, width, r, j)
    {
      for j := 0 to n
        invariant forall r: nat, c: nat | c < n && (r < i || (r == i && c < j)) ::
                    transition[r, c] == Weight(n, width, r, c)
      {
        transition[i, j] := Weight(n, width, i, j);
      }
    }
    for i := 0 to n
      invariant forall r: nat, j: nat | r < n && j < n ::
                  transition[r, j] == if r < i then Probability(n, width, r, j) else Weight(n, width, r, j)
    {
      NormaliseRow(transition, n, width, i);
    }
  }

  method NormaliseRow(transition: array2<real>, n: nat, ghost width: nat, i: nat)
    requires 1 <= width <= n && i < n && transition.Length0 == transition.Length1 == n
    requires forall j: nat | j < n :: transition[i, j] == Weight(n, width, i, j)
    modifies transition
    ensures forall r: nat, j: nat | r < n && j < n ::
              transition[r, j] == if r == i then Probability(n, width, i, j) else old(transition[r, j])
  {
    RowSumPositive(n, width, i);
    var sum := 0.0;
    for j := 0 to n
      invariant sum == Sum(RowWeights(n, width, i), 0, j)
    {
      sum := sum + transition[i, j];
    }
    for j := 0 to n
      invariant forall r: nat, c: nat | r < n && c < n ::
                  transition[r, c] == if r == i && c < j then Probability(n, width, i, c) else old(transition[r, c])
    {
      transition[i, j] := transition[i, j] / sum;
    }
  }

  // ---- The product with the voiced/unvoiced loop.

  /** transition_loop_2(prob)[a][b]. */
  function Loop2(prob: real, a: nat, b: nat): real {
    if a == b then prob else 1.0 - prob
  }

  /** Row (a, i) of np.kron(loop, local): entry (b, j), at column b * n + j, is the product
      of the two entries. */
  ghost function KronRow(prob: real, local: int -> real, n: nat, a: nat): int -> real {
    Beside(Loop2(prob, a, 0), Loop2(prob, a, 1), local, n)
  }

  /** Two scaled copies of a row, side by side. */
  ghost function Beside(left: real, right: real, row: int -> real, n: nat): int -> real {
    c => if c < n then left * row(c) else right * row(c - n)
  }

  lemma ScaledDistribution(c: real, row: int -> real, f: int -> real, n: nat)
    requires Sum(row, 0, n) == 1.0 && forall j | 0 <= j < n :: f(j) == c * row(j)
    ensures Sum(f, 0, n) == c
  {
    SumScale(c, row, f, 0, n);
    assert c * 1.0 == c;
  }

  /** Two scaled copies of a distribution, side by side, are one if the scales add to one. */
  lemma MixtureSumsToOne(f: int -> real, row: int -> real, n: nat, stay: real, move: real)
    requires stay + move == 1.0 && Sum(row, 0, n) == 1.0
    requires forall c | 0 <= c < n :: f(c) == stay * row(c)
    requires forall c | 0 <= c < n :: f(c + n) == move * row(c)
    ensures Sum(f, 0, n) == stay && Sum(f, n, 2 * n) == move && Sum(f, 0, 2 * n) == 1.0
  {
    var upper := c => f(c + n);
    ScaledDistribution(stay, row, f, n);
    ScaledDistribution(move, row, upper, n);
    SumShift(upper, f, 0, n, n);
    SumSplit(f, 0, n, 2 * n);
  }

  /** Combining the loop with any stochastic row keeps the sum at one. */
  lemma KronSumsToOne(prob: real, local: int -> real, n: nat, a: nat)
    requires a < 2 && Sum(local, 0, n) == 1.0
    ensures Sum(KronRow(prob, local, n, a), 0, 2 * n) == 1.0
  {
    MixtureSumsToOne(KronRow(prob, local, n, a), local, n, Loop2(prob, a, 0), Loop2(prob, a, 1));
  }

  /** A state keeps its voicing, voiced (columns below n) or unvoiced, with probability `prob`. */
  lemma VoicingIsKept(prob: real, local: int -> real, n: nat, a: nat)
    requires a < 2 && Sum(local, 0, n) == 1.0
    ensures Sum(KronRow(prob, local, n, a), 0, n) == if a == 0 then prob else 1.0 - prob
    ensures Sum(KronRow(prob, local, n, a), n, 2 * n) == if a == 0 then 1.0 - prob else prob
  {
    MixtureSumsToOne(KronRow(prob, local, n, a), local, n, Loop2(prob, a, 0), Loop2(prob, a, 1));
  }

  lemma BesideAt(stay: real, move: real, local: int -> real, n: nat, j: nat)
    requires j < n
    ensures Beside(stay, move, local, n)(j) == stay * local(j)
    ensures Beside(stay, move, local, n)(j + n) == move * local(j)
  {
  }

  /** Whether it keeps its voicing or not, it moves in pitch by the same distribution. */
  lemma PitchMovesAlike(prob: real, local: int -> real, n: nat, j: nat)
    requires j < n
    ensures KronRow(prob, local, n, 0)(j) == prob * local(j) == KronRow(prob, local, n, 1)(j + n)
    ensures KronRow(prob, local, n, 0)(j + n) == (1.0 - prob) * local(j) == KronRow(prob, local, n, 1)(j)
  {
    BesideAt(prob, 1.0 - prob, local, n, j);
    BesideAt(1.0 - prob, prob, local, n, j);
  }

  /** The matrix pyin hands to Viterbi: switching voicing and moving in pitch are
      independent, every row sums to one and no entry is negative. */
  lemma PyinRowsAreStochastic(prob: real, n: nat, width: nat, a: nat, i: nat)
    requires 1 <= width <= n && a < 2 && i < n
    ensures Sum(KronRow(prob, Row(n, width, i), n, a), 0, 2 * n) == 1.0
    ensures 0.0 <= prob <= 1.0 ==> forall c | 0 <= c < 2 * n :: KronRow(prob, Row(n, width, i), n, a)(c) >= 0.0
  {
    var row := Row(n, width, i);
    RowsAreStochastic(n, width, i);
    KronSumsToOne(prob, row, n, a);
    if 0.0 <= prob <= 1.0 {
      forall j | 0 <= j < n
        ensures row(j) >= 0.0
      {
        ProbabilitySupport(n, width, i, j);
      }
      KronNonNegative(prob, row, n, a);
    }
  }

  lemma KronNonNegative(prob: real, local: int -> real, n: nat, a: nat)
    requires 0.0 <= prob <= 1.0 && forall j | 0 <= j < n :: local(j) >= 0.0
    ensures forall c | 0 <= c < 2 * n :: KronRow(prob, local, n, a)(c) >= 0.0
  {
    forall c | 0 <= c < 2 * n
      ensures KronRow(prob, local, n, a)(c) >= 0.0
    {
      if c < n {
        ProductNonNegative(Loop2(prob, a, 0), local(c));
      } else {
        ProductNonNegative(Loop2(prob, a, 1), local(c - n));
      }
    }
  }
}
