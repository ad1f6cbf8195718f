/** One rational-ratio polyphase FIR stage (cpp_impl/src/linkjiru/PolyphaseFir.hpp).

    The class keeps the source's buffers and counters. Two ghost fields record what the
    stage has seen since the last reset: `input`, every sample pushed, and `emitted`, how
    many outputs were computed. All results are stated about these. */
module PolyphaseFilter {
  import opened Basics
  import opened Sums

  /** The fixed part of a stage: ratio L/M, taps per phase T, prototype h. */
  datatype Filter = Filter(L: nat, M: nat, T: nat, h: seq<real>) {
    predicate WellFormed() {
      L >= 1 && M >= 1 && T >= 1 && |h| == L * T
    }
  }

  // ---- The textbook resampler: zero-stuff by L, filter with h, keep every M-th sample.

  function Stuffed(x: seq<real>, L: nat, i: int): real
    requires L >= 1
  {
    if i % L == 0 then At(x, i / L) else 0.0
  }

  function TextbookTerm(f: Filter, x: seq<real>, k: nat): int -> real
    requires f.WellFormed()
  {
    m => At(f.h, m) * Stuffed(x, f.L, k * f.M - m)
  }

  function Textbook(f: Filter, x: seq<real>, k: nat): real
    requires f.WellFormed()
  {
    Sum(TextbookTerm(f, x, k), 0, f.L * f.T)
  }

  // ---- The commutator: output k uses subfilter k*M mod L on the inputs up to k*M div L.

  function Phase(f: Filter, k: nat): nat
    requires f.WellFormed()
  {
    k * f.M % f.L
  }

  function Newest(f: Filter, k: nat): nat
    requires f.WellFormed()
  {
    MulNonNegative(k, f.M);
    k * f.M / f.L
  }

  function SampleTerm(f: Filter, x: seq<real>, k: nat): int -> real
    requires f.WellFormed()
  {
    j => At(f.h, Phase(f, k) + j * f.L) * At(x, Newest(f, k) - j)
  }

  function Sample(f: Filter, x: seq<real>, k: nat): real
    requires f.WellFormed()
  {
    Sum(SampleTerm(f, x, k), 0, f.T)
  }

  /** How many outputs P inputs determine: ceil(P*L/M). */
  function Count(f: Filter, P: nat): nat
    requires f.WellFormed()
  {
    MulNonNegative(P, f.L);
    (P * f.L + f.M - 1) / f.M
  }

  function Samples(f: Filter, x: seq<real>, from: nat, to: nat): (s: seq<real>)
    requires f.WellFormed() && from <= to
    ensures |s| == to - from
  {
    seq(to - from, i requires 0 <= i < to - from => Sample(f, x, from + i))
  }

  /** Everything the stage has output once it has consumed x. */
  function Stream(f: Filter, x: seq<real>): seq<real>
    requires f.WellFormed()
  {
    Samples(f, x, 0, Count(f, |x|))
  }

  // ---- The commutator computes the textbook resampler.

  /** The zero-stuffed stream under tap i of the m-th run of L taps. */
  lemma StuffedUnderTap(x: seq<real>, L: nat, b: int, p: nat, m: nat, d: nat)
    requires p < L && d < L
    ensures Stuffed(x, L, b * L + p - (m * L + d)) == if d == p then At(x, b - m) else 0.0
  {
    var i := b * L + p - (m * L + d);
    assert i == (b - m) * L + (p - d);
    if d <= p {
      DivModUnique(i, L, b - m, p - d);
    } else {
      assert (b - m - 1) * L == (b - m) * L - L;
      DivModUnique(i, L, b - m - 1, p - d + L);
    }
  }

  lemma TapTerm(f: Filter, x: seq<real>, k: nat, m: nat, d: nat)
    requires f.WellFormed() && d < f.L
    ensures TextbookTerm(f, x, k)(m * f.L + d) == if d == Phase(f, k) then SampleTerm(f, x, k)(m) else 0.0
  {
    NewestSplits(f, k);
    StuffedUnderTap(x, f.L, Newest(f, k), Phase(f, k), m, d);
    TapValue(At(f.h, m * f.L + d), Stuffed(x, f.L, k * f.M - (m * f.L + d)), At(x, Newest(f, k) - m), d == Phase(f, k));
    MulNonNegative(m, f.L);
    assert TextbookTerm(f, x, k)(m * f.L + d) ==
           At(f.h, m * f.L + d) * Stuffed(x, f.L, k * f.M - (m * f.L + d));
  }

  lemma TapValue(h: real, stuffed: real, sample: real, hit: bool)
    requires stuffed == if hit then sample else 0.0
    ensures h * stuffed == if hit then h * sample else 0.0
  {
  }

  /** Output k counts k*M stuffed samples: Newest whole inputs and Phase more. */
  lemma NewestSplits(f: Filter, k: nat)
    requires f.WellFormed()
    ensures k * f.M == Newest(f, k) * f.L + Phase(f, k)
    ensures 0 <= Phase(f, k) < f.L
  {
    MulNonNegative(k, f.M);
    DivisionIdentity(k * f.M, f.L);
  }

  lemma DivisionIdentity(n: int, d: int)
    requires d >= 1
    ensures n == (n / d) * d + n % d
  {
  }

  /** Inside the m-th run of L taps only the tap at the output's phase meets a real input. */
  lemma TapBlock(f: Filter, x: seq<real>, k: nat, m: nat)
    requires f.WellFormed()
    ensures Sum(TextbookTerm(f, x, k), m * f.L, m * f.L + f.L) == SampleTerm(f, x, k)(m)
  {
    var v := SampleTerm(f, x, k)(m);
    var block := d => if d == Phase(f, k) then v else 0.0;
    var lo := m * f.L;
    forall d | 0 <= d < f.L
      ensures block(d) == TextbookTerm(f, x, k)(d + lo)
    {
      TapTerm(f, x, k, m, d);
    }
    SumShift(block, TextbookTerm(f, x, k), 0, f.L, lo);
    SumSingle(block, 0, f.L, Phase(f, k));
  }

  lemma {:induction false} TapBlocks(f: Filter, x: seq<real>, k: nat, n: nat)
    requires f.WellFormed() && n <= f.T
    ensures Sum(TextbookTerm(f, x, k), 0, n * f.L) == Sum(SampleTerm(f, x, k), 0, n)
  {
    if n > 0 {
      TapBlocks(f, x, k, n - 1);
      TapBlock(f, x, k, n - 1);
      MulNonNegative(n - 1, f.L);
      assert (n - 1) * f.L + f.L == n * f.L;
      SumSplit(TextbookTerm(f, x, k), 0, (n - 1) * f.L, n * f.L);
    }
  }

  /** Sample k of the stage is sample k*M of h convolved with the L-fold zero-stuffed input. */
  lemma SampleIsTextbook(f: Filter, x: seq<real>, k: nat)
    requires f.WellFormed()
    ensures Sample(f, x, k) == Textbook(f, x, k)
  {
    TapBlocks(f, x, k, f.T);
    assert f.T * f.L == f.L * f.T;
  }

  // ---- Counting outputs.

  /** The preallocated output length for calls of at most n samples. */
  function OutputRoom(n: nat, L: nat, M: nat): nat
    requires M >= 1
  {
    MulNonNegative(n, L);
    n * L / M + 2
  }

  lemma FirstPhase(f: Filter)
    requires f.WellFormed()
    ensures Phase(f, 0) == 0 && Newest(f, 0) == 0
  {
    assert 0 * f.M == 0;
  }

  /** The exact values the counters take when one more output is computed. */
  lemma AdvancePhase(f: Filter, e: nat)
    requires f.WellFormed()
    ensures Newest(f, e + 1) == Newest(f, e) + (Phase(f, e) + f.M) / f.L
    ensures Phase(f, e + 1) == (Phase(f, e) + f.M) % f.L
  {
    NewestSplits(f, e);
    assert (e + 1) * f.M == e * f.M + f.M;
    CarryOver(e * f.M, f.M, f.L, Newest(f, e), Phase(f, e));
  }

  /** Adding m to q*d + p carries into the quotient. */
  lemma CarryOver(n: nat, m: nat, d: nat, q: nat, p: nat)
    requires d >= 1 && n == q * d + p
    ensures (n + m) / d == q + (p + m) / d && (n + m) % d == (p + m) % d
  {
    var q2, p2 := (p + m) / d, (p + m) % d;
    DivisionIdentity(p + m, d);
    assert (q + q2) * d == q * d + q2 * d;
    DivModUnique(n + m, d, q + q2, p2);
  }

  /** Ceilings are monotone and subadditive. */
  lemma CeilingAdds(M: nat, X: nat, Y: nat, a: nat, b: nat, c: nat)
    requires X <= a * M < X + M
    requires Y <= b * M < Y + M
    requires X + Y <= c * M < X + Y + M
    ensures a <= c <= a + b
  {
    if c < a {
      MulMono(c + 1, a, M);
      assert false;
    }
    if c > a + b {
      MulMono(a + b + 1, c, M);
      assert false;
    }
  }

  /** n more inputs add at most ceil(n*L/M) outputs, and never take any away. */
  lemma CountAdds(f: Filter, P: nat, n: nat)
    requires f.WellFormed()
    ensures Count(f, P) <= Count(f, P + n) <= Count(f, P) + Count(f, n)
  {
    assert (P + n) * f.L == P * f.L + n * f.L;
    MulNonNegative(P, f.L);
    MulNonNegative(n, f.L);
    CountBounds(f, P);
    CountBounds(f, n);
    CountBounds(f, P + n);
    CeilingAdds(f.M, P * f.L, n * f.L, Count(f, P), Count(f, n), Count(f, P + n));
  }

  /** The defining inequalities of the ceiling. */
  lemma CountBounds(f: Filter, P: nat)
    requires f.WellFormed()
    ensures P * f.L <= Count(f, P) * f.M < P * f.L + f.M
  {
    MulNonNegative(P, f.L);
    DivisionIdentity(P * f.L + f.M - 1, f.M);
  }

  /** Below a ceiling of X/M lie exactly the multiples of M below X. */
  lemma BelowCeiling(X: nat, M: nat, c: nat, k: nat)
    requires M >= 1 && X <= c * M < X + M
    ensures k < c <==> k * M < X
  {
    if k < c {
      MulMono(k + 1, c, M);
      assert (k + 1) * M == k * M + M;
    } else {
      MulMono(c, k, M);
    }
  }

  /** q whole runs of L and a part of one more end within P runs exactly when q < P. */
  lemma WithinRuns(q: nat, r: nat, P: nat, L: nat)
    requires r < L
    ensures q * L + r < P * L <==> q < P
  {
    if q < P {
      MulMono(q + 1, P, L);
      assert (q + 1) * L == q * L + L;
    } else {
      MulMono(P, q, L);
    }
  }

  /** An output is counted exactly when its newest input has arrived. */
  lemma CountNewest(f: Filter, P: nat, k: nat)
    requires f.WellFormed()
    ensures k < Count(f, P) <==> Newest(f, k) < P
  {
    CountBounds(f, P);
    MulNonNegative(P, f.L);
    BelowCeiling(P * f.L, f.M, Count(f, P), k);
    NewestSplits(f, k);
    WithinRuns(Newest(f, k), Phase(f, k), P, f.L);
  }

  /** Count is the number of outputs whose newest input has arrived. */
  lemma CountIsLeast(f: Filter, P: nat, e: nat)
    requires f.WellFormed()
    requires P <= Newest(f, e)
    requires e > 0 ==> Newest(f, e - 1) < P
    ensures e == Count(f, P)
  {
    CountNewest(f, P, e);
    if e > 0 {
      CountNewest(f, P, e - 1);
    }
  }

  /** A drained stage given at most room inputs never fills its output buffer. */
  lemma RoomSuffices(f: Filter, P: nat, n: nat, room: nat)
    requires f.WellFormed() && n <= room
    ensures Count(f, P + n) < Count(f, P) + OutputRoom(room, f.L, f.M)
  {
    CountAdds(f, P, n);
    CountAdds(f, n, room - n);
    CountBounds(f, room);
    CeilingBelow(Count(f, room), room * f.L, f.M);
  }

  /** A ceiling is at most one more than the floor. */
  lemma CeilingBelow(e: int, X: int, M: int)
    requires M >= 1 && X <= e * M < X + M
    ensures e <= X / M + 1
  {
    CeilingBelowQuotient(e, X / M, X % M, M);
  }

  lemma CeilingBelowQuotient(e: int, q: int, r: int, M: int)
    requires M >= 1 && 0 <= r < M && e * M < q * M + r + M
    ensures e <= q + 1
  {
    if e > q + 1 {
      MulMono(q + 2, e, M);
    }
  }

  // ---- Streaming: outputs already produced never depend on later input.

  lemma SampleIsCausal(f: Filter, x: seq<real>, y: seq<real>, k: nat)
    requires f.WellFormed() && k < Count(f, |x|)
    ensures Sample(f, x + y, k) == Sample(f, x, k)
  {
    CountNewest(f, |x|, k);
    SumCong(SampleTerm(f, x + y, k), SampleTerm(f, x, k), 0, f.T);
  }

  /** Samples that have had their newest input keep their value. */
  lemma SamplesExtend(f: Filter, x: seq<real>, y: seq<real>, from: nat, to: nat)
    requires f.WellFormed() && from <= to
    requires to > from ==> Newest(f, to - 1) < |x|
    ensures Samples(f, x + y, from, to) == Samples(f, x, from, to)
  {
    forall i | 0 <= i < to - from
      ensures Samples(f, x + y, from, to)[i] == Samples(f, x, from, to)[i]
    {
      CountNewest(f, |x|, to - 1);
      SampleIsCausal(f, x, y, from + i);
    }
  }

  lemma SamplesSnoc(f: Filter, x: seq<real>, from: nat, to: nat)
    requires f.WellFormed() && from <= to
    ensures Samples(f, x, from, to + 1) == Samples(f, x, from, to) + [Sample(f, x, to)]
  {
  }

  /** The stream of a longer input extends the stream of a shorter one. */
  lemma StreamExtends(f: Filter, x: seq<real>, y: seq<real>)
    requires f.WellFormed()
    ensures |Stream(f, x)| <= |Stream(f, x + y)|
    ensures Stream(f, x + y)[..|Stream(f, x)|] == Stream(f, x)
    ensures Stream(f, x + y)[|Stream(f, x)|..] == Samples(f, x + y, Count(f, |x|), Count(f, |x| + |y|))
  {
    CountAdds(f, |x|, |y|);
    forall k: nat | k < Count(f, |x|)
      ensures Stream(f, x + y)[k] == Stream(f, x)[k]
    {
      SampleIsCausal(f, x, y, k);
    }
  }

  /** The samples between two drained moments are what the stream gained in between. */
  lemma SamplesBetweenDrains(f: Filter, x: seq<real>, y: seq<real>, from: nat, to: nat)
    requires f.WellFormed() && from <= to
    requires |x| <= Newest(f, from) && (from > 0 ==> Newest(f, from - 1) < |x|)
    requires |x + y| <= Newest(f, to) && (to > 0 ==> Newest(f, to - 1) < |x + y|)
    ensures |Stream(f, x)| <= |Stream(f, x + y)|
    ensures Samples(f, x + y, from, to) == Stream(f, x + y)[|Stream(f, x)|..]
  {
    CountIsLeast(f, |x|, from);
    CountIsLeast(f, |x + y|, to);
    StreamExtends(f, x, y);
  }

  // ---- The inner product, plain and eight lanes at a time.

  function DotTerm(c: seq<real>, x: seq<real>): int -> real {
    j => At(c, j) * At(x, j)
  }

  function Dot(c: seq<real>, x: seq<real>, n: int): real {
    Sum(DotTerm(c, x), 0, n)
  }

  function LaneTotal(v: seq<real>): real
    requires |v| == 8
  {
    v[0] + v[1] + v[2] + v[3] + v[4] + v[5] + v[6] + v[7]
  }

  /** One vector step: acc[i] + a[i] * b[i] in every lane. */
  function MulAdd(acc: seq<real>, a: seq<real>, b: seq<real>): (r: seq<real>)
    requires |acc| == |a| == |b| == 8
    ensures |r| == 8
  {
    seq(8, i requires 0 <= i < 8 => acc[i] + a[i] * b[i])
  }

  /** A vector step adds eight consecutive terms of the inner product. */
  lemma DotEightMore(c: seq<real>, x: seq<real>, k: nat, acc: seq<real>)
    requires k + 8 <= |c| == |x| && |acc| == 8
    ensures LaneTotal(MulAdd(acc, c[k..k + 8], x[k..k + 8])) - LaneTotal(acc) == Dot(c, x, k + 8) - Dot(c, x, k)
  {
    var f := DotTerm(c, x);
    var after := MulAdd(acc, c[k..k + 8], x[k..k + 8]);
    forall i | 0 <= i < 8
      ensures after[i] == acc[i] + f(k + i)
    {
    }
    assert Sum(f, 0, k + 4) == Sum(f, 0, k) + f(k) + f(k + 1) + f(k + 2) + f(k + 3) by {
      assert Sum(f, 0, k + 2) == Sum(f, 0, k) + f(k) + f(k + 1);
    }
    assert Sum(f, 0, k + 8) == Sum(f, 0, k + 4) + f(k + 4) + f(k + 5) + f(k + 6) + f(k + 7) by {
      assert Sum(f, 0, k + 6) == Sum(f, 0, k + 4) + f(k + 4) + f(k + 5);
    }
  }

  lemma SliceOfSlice(a: array<real>, off: nat, n: nat, k: nat)
    requires off + n <= a.Length && k + 8 <= n
    ensures a[off..off + n][k..k + 8] == a[off + k..off + k + 8]
  {
    var s, t := a[off..off + n][k..k + 8], a[off + k..off + k + 8];
    forall i | 0 <= i < 8
      ensures s[i] == t[i]
    {
    }
  }

  lemma DotOneMore(c: seq<real>, x: seq<real>, k: nat)
    requires k < |c| == |x|
    ensures Dot(c, x, k + 1) == Dot(c, x, k) + c[k] * x[k]
  {
  }

  method DotScalar(c: array<real>, cOff: nat, x: array<real>, xOff: nat, n: nat) returns (r: real)
    requires cOff + n <= c.Length && xOff + n <= x.Length
    ensures r == Dot(c[cOff..cOff + n], x[xOff..xOff + n], n)
  {
    ghost var cs, xs := c[cOff..cOff + n], x[xOff..xOff + n];
    r := 0.0;
    for k := 0 to n
      invariant r == Dot(cs, xs, k)
    {
      DotOneMore(cs, xs, k);
      r := r + c[cOff + k] * x[xOff + k];
    }
  }

  /** The vector path: eight running sums, folded pairwise, then a scalar tail. Over the
      reals the regrouping changes nothing. */
  method DotAvx(c: array<real>, cOff: nat, x: array<real>, xOff: nat, n: nat) returns (r: real)
    requires cOff + n <= c.Length && xOff + n <= x.Length
    ensures r == Dot(c[cOff..cOff + n], x[xOff..xOff + n], n)
  {
    ghost var cs, xs := c[cOff..cOff + n], x[xOff..xOff + n];
    var acc := seq(8, i => 0.0);
    var k := 0;
    while k + 8 <= n
      invariant k <= n && |acc| == 8
      invariant LaneTotal(acc) == Dot(cs, xs, k)
    {
      DotEightMore(cs, xs, k, acc);
      SliceOfSlice(c, cOff, n, k);
      SliceOfSlice(x, xOff, n, k);
      acc := MulAdd(acc, c[cOff + k..cOff + k + 8], x[xOff + k..xOff + k + 8]);
      k := k + 8;
    }
    var v0, v1, v2, v3 := acc[0] + acc[4], acc[1] + acc[5], acc[2] + acc[6], acc[3] + acc[7];
    v0, v1 := v0 + v2, v1 + v3;
    r := v0 + v1;
    while k < n
      invariant k <= n && r == Dot(cs, xs, k)
    {
      DotOneMore(cs, xs, k);
      r := r + c[cOff + k] * x[xOff + k];
      k := k + 1;
    }
  }

  /** Coefficient j of subfilter p, in the flat table and in the prototype. */
  ghost function TableTap(table: seq<real>, T: nat, p: nat, j: nat): real {
    At(table, p * T + j)
  }

  ghost function PrototypeTap(h: seq<real>, L: nat, p: nat, j: nat): real {
    At(h, p + j * L)
  }

  ghost predicate IsPhaseSplit(table: seq<real>, h: seq<real>, L: nat, T: nat) {
    && |table| == L * T
    && forall p: nat, j: nat | p < L && j < T :: TableTap(table, T, p, j) == PrototypeTap(h, L, p, j)
  }

  /** Row-major indices stay inside the table and name each cell once. */
  lemma GridIndex(rows: nat, cols: nat, row: nat, col: nat)
    requires row < rows && col < cols
    ensures 0 <= row * cols + col < rows * cols
  {
    MulNonNegative(row, cols);
    MulMono(row + 1, rows, cols);
  }

  lemma RowInTable(rows: nat, cols: nat, row: nat)
    requires row < rows
    ensures 0 <= row * cols && row * cols + cols <= rows * cols
  {
    MulNonNegative(row, cols);
    MulMono(row + 1, rows, cols);
    assert (row + 1) * cols == row * cols + cols;
  }

  lemma GridIndexInjective(cols: nat, row: nat, col: nat, row': nat, col': nat)
    requires col < cols && col' < cols
    requires row * cols + col == row' * cols + col'
    ensures row == row' && col == col'
  {
    DivModUnique(row * cols + col, cols, row, col);
    DivModUnique(row * cols + col, cols, row', col');
  }

  /** The current row of the table against the newest inputs, newest first, is the sample. */
  lemma DotIsSample(f: Filter, table: seq<real>, row: nat, recent: seq<real>, x: seq<real>, k: nat)
    requires f.WellFormed() && IsPhaseSplit(table, f.h, f.L, f.T)
    requires row == Phase(f, k) * f.T && row + f.T <= |table|
    requires |recent| == f.T && forall j | 0 <= j < f.T :: recent[j] == At(x, Newest(f, k) - j)
    ensures Dot(table[row..row + f.T], recent, f.T) == Sample(f, x, k)
  {
    var c := table[row..row + f.T];
    var p := Phase(f, k);
    forall j | 0 <= j < f.T
      ensures DotTerm(c, recent)(j) == SampleTerm(f, x, k)(j)
    {
      assert TableTap(table, f.T, p, j) == PrototypeTap(f.h, f.L, p, j);
      assert c[j] == table[row + j];
    }
    SumCong(DotTerm(c, recent), SampleTerm(f, x, k), 0, f.T);
  }

  /** A view into somebody's buffer: the first numSamples entries of data. */
  datatype Block = Block(data: array<real>, numSamples: nat)

  class PolyphaseFir {
    const L: nat
    const M: nat
    const tapsPerPhase: nat
    const poly: array<real>    // L * tapsPerPhase coefficients
    const history: array<real> // mirrored ring, 2 * tapsPerPhase
    const output: array<real>
    const useAvx: bool

    var histWrite: nat
    var phase: nat
    var inNeeded: nat
    var pushed: nat

    ghost const filter: Filter
    ghost const maxInput: nat
    ghost var input: seq<real> // every sample pushed since reset
    ghost var emitted: nat     // outputs computed since reset

    ghost function Repr(): set<object> {
      {this, poly, history, output}
    }

    /** Work on other objects leaves a stage as it was. */
    twostate lemma Undisturbed()
      requires old(Valid() && Drained()) && unchanged(this, poly, history)
      ensures Valid() && Drained() && input == old(input)
    {
    }

    /** A drained stage has emitted exactly ceil(inputs * L / M) samples. */
    lemma DrainedCount()
      requires Valid() && Drained()
      ensures emitted == Count(filter, |input|) == |Stream(filter, input)|
    {
      CountIsLeast(filter, |input|, emitted);
    }

    /** What never changes after design: sizes and the phase split of the prototype. */
    ghost predicate Designed()
      reads poly
    {
      && filter.WellFormed()
      && L == filter.L && M == filter.M && tapsPerPhase == filter.T
      && history.Length == 2 * tapsPerPhase
      && output.Length == OutputRoom(maxInput, L, M)
      && poly != history && poly != output && history != output
      && IsPhaseSplit(poly[..], filter.h, L, tapsPerPhase)
    }

    /** The newest tapsPerPhase inputs, newest first, from histWrite on; both halves agree. */
    ghost predicate Mirrored()
      reads this, history
    {
      && history.Length == 2 * tapsPerPhase
      && histWrite < tapsPerPhase
      && (forall i | histWrite <= i < histWrite + tapsPerPhase ::
            history[i] == At(input, |input| - 1 - (i - histWrite)))
      && (forall i | 0 <= i < tapsPerPhase :: history[i] == history[i + tapsPerPhase])
    }

    ghost predicate Valid()
      reads this, poly, history
    {
      && Designed()
      && Mirrored()
      && phase == Phase(filter, emitted)
      && inNeeded == Newest(filter, emitted)
      && pushed == |input|
      && pushed <= inNeeded + 1
      && (emitted > 0 ==> Newest(filter, emitted - 1) < pushed)
    }

    /** Every output the input determines has been computed. */
    ghost predicate Drained()
      reads this
    {
      pushed <= inNeeded
    }

    /** design(). The Kaiser-windowed sinc is a parameter; splitting it into phases is not. */
    constructor (upFactor: nat, downFactor: nat, taps: nat, maxInputSamples: nat, h: seq<real>, avx: bool)
      requires upFactor >= 1 && downFactor >= 1 && taps >= 1 && |h| == upFactor * taps
      ensures Valid() && Drained()
      ensures filter == Filter(upFactor, downFactor, taps, h) && maxInput == maxInputSamples
      ensures input == [] && emitted == 0
      ensures fresh(Repr())
    {
      L, M, tapsPerPhase, useAvx := upFactor, downFactor, taps, avx;
      filter, maxInput := Filter(upFactor, downFactor, taps, h), maxInputSamples;
      MulNonNegative(upFactor, taps);
      poly := new real[upFactor * taps](_ => 0.0);
      history := new real[2 * taps](_ => 0.0);
      output := new real[OutputRoom(maxInputSamples, upFactor, downFactor)](_ => 0.0);
      histWrite, phase, inNeeded, pushed := 0, 0, 0, 0;
      input, emitted := [], 0;
      new;
      FirstPhase(filter);
      SplitPhases(h);
    }

    /** The last loop of buildPrototype: coefficient k of subfilter p is h[p + k*L]. */
    method SplitPhases(h: seq<real>)
      requires L >= 1 && tapsPerPhase >= 1 && |h| == L * tapsPerPhase && poly.Length == L * tapsPerPhase
      modifies poly
      ensures IsPhaseSplit(poly[..], h, L, tapsPerPhase)
    {
      var T := tapsPerPhase;
      for p := 0 to L
        invariant forall q: nat, j: nat | q < p && j < T :: TableTap(poly[..], T, q, j) == PrototypeTap(h, L, q, j)
      {
        for k := 0 to T
          invariant forall q: nat, j: nat | j < T && (q < p || (q == p && j < k)) ::
                      TableTap(poly[..], T, q, j) == PrototypeTap(h, L, q, j)
        {
          GridIndex(L, T, p, k);
          GridIndex(T, L, k, p);
          ghost var before := poly[..];
          poly[p * T + k] := h[p + k * L];
          forall q: nat, j: nat | j < T && (q < p || (q == p && j < k + 1))
            ensures TableTap(poly[..], T, q, j) == PrototypeTap(h, L, q, j)
          {
            if !(q == p && j == k) {
              GridIndex(L, T, q, j);
              if q * T + j == p * T + k {
                GridIndexInjective(T, p, k, q, j);
                assert false;
              }
              assert TableTap(before, T, q, j) == PrototypeTap(h, L, q, j);
            }
          }
        }
      }
    }

    method Reset()
      requires Valid()
      modifies this, history
      ensures Valid() && Drained() && input == [] && emitted == 0
    {
      for i := 0 to history.Length
        invariant forall j | 0 <= j < i :: history[j] == 0.0
        modifies history
      {
        history[i] := 0.0;
      }
      histWrite, phase, inNeeded, pushed := 0, 0, 0, 0;
      input, emitted := [], 0;
      FirstPhase(filter);
    }

    method PushHistory(x: real)
      requires tapsPerPhase >= 1 && Mirrored()
      modifies this`histWrite, this`pushed, this`input, history
      ensures Mirrored()
      ensures input == old(input) + [x] && pushed == old(pushed) + 1
    {
      histWrite := if histWrite == 0 then tapsPerPhase - 1 else histWrite - 1;
      history[histWrite] := x;
      history[histWrite + tapsPerPhase] := x;
      pushed := pushed + 1;
      input := input + [x];
      forall i | histWrite <= i < histWrite + tapsPerPhase
        ensures history[i] == At(input, |input| - 1 - (i - histWrite))
      {
        if i != histWrite {
          var was := if histWrite == tapsPerPhase - 1 then i - tapsPerPhase else i;
          assert history[i] == old(history[was]);
        }
      }
    }

    /** The row of the current phase lies in the table, and against the recent inputs it gives
        the next sample. */
    lemma RowIsNext(row: int)
      requires Valid() && pushed == inNeeded + 1 && row == phase * tapsPerPhase
      ensures 0 <= row && row + tapsPerPhase <= poly.Length
      ensures Dot(poly[row..row + tapsPerPhase], history[histWrite..histWrite + tapsPerPhase], tapsPerPhase)
              == Sample(filter, input, emitted)
    {
      RowInTable(L, tapsPerPhase, phase);
      var table, recent := poly[..], history[histWrite..histWrite + tapsPerPhase];
      assert poly[row..row + tapsPerPhase] == table[row..row + tapsPerPhase];
      forall j | 0 <= j < tapsPerPhase
        ensures recent[j] == At(input, inNeeded - j)
      {
        assert recent[j] == history[histWrite + j];
      }
      DotIsSample(filter, table, row, recent, input, emitted);
    }

    /** The subfilter of the current phase applied to the newest inputs is the next sample. */
    method DotHistory() returns (r: real)
      requires Valid() && pushed == inNeeded + 1
      ensures r == Sample(filter, input, emitted)
    {
      var row := phase * tapsPerPhase;
      RowIsNext(row);
      if useAvx {
        r := DotAvx(poly, row, history, histWrite, tapsPerPhase);
      } else {
        r := DotScalar(poly, row, history, histWrite, tapsPerPhase);
      }
    }

    /** The inner loop: push inputs until the newest one the next output needs is there. */
    method PushUntilReady(data: array<real>, start: nat, n: nat) returns (pos: nat)
      requires Valid() && start <= n <= data.Length && data != history
      modifies this`histWrite, this`pushed, this`input, history
      ensures Valid() && start <= pos <= n
      ensures input == old(input) + data[start..pos]
      ensures Drained() ==> pos == n
    {
      pos := start;
      while pushed <= inNeeded && pos < n
        invariant Valid() && start <= pos <= n
        invariant input == old(input) + data[start..pos]
      {
        PushHistory(data[pos]);
        pos := pos + 1;
      }
    }

    /** One output: the next sample, and the commutator moved on. */
    method Emit(slot: nat)
      requires Valid() && !Drained() && slot < output.Length
      modifies this`phase, this`inNeeded, this`emitted, output
      ensures Valid()
      ensures emitted == old(emitted) + 1
      ensures output[..] == old(output[..])[slot := Sample(filter, input, old(emitted))]
    {
      output[slot] := DotHistory();
      Advance();
    }

    /** The commutator moves on by M of L phases. */
    method Advance()
      requires filter.WellFormed() && L == filter.L && M == filter.M
      requires phase == Phase(filter, emitted) && inNeeded == Newest(filter, emitted)
      modifies this`phase, this`inNeeded, this`emitted
      ensures emitted == old(emitted) + 1
      ensures phase == Phase(filter, emitted) && inNeeded == Newest(filter, emitted) >= old(inNeeded)
    {
      AdvancePhase(filter, emitted);
      emitted := emitted + 1;
      phase := phase + M;
      inNeeded := inNeeded + phase / L;
      phase := phase % L;
    }

    /** One pass of the outer loop: push inputs until an output is ready, then emit it. The
        output holds what was emitted since `first`. */
    method Pull(data: array<real>, start: nat, n: nat, slot: nat, ghost first: nat) returns (pos: nat, ready: bool)
      requires Valid() && start <= n <= data.Length && data !in {history, output}
      requires slot < output.Length && emitted == first + slot
      requires output[..slot] == Samples(filter, input, first, emitted)
      modifies this`histWrite, this`phase, this`inNeeded, this`pushed, this`input, this`emitted, history, output
      ensures Valid() && start <= pos <= n && input == old(input) + data[start..pos]
      ensures emitted == first + slot + if ready then 1 else 0
      ensures output[..emitted - first] == Samples(filter, input, first, emitted)
      ensures !ready ==> Drained() && pos == n
    {
      ghost var before := input;
      pos := PushUntilReady(data, start, n);
      SamplesExtend(filter, before, data[start..pos], first, emitted);
      ready := pushed > inNeeded;
      if ready {
        SamplesSnoc(filter, input, first, emitted);
        Emit(slot);
      }
    }

    /** Push n inputs, pull every output they determine, as room in the output allows.
        The result is the next stretch of the stream of all inputs since reset. A call within
        the announced block size always consumes its whole block. */
    method Process(data: array<real>, n: nat) returns (out: Block)
      requires Valid() && n <= data.Length && data !in {history, output}
      modifies this`histWrite, this`phase, this`inNeeded, this`pushed, this`input, this`emitted, history, output
      ensures Valid()
      ensures out.data == output && out.numSamples <= output.Length
      ensures |old(input)| <= |input| <= |old(input)| + n
      ensures input == old(input) + data[..|input| - |old(input)|]
      ensures emitted == old(emitted) + out.numSamples
      ensures output[..out.numSamples] == Samples(filter, input, old(emitted), emitted)
      ensures out.numSamples < output.Length ==> Drained() && input == old(input) + data[..n]
      ensures old(Drained()) && n <= maxInput ==>
                && Drained() && input == old(input) + data[..n]
                && |Stream(filter, old(input))| <= |Stream(filter, input)|
                && output[..out.numSamples] == Stream(filter, input)[|Stream(filter, old(input))|..]
    {
      var outCount, pos := 0, 0;
      var cap := output.Length;
      while outCount < cap
        invariant Valid() && outCount <= cap && pos <= n
        invariant input == old(input) + data[..pos]
        invariant emitted == old(emitted) + outCount
        invariant output[..outCount] == Samples(filter, input, old(emitted), emitted)
        decreases cap - outCount
      {
        var ready;
        pos, ready := Pull(data, pos, n, outCount, old(emitted));
        if !ready {
          if old(Drained()) {
            SamplesBetweenDrains(filter, old(input), data[..n], old(emitted), emitted);
          }
          return Block(output, outCount);
        }
        outCount := outCount + 1;
      }
      if old(Drained()) && n <= maxInput {
        CountIsLeast(filter, |old(input)|, old(emitted));
        RoomSuffices(filter, |old(input)|, pos, maxInput);
        CountNewest(filter, |input|, emitted - 1);
        assert false;
      }
      return Block(output, outCount);
    }
  }
}
