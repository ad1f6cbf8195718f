/** Label smoothing (python/nn_model/scripts/makedata.py): labels convolved with a causal kernel,
    chunk by chunk. Samples are reals; files and threads are not part of it. */
module LabelSmoothing {
  import opened Basics
  import opened Sums

  // ---- Convolution.

  function Products(x: seq<real>, kern: seq<real>, t: int): int -> real {
    d => At(kern, d) * At(x, t - d)
  }

  /** Output t of the whole convolution: the kernel reaches back, never forward. */
  function Convolved(x: seq<real>, kern: seq<real>, t: int): real {
    Sum(Products(x, kern, t), 0, |kern|)
  }

  /** convolve(x, kern, mode="full"). */
  function FullConvolution(x: seq<real>, kern: seq<real>): (y: seq<real>)
    requires x != [] && kern != []
  {
    seq(|x| + |kern| - 1, t => Convolved(x, kern, t))
  }

  /** A block that begins a kernel length before t, or at the start, decides output t. */
  lemma BlockDecides(x: seq<real>, kern: seq<real>, start: nat, end: nat, t: nat)
    requires start <= t < end <= |x| && (start == 0 || start <= t - |kern| + 1)
    ensures Convolved(x[start..end], kern, t - start) == Convolved(x, kern, t)
  {
    var block := x[start..end];
    forall d | 0 <= d < |kern|
      ensures Products(block, kern, t - start)(d) == Products(x, kern, t)(d)
    {
      assert At(block, t - start - d) == At(x, t - d);
    }
    SumCong(Products(block, kern, t - start), Products(x, kern, t), 0, |kern|);
  }

  lemma ZeroTerms(x: seq<real>, kern: seq<real>, t: int, at: nat, lo: int, hi: int)
    requires at < |x| && forall i | 0 <= i < |x| && i != at :: x[i] == 0.0
    requires t - at < lo || hi <= t - at
    ensures Sum(Products(x, kern, t), lo, hi) == 0.0
  {
    forall d | lo <= d < hi
      ensures Products(x, kern, t)(d) == 0.0
    {
      assert At(x, t - d) == 0.0;
    }
    SumZero(Products(x, kern, t), lo, hi);
  }

  /** One label alone draws the kernel, first coefficient first, from its own time on. */
  lemma ImpulseDrawsKernel(x: seq<real>, kern: seq<real>, t: int, at: nat)
    requires at < |x| && forall i | 0 <= i < |x| && i != at :: x[i] == 0.0
    ensures Convolved(x, kern, t) == if 0 <= t - at < |kern| then kern[t - at] * x[at] else 0.0
  {
    var f, d := Products(x, kern, t), t - at;
    if 0 <= d < |kern| {
      SumSplit(f, 0, d, |kern|);
      SumSplit(f, d, d + 1, |kern|);
      ZeroTerms(x, kern, t, at, 0, d);
      ZeroTerms(x, kern, t, at, d + 1, |kern|);
      assert f(d) == kern[d] * x[at];
      assert Sum(f, d, d + 1) == Sum(f, d, d) + f(d);
    } else {
      ZeroTerms(x, kern, t, at, 0, |kern|);
    }
  }

  // ---- Chunks.

  datatype Chunk = Chunk(start: int, end: int)

  /** (s, min(n, s + size)) for s in range(from, n, size). */
  function Chunks(first: int, n: int, size: int): seq<Chunk>
    requires size >= 1
    decreases n - first
  {
    if first >= n then [] else [Chunk(first, Min(n, first + size))] + Chunks(first + size, n, size)
  }

  /** The chunks are non-empty, each begins where the last one ended, and together they are
      exactly [first, n): every row is written once. */
  lemma {:induction false} ChunksPartition(first: int, n: int, size: int)
    requires size >= 1 && first < n
    ensures var cs := Chunks(first, n, size);
            && cs != [] && cs[0].start == first && cs[|cs| - 1].end == n
            && (forall c | c in cs :: c.start < c.end <= c.start + size && c.end <= n)
            && forall i, j | 0 <= i && j == i + 1 < |cs| :: cs[j].start == cs[i].end
    decreases n - first
  {
    if first + size < n {
      ChunksPartition(first + size, n, size);
    } else {
      assert Chunks(first + size, n, size) == [];
    }
  }

  // ---- The loop over chunks.

  ghost predicate Rectangular(rows: seq<seq<real>>, width: nat) {
    forall i | 0 <= i < |rows| :: |rows[i]| == width
  }

  function Column(rows: seq<seq<real>>, width: nat, ch: nat): (x: seq<real>)
    requires Rectangular(rows, width) && ch < width
    ensures |x| == |rows|
  {
    seq(|rows|, i requires 0 <= i < |rows| => rows[i][ch])
  }

  lemma ColumnOfBlock(rows: seq<seq<real>>, width: nat, ch: nat, start: nat, end: nat)
    requires Rectangular(rows, width) && ch < width && start <= end <= |rows|
    ensures Rectangular(rows[start..end], width)
    ensures Column(rows[start..end], width, ch) == Column(rows, width, ch)[start..end]
  {
  }

  /** One channel of one chunk: fetch a kernel length more on both sides, convolve, keep the
      chunk's part. */
  function ConvChannel(rows: seq<seq<real>>, width: nat, kern: seq<real>, c: Chunk, ch: nat): (y: seq<real>)
    requires Rectangular(rows, width) && ch < width && kern != [] && 0 <= c.start < c.end <= |rows|
    ensures |y| == c.end - c.start
  {
    var overlap := |kern| - 1;
    var fetchStart := if c.start - overlap > 0 then c.start - overlap else 0;
    var fetchEnd := Min(|rows|, c.end + overlap);
    var col := Column(rows[fetchStart..fetchEnd], width, ch);
    var startIdx := c.start - fetchStart;
    FullConvolution(col, kern)[startIdx..startIdx + (c.end - c.start)]
  }

  lemma ConvChannelAt(rows: seq<seq<real>>, width: nat, kern: seq<real>, c: Chunk, ch: nat, i: nat)
    requires Rectangular(rows, width) && ch < width && kern != [] && 0 <= c.start < c.end <= |rows|
    requires i < c.end - c.start
    ensures ConvChannel(rows, width, kern, c, ch)[i] == Convolved(Column(rows, width, ch), kern, c.start + i)
  {
    var overlap := |kern| - 1;
    var fetchStart := if c.start - overlap > 0 then c.start - overlap else 0;
    var fetchEnd := Min(|rows|, c.end + overlap);
    ColumnOfBlock(rows, width, ch, fetchStart, fetchEnd);
    var col, startIdx := Column(rows, width, ch), c.start - fetchStart;
    var full := FullConvolution(col[fetchStart..fetchEnd], kern);
    assert ConvChannel(rows, width, kern, c, ch) == full[startIdx..startIdx + (c.end - c.start)];
    assert full[startIdx + i] == Convolved(col[fetchStart..fetchEnd], kern, startIdx + i);
    BlockDecides(col, kern, fetchStart, fetchEnd, c.start + i);
  }

  /** Every row before `done` is finished. */
  ghost predicate Finished(out: array2<real>, rows: seq<seq<real>>, width: nat, kern: seq<real>, done: nat)
    requires Rectangular(rows, width) && out.Length0 == |rows| && out.Length1 == width && done <= |rows|
    reads out
  {
    forall t, ch | 0 <= t < done && 0 <= ch < width :: out[t, ch] == Convolved(Column(rows, width, ch), kern, t)
  }

  method ProcessChunk(out: array2<real>, rows: seq<seq<real>>, width: nat, kern: seq<real>, c: Chunk)
    requires Rectangular(rows, width) && out.Length0 == |rows| && out.Length1 == width
    requires kern != [] && 0 <= c.start < c.end <= |rows| && Finished(out, rows, width, kern, c.start)
    modifies out
    ensures Finished(out, rows, width, kern, c.end)
    ensures forall t, h | (0 <= t < c.start || c.end <= t < |rows|) && 0 <= h < width :: out[t, h] == old(out[t, h])
  {
    for ch := 0 to width
      invariant Finished(out, rows, width, kern, c.start)
      invariant forall t, h | (0 <= t < c.start || c.end <= t < |rows|) && 0 <= h < width :: out[t, h] == old(out[t, h])
      invariant forall t, h | c.start <= t < c.end && 0 <= h < ch ::
                  out[t, h] == Convolved(Column(rows, width, h), kern, t)
    {
      var y := ConvChannel(rows, width, kern, c, ch);
      for i := 0 to |y|
        invariant Finished(out, rows, width, kern, c.start)
        invariant forall t, h | (0 <= t < c.start || c.end <= t < |rows|) && 0 <= h < width ::
                    out[t, h] == old(out[t, h])
        invariant forall t, h | c.start <= t < c.end && 0 <= h < ch ::
                    out[t, h] == Convolved(Column(rows, width, h), kern, t)
        invariant forall t | c.start <= t < c.start + i :: out[t, ch] == Convolved(Column(rows, width, ch), kern, t)
      {
        ConvChannelAt(rows, width, kern, c, ch, i);
        out[c.start + i, ch] := y[i];
      }
    }
  }

  /** Chunked smoothing is the whole convolution, cut to the length of the input, for every
      chunk size and kernel length. */
  method Smooth(rows: seq<seq<real>>, width: nat, kern: seq<real>, chunkSize: int) returns (out: array2<real>)
    requires Rectangular(rows, width) && kern != [] && chunkSize >= 1
    ensures fresh(out) && out.Length0 == |rows| && out.Length1 == width
    ensures forall t, ch | 0 <= t < |rows| && 0 <= ch < width ::
              out[t, ch] == Convolved(Column(rows, width, ch), kern, t)
  {
    out := new real[|rows|, width]((i, j) => 0.0);
    var chunks := Chunks(0, |rows|, chunkSize);
    if |rows| > 0 {
      ChunksPartition(0, |rows|, chunkSize);
    }
    ghost var done := 0;
    for i := 0 to |chunks|
      invariant done == (if i == 0 then 0 else chunks[i - 1].end) && 0 <= done <= |rows|
      invariant i < |chunks| ==> chunks[i].start == done
      invariant Finished(out, rows, width, kern, done)
    {
      assert chunks[i] in chunks;
      ProcessChunk(out, rows, width, kern, chunks[i]);
      done := chunks[i].end;
    }
  }

  // ---- The kernel.

  /** numpy's linspace(a, b, n)[i]. */
  function Linspace(a: real, b: real, n: nat, i: nat): real
    requires i < n
  {
    if n == 1 then a else a + i as real * ((b - a) / (n - 1) as real)
  }

  /** Coefficient i before normalisation: a rising front, then a part built falling and
      reversed. Every coefficient lies in [0, 1], and the front ends at exactly 1. */
  function Raw(front: nat, rear: nat, i: nat): (coefficient: real)
    requires front >= 1 && rear >= 1 && i < front + rear
    ensures 0.0 <= coefficient <= 1.0
    ensures i == front - 1 ==> coefficient == 1.0
  {
    Reciprocal(front);
    PeakIsOne(front);
    if i < front then
      LinspaceBetween(1.0 / front as real, 1.0, front, i, 0.0, 1.0);
      Linspace(1.0 / front as real, 1.0, front, i)
    else
      RearInRange(rear, rear - 1 - (i - front));
      var peak := Linspace(1.0 / front as real, 1.0, front, front - 1);
      Linspace(peak * (rear - 1) as real / rear as real, 1.0 / rear as real, rear, rear - 1 - (i - front))
  }

  lemma LinspaceBetween(a: real, b: real, n: nat, i: nat, lo: real, hi: real)
    requires i < n && lo <= a <= hi && lo <= b <= hi
    ensures lo <= Linspace(a, b, n, i) <= hi
    ensures i == 0 ==> Linspace(a, b, n, i) == a
    ensures n >= 2 && i == n - 1 ==> Linspace(a, b, n, i) == b
  {
    if n >= 2 {
      var m := (n - 1) as real;
      Interpolated(a, b - a, i as real / m, lo, hi);
      StepTimes(i as real, b - a, m);
    }
  }

  lemma StepTimes(i: real, d: real, m: real)
    requires m > 0.0
    ensures i * (d / m) == (i / m) * d
    ensures i == m ==> i / m == 1.0
  {
    var p, q := d / m, i / m;
    assert p * m == d && q * m == i;
    assert i * p == (q * m) * p == q * (p * m);
  }

  lemma Interpolated(a: real, d: real, w: real, lo: real, hi: real)
    requires 0.0 <= w <= 1.0 && lo <= a <= hi && lo <= a + d <= hi
    ensures lo <= a + w * d <= hi
  {
    var p, q := w * d, (1.0 - w) * d;
    assert p + q == d;
    SignOfProduct(w, d);
    SignOfProduct(1.0 - w, d);
  }

  lemma SignOfProduct(w: real, d: real)
    requires w >= 0.0
    ensures d >= 0.0 ==> w * d >= 0.0
    ensures d <= 0.0 ==> w * d <= 0.0
  {
  }

  lemma RearInRange(rear: nat, k: nat)
    requires k < rear
    ensures 0.0 <= Linspace((rear - 1) as real / rear as real, 1.0 / rear as real, rear, k) <= 1.0
  {
    Reciprocal(rear);
    LinspaceBetween((rear - 1) as real / rear as real, 1.0 / rear as real, rear, k, 0.0, 1.0);
  }

  lemma PeakIsOne(front: nat)
    requires front >= 1
    ensures Linspace(1.0 / front as real, 1.0, front, front - 1) == 1.0
  {
    Reciprocal(front);
    LinspaceBetween(1.0 / front as real, 1.0, front, front - 1, 0.0, 1.0);
  }

  lemma Reciprocal(n: nat)
    requires n >= 1
    ensures 0.0 < 1.0 / n as real <= 1.0
    ensures 0.0 <= (n - 1) as real / n as real <= 1.0
    ensures n == 1 ==> 1.0 / n as real == 1.0
    ensures n >= 3 ==> 1.0 / n as real < (n - 1) as real / n as real
    ensures n == 2 ==> 1.0 / n as real == (n - 1) as real / n as real
  {
  }

  // ---- Normalised kernel.

  function Raws(front: nat, rear: nat): int -> real
    requires front >= 1 && rear >= 1
  {
    i => if 0 <= i < front + rear then Raw(front, rear, i) else 0.0
  }

  lemma RawSumPositive(front: nat, rear: nat)
    requires front >= 1 && rear >= 1
    ensures Sum(Raws(front, rear), 0, front + rear) >= 1.0
  {
    var f := Raws(front, rear);
    assert f(front - 1) == 1.0;
    SumSplit(f, 0, front - 1, front + rear);
    SumSplit(f, front - 1, front, front + rear);
    SumNonNegative(f, 0, front - 1);
    SumNonNegative(f, front, front + rear);
    assert Sum(f, front - 1, front) == Sum(f, front - 1, front - 1) + f(front - 1);
  }

  function Total(front: nat, rear: nat): (total: real)
    requires front >= 1 && rear >= 1
    ensures total >= 1.0
  {
    RawSumPositive(front, rear);
    Sum(Raws(front, rear), 0, front + rear)
  }

  /** triangular_kernel: the coefficients over their sum. */
  function Kernel(front: nat, rear: nat): (kern: seq<real>)
    requires front >= 1 && rear >= 1
    ensures |kern| == front + rear
  {
    seq(front + rear, i requires 0 <= i < front + rear => Raw(front, rear, i) / Total(front, rear))
  }

  function Coefficients(kern: seq<real>): int -> real {
    d => At(kern, d)
  }

  ghost predicate IsWeighting(kern: seq<real>) {
    (forall d | 0 <= d < |kern| :: kern[d] >= 0.0) && Sum(Coefficients(kern), 0, |kern|) == 1.0
  }

  lemma Share(x: real, total: real)
    requires x >= 0.0 && total >= 1.0
    ensures x / total >= 0.0 && x / total == (1.0 / total) * x && (1.0 / total) * total == 1.0
  {
    var q := 1.0 / total;
    assert q * total == 1.0;
    assert (q * x) * total == x;
  }

  /** Coefficients over their sum are weights. */
  lemma SharesAreWeights(kern: seq<real>, f: int -> real, total: real)
    requires total >= 1.0 && total == Sum(f, 0, |kern|)
    requires forall d | 0 <= d < |kern| :: f(d) >= 0.0 && kern[d] == f(d) / total
    ensures IsWeighting(kern)
  {
    var c := 1.0 / total;
    forall d | 0 <= d < |kern|
      ensures kern[d] >= 0.0 && Coefficients(kern)(d) == c * f(d)
    {
      Share(f(d), total);
    }
    SumScale(c, f, Coefficients(kern), 0, |kern|);
    Share(total, total);
  }

  /** Its coefficients are weights: non-negative, with sum one. */
  lemma KernelIsWeighting(front: nat, rear: nat)
    requires front >= 1 && rear >= 1
    ensures IsWeighting(Kernel(front, rear))
  {
    SharesAreWeights(Kernel(front, rear), Raws(front, rear), Total(front, rear));
  }

  lemma ProductBounded(x: seq<real>, kern: seq<real>, t: int, d: nat)
    requires d < |kern| && kern[d] >= 0.0 && forall v | v in x :: 0.0 <= v <= 1.0
    ensures 0.0 <= Products(x, kern, t)(d) <= Coefficients(kern)(d)
  {
    var a, b := At(kern, d), At(x, t - d);
    assert 0 <= t - d < |x| ==> x[t - d] in x;
    Bounded(a, b);
    assert Products(x, kern, t)(d) == a * b && Coefficients(kern)(d) == a;
  }

  lemma Bounded(a: real, b: real)
    requires a >= 0.0 && 0.0 <= b <= 1.0
    ensures 0.0 <= a * b <= a
  {
  }

  /** Smoothing is a weighted mean, so labels between 0 and 1 give scores between 0 and 1. */
  lemma ScoresInUnitRange(x: seq<real>, kern: seq<real>, t: int)
    requires IsWeighting(kern) && forall v | v in x :: 0.0 <= v <= 1.0
    ensures 0.0 <= Convolved(x, kern, t) <= 1.0
  {
    var f, g := Products(x, kern, t), Coefficients(kern);
    forall d | 0 <= d < |kern|
      ensures 0.0 <= f(d) <= g(d)
    {
      ProductBounded(x, kern, t, d);
    }
    SumNonNegative(f, 0, |kern|);
    SumMono(f, g, 0, |kern|);
  }

  /** A label that has stood at v for a kernel length is a score of exactly v. */
  lemma SteadyLabelIsKept(x: seq<real>, kern: seq<real>, t: int, v: real)
    requires IsWeighting(kern) && |kern| - 1 <= t < |x|
    requires forall i | t - |kern| < i <= t :: x[i] == v
    ensures Convolved(x, kern, t) == v
  {
    var f, g := Products(x, kern, t), Coefficients(kern);
    forall d | 0 <= d < |kern|
      ensures f(d) == v * g(d)
    {
      assert At(x, t - d) == v;
    }
    SumScale(v, g, f, 0, |kern|);
  }

  // ---- Shape.

  /** The rear part rises, stays or falls from one coefficient to the next as rear - 2 is
      positive, zero or negative. */
  lemma RearStep(front: nat, rear: nat, i: nat)
    requires front >= 1 && rear >= 2 && front <= i && i + 1 < front + rear
    ensures Raw(front, rear, i + 1) - Raw(front, rear, i) ==
            (rear - 2) as real / (rear as real * (rear - 1) as real)
  {
    PeakIsOne(front);
  }

  /** The front part rises in equal steps to its end. */
  lemma FrontRises(front: nat, rear: nat, i: nat)
    requires front >= 1 && rear >= 1 && i < front
    ensures Raw(front, rear, i) * front as real == (i + 1) as real
  {
  }

  /** The rear part begins at 1/rear, and one sample long it is 0. */
  lemma RearBegins(front: nat, rear: nat)
    requires front >= 1 && rear >= 1
    ensures Raw(front, rear, front) == if rear == 1 then 0.0 else 1.0 / rear as real
  {
  }

  lemma KernelOrder(front: nat, rear: nat, i: nat)
    requires front >= 1 && rear >= 1 && i + 1 < front + rear
    ensures Kernel(front, rear)[i + 1] <= Kernel(front, rear)[i] <==> Raw(front, rear, i + 1) <= Raw(front, rear, i)
  {
    ScaleOrder(Raw(front, rear, i + 1), Raw(front, rear, i), Total(front, rear));
  }

  lemma ScaleOrder(a: real, b: real, c: real)
    requires c >= 1.0
    ensures a / c <= b / c <==> a <= b
  {
    var p, q := a / c, b / c;
    assert p * c == a && q * c == b;
  }

  /** After its peak the kernel falls, as a triangle does, only for a rear part of at most two
      samples; a longer one rises again from 1/rear to (rear - 1)/rear. */
  lemma FallsAfterPeakExactly(front: nat, rear: nat)
    requires front >= 1 && rear >= 1
    ensures rear <= 2 <==>
            forall i | front - 1 <= i && i + 1 < front + rear :: Kernel(front, rear)[i + 1] <= Kernel(front, rear)[i]
  {
    forall i | front - 1 <= i && i + 1 < front + rear
      ensures Kernel(front, rear)[i + 1] <= Kernel(front, rear)[i] <==> i == front - 1 || rear <= 2
    {
      KernelOrder(front, rear, i);
      if i == front - 1 {
        assert Raw(front, rear, i + 1) <= 1.0 == Raw(front, rear, i);
      } else {
        RearStep(front, rear, i);
        SignOfStep(rear);
      }
    }
    if rear >= 3 {
      assert front + 1 < front + rear;
      assert !(Kernel(front, rear)[front + 1] <= Kernel(front, rear)[front]);
    }
  }

  lemma SignOfStep(rear: nat)
    requires rear >= 2
    ensures (rear - 2) as real / (rear as real * (rear - 1) as real) <= 0.0 <==> rear == 2
  {
  }
}
