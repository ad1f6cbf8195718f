/** Pitch-synchronous overlap-add (python/data_augment/src/data_augment/psola.py): grains cut
    around input peaks, windowed by triangles and added at the new peaks. Samples are reals. */
module Psola {
  import opened Basics
  import opened Sums

  const MIN_MARKS := 2
  const FALLBACK_PERIOD := 256
  const MIN_PERIOD := 4

  ghost predicate Increasing(s: seq<int>) {
    forall i, j | 0 <= i < j < |s| :: s[i] < s[j]
  }

  ghost predicate Ascending(s: seq<int>) {
    forall i, j | 0 <= i < j < |s| :: s[i] <= s[j]
  }

  ghost predicate NonNegative(s: seq<int>) {
    forall x | x in s :: 0 <= x
  }

  ghost predicate Within(s: seq<int>, n: int) {
    forall x | x in s :: 0 <= x < n
  }

  // ---- Grains.

  /** A grain added at `pos`, cut around `src`: `left` samples before and `right` from it on. */
  datatype Grain = Grain(pos: int, src: int, left: int, right: int) {
    predicate Placed() {
      left >= 1 && right >= 1
    }

    predicate Covers(p: int) {
      Placed() && pos - left <= p < pos + right
    }

    function Weight(p: int): real {
      if Covers(p) then Window(left, right, p - (pos - left)) else 0.0
    }
  }

  /** Sample t of a window: linspace(0, 1, left + 1)[1:], then linspace(1, 0, right + 1)[1:]. */
  function Window(left: int, right: int, t: int): real
    requires left >= 1 && right >= 1
  {
    if t < left then Quotient(t + 1, left) else 1.0 - Quotient(t - left + 1, right)
  }

  /** Whatever is placed lies in signal and output. */
  predicate Fits(g: Grain, sigLen: int, outLen: int) {
    && 0 <= g.pos < outLen
    && g.left <= g.pos && g.right <= outLen - 1 - g.pos
    && g.left <= g.src && g.right <= sigLen - 1 - g.src
  }

  /** Neither reaches past the other's peak. */
  predicate Neighbours(g: Grain, h: Grain) {
    g.pos < h.pos && g.right <= h.pos - g.pos && h.left <= h.pos - g.pos
  }

  ghost predicate Tiled(gs: seq<Grain>, sigLen: int, outLen: int) {
    && (forall i | 0 <= i < |gs| :: Fits(gs[i], sigLen, outLen))
    && (forall i, j | 0 <= i && j == i + 1 < |gs| :: Neighbours(gs[i], gs[j]))
  }

  lemma {:induction false} PositionsIncrease(gs: seq<Grain>, sigLen: int, outLen: int, i: nat, j: nat)
    requires Tiled(gs, sigLen, outLen) && i <= j < |gs|
    ensures gs[i].pos + (j - i) <= gs[j].pos
    decreases j
  {
    if i < j {
      PositionsIncrease(gs, sigLen, outLen, i, j - 1);
      assert Neighbours(gs[j - 1], gs[j]);
    }
  }

  /** Output sample p lies from peak j up to the next one; before the first peak j is -1. */
  ghost predicate InGap(gs: seq<Grain>, p: int, j: int) {
    -1 <= j < |gs| && (j >= 0 ==> gs[j].pos <= p) && (j + 1 < |gs| ==> p < gs[j + 1].pos)
  }

  lemma {:induction false} GapOf(gs: seq<Grain>, p: int, k: nat) returns (j: int)
    requires k <= |gs| && (k < |gs| ==> p < gs[k].pos)
    ensures InGap(gs, p, j)
  {
    if k == 0 || gs[k - 1].pos <= p {
      j := k - 1;
    } else {
      j := GapOf(gs, p, k - 1);
    }
  }

  lemma CoveredByNeighbours(gs: seq<Grain>, sigLen: int, outLen: int, p: int, j: int, i: nat)
    requires Tiled(gs, sigLen, outLen) && InGap(gs, p, j) && i < |gs| && gs[i].Covers(p)
    ensures i == j || i == j + 1
  {
    if i < j {
      PositionsIncrease(gs, sigLen, outLen, i + 1, j);
    } else if i > j + 1 {
      PositionsIncrease(gs, sigLen, outLen, j + 1, i - 1);
    }
  }

  lemma TwoTerms(f: int -> real, n: nat, j: int)
    requires -1 <= j < n && f(-1) == 0.0 && f(n) == 0.0
    requires forall i | 0 <= i < n && i != j && i != j + 1 :: f(i) == 0.0
    ensures Sum(f, 0, n) == f(j) + f(j + 1)
  {
    if j == -1 && n > 0 {
      SumSingle(f, 0, n, 0);
    } else if j >= 0 && j + 1 == n {
      SumSingle(f, 0, n, j);
    } else if j >= 0 {
      SumSplit(f, 0, j + 1, n);
      SumSingle(f, 0, j + 1, j);
      SumSingle(f, j + 1, n, j + 1);
    }
  }

  /** At any output sample only the two grains around it contribute. */
  lemma OnlyTwo(gs: seq<Grain>, sigLen: int, outLen: int, p: int, j: int, f: int -> real)
    requires Tiled(gs, sigLen, outLen) && InGap(gs, p, j)
    requires forall i | 0 <= i < |gs| && !gs[i].Covers(p) :: f(i) == 0.0
    requires f(-1) == 0.0 && f(|gs|) == 0.0
    ensures Sum(f, 0, |gs|) == f(j) + f(j + 1)
  {
    forall i | 0 <= i < |gs| && i != j && i != j + 1
      ensures f(i) == 0.0
    {
      if gs[i].Covers(p) {
        CoveredByNeighbours(gs, sigLen, outLen, p, j, i);
      }
    }
    TwoTerms(f, |gs|, j);
  }

  // ---- Weights.

  function Quotient(a: int, b: int): real
    requires b >= 1
  {
    a as real / b as real
  }

  lemma QuotientFalls(a: int, b: int, c: int)
    requires 0 <= a && 1 <= b <= c
    ensures Quotient(a, b) >= Quotient(a, c)
    ensures 1 <= a && b < c ==> Quotient(a, b) > Quotient(a, c)
  {
  }

  lemma QuotientAdds(a: int, b: int, c: int)
    requires c >= 1
    ensures Quotient(a, c) + Quotient(b, c) == Quotient(a + b, c)
  {
  }

  lemma QuotientUnit(a: int, c: int)
    requires 0 <= a <= c && c >= 1
    ensures 0.0 <= Quotient(a, c) <= 1.0
    ensures Quotient(c, c) == 1.0
  {
  }

  /** The falling half of a grain against the full ramp over the gap of d after it. */
  lemma FallingHalf(g: Grain, p: int, d: int)
    requires g.right <= d && g.pos <= p < g.pos + d
    ensures 0.0 <= g.Weight(p) <= 1.0 - Quotient(p - g.pos + 1, d)
    ensures g.Placed() && g.right == d ==> g.Weight(p) == 1.0 - Quotient(p - g.pos + 1, d)
    ensures p + 1 < g.pos + d && !(g.Placed() && g.right == d) ==> g.Weight(p) < 1.0 - Quotient(p - g.pos + 1, d)
  {
    var k := p - g.pos + 1;
    QuotientUnit(k, d);
    QuotientFalls(k, d, d);
    if g.Covers(p) {
      QuotientUnit(k, g.right);
      QuotientFalls(k, g.right, d);
    } else if k < d {
      QuotientBelow(k, d);
    }
  }

  lemma QuotientBelow(a: int, c: int)
    requires 0 <= a < c
    ensures Quotient(a, c) < 1.0
  {
  }

  /** On its rising half a window is one less the distance to its top. */
  lemma RisingWeight(g: Grain, p: int)
    requires g.Covers(p) && p < g.pos
    ensures g.Weight(p) == 1.0 - Quotient(g.pos - 1 - p, g.left)
  {
    QuotientAdds(p - (g.pos - g.left) + 1, g.pos - 1 - p, g.left);
    QuotientUnit(g.left, g.left);
  }

  /** The weights of every grain at output sample p. */
  function Weights(gs: seq<Grain>, p: int): int -> real {
    i => if 0 <= i < |gs| then gs[i].Weight(p) else 0.0
  }

  function TotalWeight(gs: seq<Grain>, p: int): real {
    Sum(Weights(gs, p), 0, |gs|)
  }

  /** The gap between two peaks is covered by two whole ramps. */
  predicate Whole(g: Grain, h: Grain) {
    var d := h.pos - g.pos;
    h.Placed() && h.left == d && (d == 1 || (g.Placed() && g.right == d))
  }

  lemma WeightUnit(g: Grain, p: int)
    ensures 0.0 <= g.Weight(p) <= 1.0
  {
    if g.Covers(p) {
      if p < g.pos {
        QuotientUnit(p - (g.pos - g.left) + 1, g.left);
      } else {
        QuotientUnit(p - g.pos + 1, g.right);
      }
    }
  }

  /** The falling ramp after g and the rising one before h, against the two full ramps. */
  lemma PairWeight(g: Grain, h: Grain, p: int)
    requires g.pos <= p < h.pos && Neighbours(g, h)
    ensures 0.0 <= g.Weight(p) && 0.0 <= h.Weight(p) && g.Weight(p) + h.Weight(p) <= 1.0
    ensures Whole(g, h) ==> g.Weight(p) + h.Weight(p) == 1.0
    ensures !Whole(g, h) && p == g.pos ==> g.Weight(p) + h.Weight(p) < 1.0
  {
    var d, m := h.pos - g.pos, h.pos - 1 - p;
    FallingHalf(g, p, d);
    WeightUnit(h, p);
    QuotientUnit(m, d);
    QuotientBelow(m, d);
    if h.Covers(p) {
      RisingWeight(h, p);
      QuotientFalls(m, h.left, d);
    }
    QuotientAdds(p - g.pos + 1, m, d);
    QuotientUnit(d, d);
  }

  /** Between two neighbouring peaks the windows add up to exactly one if and only if neither
      ramp there was shortened or dropped. */
  lemma WindowsSumToOne(gs: seq<Grain>, sigLen: int, outLen: int, j: nat)
    requires Tiled(gs, sigLen, outLen) && j + 1 < |gs|
    ensures Whole(gs[j], gs[j + 1]) <==> forall p | gs[j].pos <= p < gs[j + 1].pos :: TotalWeight(gs, p) == 1.0
  {
    forall p | gs[j].pos <= p < gs[j + 1].pos
      ensures TotalWeight(gs, p) == gs[j].Weight(p) + gs[j + 1].Weight(p)
      ensures Whole(gs[j], gs[j + 1]) ==> TotalWeight(gs, p) == 1.0
      ensures !Whole(gs[j], gs[j + 1]) && p == gs[j].pos ==> TotalWeight(gs, p) < 1.0
    {
      OnlyTwo(gs, sigLen, outLen, p, j, Weights(gs, p));
      PairWeight(gs[j], gs[j + 1], p);
    }
    ghost var first := gs[j].pos;
    assert first < gs[j + 1].pos;
    assert !Whole(gs[j], gs[j + 1]) ==> TotalWeight(gs, first) < 1.0;
  }

  /** The window reaches one on the sample before the peak, and nowhere else. */
  lemma WindowPeaksOneEarly(g: Grain, p: int)
    requires g.Placed()
    ensures g.Weight(p) == 1.0 <==> p == g.pos - 1
  {
    QuotientUnit(g.left, g.left);
    if g.Covers(p) && p < g.pos - 1 {
      QuotientBelow(p - (g.pos - g.left) + 1, g.left);
    } else if g.Covers(p) && p >= g.pos {
      QuotientPositive(p - g.pos + 1, g.right);
    }
  }

  lemma QuotientPositive(a: int, c: int)
    requires a >= 1 && c >= 1
    ensures Quotient(a, c) > 0.0
  {
  }

  /** Clipped or not, the windows never add up to more than one, and at most two overlap. */
  lemma WindowsAreConvex(gs: seq<Grain>, sigLen: int, outLen: int, p: int) returns (j: int)
    requires Tiled(gs, sigLen, outLen)
    ensures InGap(gs, p, j) && forall i | 0 <= i < |gs| && gs[i].Covers(p) :: i == j || i == j + 1
    ensures TotalWeight(gs, p) == Weights(gs, p)(j) + Weights(gs, p)(j + 1)
    ensures 0.0 <= Weights(gs, p)(j) && 0.0 <= Weights(gs, p)(j + 1) && TotalWeight(gs, p) <= 1.0
  {
    j := GapOf(gs, p, |gs|);
    OnlyTwo(gs, sigLen, outLen, p, j, Weights(gs, p));
    forall i | 0 <= i < |gs| && gs[i].Covers(p)
      ensures i == j || i == j + 1
    {
      CoveredByNeighbours(gs, sigLen, outLen, p, j, i);
    }
    if 0 <= j {
      WeightUnit(gs[j], p);
    }
    if j + 1 < |gs| {
      WeightUnit(gs[j + 1], p);
    }
    if 0 <= j && j + 1 < |gs| {
      PairWeight(gs[j], gs[j + 1], p);
    }
  }

  // ---- The overlap-add.

  /** What a grain adds to output sample p. */
  function Term(g: Grain, signal: seq<real>, p: int): real {
    if g.Covers(p) && 0 <= g.src - g.pos + p < |signal| then g.Weight(p) * signal[g.src - g.pos + p] else 0.0
  }

  function Terms(gs: seq<Grain>, signal: seq<real>, p: int): int -> real {
    i => if 0 <= i < |gs| then Term(gs[i], signal, p) else 0.0
  }

  function OverlapAdd(gs: seq<Grain>, signal: seq<real>, p: int): real {
    Sum(Terms(gs, signal, p), 0, |gs|)
  }

  lemma Scaled(w: real, x: real, m: real)
    requires w >= 0.0 && -m <= x <= m
    ensures -(w * m) <= w * x <= w * m
  {
  }

  /** Term i is at most its weight times m in size. */
  ghost predicate Dominated(f: int -> real, w: int -> real, m: real, i: int) {
    -(w(i) * m) <= f(i) <= w(i) * m
  }

  lemma ConvexPair(f: int -> real, w: int -> real, m: real, j: int)
    requires w(j) + w(j + 1) <= 1.0 && m >= 0.0 && Dominated(f, w, m, j) && Dominated(f, w, m, j + 1)
    ensures -m <= f(j) + f(j + 1) <= m
  {
    PairBound(f(j), f(j + 1), w(j), w(j + 1), m);
  }

  lemma SharesAtMostWhole(a: real, b: real, m: real)
    requires a + b <= 1.0 && m >= 0.0
    ensures a * m + b * m <= m
  {
    ghost var c := 1.0 - a - b;
    ProductNonNegative(c, m);
    assert a * m + b * m + c * m == (a + b + c) * m;
  }

  lemma PairBound(x: real, y: real, a: real, b: real, m: real)
    requires a + b <= 1.0 && m >= 0.0 && -(a * m) <= x <= a * m && -(b * m) <= y <= b * m
    ensures -m <= x + y <= m
  {
    SharesAtMostWhole(a, b, m);
  }

  lemma ConvexSum(f: int -> real, w: int -> real, m: real, j: int, n: nat)
    requires w(j) + w(j + 1) <= 1.0 && m >= 0.0 && forall i :: Dominated(f, w, m, i)
    requires Sum(f, 0, n) == f(j) + f(j + 1)
    ensures -m <= Sum(f, 0, n) <= m
  {
    ConvexPair(f, w, m, j);
  }

  /** The output never exceeds the peak of the signal. */
  lemma OutputIsBounded(gs: seq<Grain>, signal: seq<real>, outLen: int, p: int, m: real)
    requires Tiled(gs, |signal|, outLen) && m >= 0.0
    requires forall x | x in signal :: -m <= x <= m
    ensures -m <= OverlapAdd(gs, signal, p) <= m
  {
    var j := WindowsAreConvex(gs, |signal|, outLen, p);
    var f, w := Terms(gs, signal, p), Weights(gs, p);
    OnlyTwo(gs, |signal|, outLen, p, j, f);
    forall i
      ensures Dominated(f, w, m, i)
    {
      TermIsScaled(gs, signal, p, m, i);
    }
    ConvexSum(f, w, m, j, |gs|);
  }

  lemma TermIsScaled(gs: seq<Grain>, signal: seq<real>, p: int, m: real, i: int)
    requires m >= 0.0 && forall x | x in signal :: -m <= x <= m
    ensures Dominated(Terms(gs, signal, p), Weights(gs, p), m, i)
  {
    var w := Weights(gs, p)(i);
    if 0 <= i < |gs| {
      WeightUnit(gs[i], p);
    }
    Scaled(w, 0.0, m);
    if 0 <= i < |gs| && gs[i].Covers(p) && 0 <= gs[i].src - gs[i].pos + p < |signal| {
      assert signal[gs[i].src - gs[i].pos + p] in signal;
      Scaled(w, signal[gs[i].src - gs[i].pos + p], m);
    }
  }

  function Distance(a: int, x: real): real {
    if a as real < x then x - a as real else a as real - x
  }

  /** argmin(abs(peaks - x)). */
  function Nearest(peaks: seq<int>, x: real): (i: nat)
    requires |peaks| > 0
    ensures i < |peaks|
  {
    var n := |peaks| - 1;
    if n == 0 then 0
    else
      var r := Nearest(peaks[..n], x);
      if Distance(peaks[n], x) < Distance(peaks[r], x) then n else r
  }

  /** It is the first of the nearest peaks. */
  lemma {:induction false} NearestIsFirst(peaks: seq<int>, x: real)
    requires |peaks| > 0
    ensures forall k | 0 <= k < |peaks| :: Distance(peaks[Nearest(peaks, x)], x) <= Distance(peaks[k], x)
    ensures forall k | 0 <= k < Nearest(peaks, x) :: Distance(peaks[Nearest(peaks, x)], x) < Distance(peaks[k], x)
  {
    var n := |peaks| - 1;
    if n > 0 {
      NearestIsFirst(peaks[..n], x);
      assert forall k | 0 <= k < n :: peaks[..n][k] == peaks[k];
    }
  }

  /** The peaks of one overlap-add. */
  datatype Job = Job(input: seq<int>, output: seq<int>, analysis: seq<real>, sigLen: nat, outLen: nat) {
    ghost predicate Sound() {
      && |input| > 0 && |analysis| == |output|
      && NonNegative(input) && Within(output, outLen) && Increasing(output)
    }

    /** The grain of new peak j: as far as its neighbours, and as far as the signal reaches. */
    function GrainAt(j: nat): Grain
      requires |input| > 0 && |analysis| == |output| && j < |output|
    {
      var pos, src := output[j], input[Nearest(input, analysis[j])];
      var left := if j == 0 then pos else pos - output[j - 1];
      var right := if j == |output| - 1 then outLen - 1 - pos else output[j + 1] - pos;
      Grain(pos, src, Min(left, src), Min(right, sigLen - 1 - src))
    }

    function Grains(): seq<Grain>
      requires |input| > 0 && |analysis| == |output|
    {
      seq(|output|, j requires 0 <= j < |output| => GrainAt(j))
    }
  }

  lemma GrainFits(job: Job, j: nat)
    requires job.Sound() && j < |job.output|
    ensures Fits(job.GrainAt(j), job.sigLen, job.outLen)
  {
    assert job.output[j] in job.output && job.input[Nearest(job.input, job.analysis[j])] in job.input;
    if j > 0 {
      assert job.output[j - 1] in job.output;
    }
    if j + 1 < |job.output| {
      assert job.output[j + 1] in job.output;
    }
  }

  /** For strictly increasing in-range peaks both slices of every placed grain stay in bounds. */
  lemma SlicesInBounds(job: Job, j: nat)
    requires job.Sound() && j < |job.output| && job.GrainAt(j).Placed()
    ensures var g := job.GrainAt(j);
            && 0 <= g.src - g.left && g.src + g.right < job.sigLen
            && 0 <= g.pos - g.left && g.pos + g.right < job.outLen
  {
    GrainFits(job, j);
  }

  lemma GrainsAreTiled(job: Job)
    requires job.Sound()
    ensures Tiled(job.Grains(), job.sigLen, job.outLen)
  {
    var gs := job.Grains();
    forall i | 0 <= i < |gs|
      ensures Fits(gs[i], job.sigLen, job.outLen)
    {
      GrainFits(job, i);
    }
    forall i, j | 0 <= i && j == i + 1 < |gs|
      ensures Neighbours(gs[i], gs[j])
    {
      GrainsAreNeighbours(job, i);
    }
  }

  lemma GrainsAreNeighbours(job: Job, i: nat)
    requires job.Sound() && i + 1 < |job.output|
    ensures Neighbours(job.GrainAt(i), job.GrainAt(i + 1))
  {
  }

  lemma TermInWindow(g: Grain, signal: seq<real>, t: nat)
    requires g.Placed() && 0 <= g.src - g.left && g.src + g.right <= |signal| && t < g.left + g.right
    ensures Term(g, signal, g.pos - g.left + t) ==
            Window(g.left, g.right, t) * signal[g.src - g.left..g.src + g.right][t]
  {
  }

  /** output[start:start+n] += window[:n] * grain[:n] for one placed grain. */
  method AddGrain(output: array<real>, g: Grain, signal: seq<real>)
    requires g.Placed() && 0 <= g.src - g.left && g.src + g.right <= |signal|
    requires 0 <= g.pos - g.left && g.pos + g.right <= output.Length
    modifies output
    ensures forall p | 0 <= p < output.Length :: output[p] == old(output[p]) + Term(g, signal, p)
  {
    var start, grain := g.pos - g.left, signal[g.src - g.left..g.src + g.right];
    for t := 0 to g.left + g.right
      invariant forall p | start <= p < start + t :: output[p] == old(output[p]) + Term(g, signal, p)
      invariant forall p | 0 <= p < output.Length && !(start <= p < start + t) :: output[p] == old(output[p])
    {
      TermInWindow(g, signal, t);
      output[start + t] := output[start + t] + Window(g.left, g.right, t) * grain[t];
    }
  }

  /** The first k grains are in the output. */
  ghost predicate Added(output: seq<real>, gs: seq<Grain>, signal: seq<real>, k: nat) {
    forall p | 0 <= p < |output| :: output[p] == Sum(Terms(gs, signal, p), 0, k)
  }

  method PlacePeak(output: array<real>, g: Grain, signal: seq<real>, ghost gs: seq<Grain>, ghost j: nat)
    requires j < |gs| && g == gs[j] && Fits(g, |signal|, output.Length) && Added(output[..], gs, signal, j)
    modifies output
    ensures Added(output[..], gs, signal, j + 1)
  {
    ghost var before := output[..];
    if g.left < 1 || g.right < 1 {
      AddedNext(before, before, gs, signal, j);
      return;
    }
    AddGrain(output, g, signal);
    AddedNext(before, output[..], gs, signal, j);
  }

  lemma AddedNext(before: seq<real>, after: seq<real>, gs: seq<Grain>, signal: seq<real>, j: nat)
    requires j < |gs| && |after| == |before| && Fits(gs[j], |signal|, |before|) && Added(before, gs, signal, j)
    requires forall p | 0 <= p < |before| :: after[p] == before[p] + Term(gs[j], signal, p)
    ensures Added(after, gs, signal, j + 1)
  {
    forall p | 0 <= p < |after|
      ensures after[p] == Sum(Terms(gs, signal, p), 0, j + 1)
    {
      assert Sum(Terms(gs, signal, p), 0, j + 1) == Sum(Terms(gs, signal, p), 0, j) + Term(gs[j], signal, p);
    }
  }

  lemma Finished(output: seq<real>, gs: seq<Grain>, signal: seq<real>)
    requires Added(output, gs, signal, |gs|)
    ensures forall p | 0 <= p < |output| :: output[p] == OverlapAdd(gs, signal, p)
  {
  }

  method PlacePeaks(signal: seq<real>, inputPeaks: seq<int>, newPeaks: seq<int>, analysis: seq<real>, outLen: nat)
    returns (output: array<real>)
    requires Job(inputPeaks, newPeaks, analysis, |signal|, outLen).Sound()
    ensures fresh(output) && output.Length == outLen
    ensures forall p | 0 <= p < outLen ::
              output[p] == OverlapAdd(Job(inputPeaks, newPeaks, analysis, |signal|, outLen).Grains(), signal, p)
  {
    var job := Job(inputPeaks, newPeaks, analysis, |signal|, outLen);
    ghost var gs := job.Grains();
    output := new real[outLen](_ => 0.0);
    for j := 0 to |newPeaks|
      invariant Added(output[..], gs, signal, j)
    {
      var grain := job.GrainAt(j);
      assert gs[j] == grain;
      GrainFits(job, j);
      PlacePeak(output, grain, signal, gs, j);
    }
    Finished(output[..], gs, signal);
  }

  /** Overlap-add never exceeds the peak of the signal, wherever the peaks lie. */
  lemma NeverLouder(job: Job, signal: seq<real>, p: int, m: real)
    requires job.Sound() && job.sigLen == |signal| && m >= 0.0
    requires forall x | x in signal :: -m <= x <= m
    ensures -m <= OverlapAdd(job.Grains(), signal, p) <= m
  {
    GrainsAreTiled(job);
    OutputIsBounded(job.Grains(), signal, job.outLen, p, m);
  }
}
