/** Pitch shift and time stretch over overlap-add (python/data_augment/src/data_augment/psola.py). */
module PsolaShift {
  import opened Basics
  import opened Psola
  import opened Sums

  // ---- Rounding, clipping, removing repeats.

  /** numpy's and Python's round: to the nearest integer, halves to even. */
  function Round(x: real): int {
    var f := x.Floor;
    var d := x - f as real;
    if d < 0.5 || (d == 0.5 && f % 2 == 0) then f else f + 1
  }

  lemma RoundIsNearest(x: real)
    ensures -0.5 <= Round(x) as real - x <= 0.5
    ensures Round(x) as real - x == 0.5 || x - Round(x) as real == 0.5 ==> Round(x) % 2 == 0
  {
  }

  lemma RoundIsMonotone(x: real, y: real)
    requires x <= y
    ensures Round(x) <= Round(y)
  {
  }

  lemma RoundOfInt(n: int)
    ensures Round(n as real) == n
  {
  }

  function Clip(x: int, lo: int, hi: int): int {
    Min(Max(x, lo), hi)
  }

  /** xs[mask] where the mask keeps the first entry and every ascent of arr. */
  function KeepAscents<T>(arr: seq<int>, xs: seq<T>): (kept: seq<T>)
    requires |arr| == |xs|
  {
    var n := |arr| - 1;
    if n <= 0 then xs
    else if arr[n] - arr[n - 1] > 0 then KeepAscents(arr[..n], xs[..n]) + [xs[n]]
    else KeepAscents(arr[..n], xs[..n])
  }

  function DedupeSorted(arr: seq<int>): seq<int> {
    KeepAscents(arr, arr)
  }

  lemma {:induction false} DedupeKeepsValues(arr: seq<int>)
    requires Ascending(arr)
    ensures forall x :: x in DedupeSorted(arr) <==> x in arr
  {
    var n := |arr| - 1;
    if n > 0 {
      DedupeKeepsValues(arr[..n]);
      assert arr == arr[..n] + [arr[n]] && arr[n - 1] in arr[..n];
    }
  }

  /** Of a sorted array it keeps every value, once, in order. */
  lemma {:induction false} DedupeKeepsEachValueOnce(arr: seq<int>)
    requires Ascending(arr)
    ensures Increasing(DedupeSorted(arr))
    ensures forall x :: x in DedupeSorted(arr) <==> x in arr
  {
    DedupeKeepsValues(arr);
    var n := |arr| - 1;
    if n > 0 {
      DedupeKeepsEachValueOnce(arr[..n]);
      var kept := DedupeSorted(arr[..n]);
      forall i | 0 <= i < |kept|
        ensures kept[i] <= arr[n - 1]
      {
        assert kept[i] in kept;
      }
    }
  }

  /** A strictly increasing array is left alone, and so is anything masked along with it. */
  lemma {:induction false} NothingToDedupe<T>(arr: seq<int>, xs: seq<T>)
    requires |arr| == |xs| && Increasing(arr)
    ensures KeepAscents(arr, xs) == xs
  {
    var n := |arr| - 1;
    if n > 0 {
      NothingToDedupe(arr[..n], xs[..n]);
      assert xs == xs[..n] + [xs[n]];
    }
  }

  // ---- Pitch shift.

  function Ceiling(x: real): int {
    if x == x.Floor as real then x.Floor else x.Floor + 1
  }

  /** Linear interpolation between the marks around reference r. */
  function Interpolate(marks: seq<int>, r: real): real
    requires 0.0 <= r && Ceiling(r) < |marks|
  {
    var weight := r - r.Floor as real;
    Mix(marks[r.Floor] as real, marks[Ceiling(r)] as real, weight)
  }

  function Mix(a: real, b: real, w: real): real {
    a * (1.0 - w) + b * w
  }

  lemma MixIsMonotone(a: real, b: real, w: real, v: real)
    requires a <= b && 0.0 <= w <= v <= 1.0
    ensures a <= Mix(a, b, w) <= Mix(a, b, v) <= b
  {
    var d := b - a;
    assert Mix(a, b, w) == a + d * w && Mix(a, b, v) == a + d * v;
    ProductMono(d, w, v);
    ProductMono(d, 0.0, w);
    ProductMono(d, v, 1.0);
  }

  lemma InterpolateIsMonotone(marks: seq<int>, r: real, s: real)
    requires Ascending(marks) && 0.0 <= r <= s && Ceiling(r) < |marks| && Ceiling(s) < |marks|
    ensures Interpolate(marks, r) <= Interpolate(marks, s)
  {
    var i, j := r.Floor, s.Floor;
    var w, v := r - i as real, s - j as real;
    var a, b := marks[i] as real, marks[Ceiling(r)] as real;
    var c, d := marks[j] as real, marks[Ceiling(s)] as real;
    if i == j {
      assert w == 0.0 || b == d;
      assert Interpolate(marks, r) == Mix(a, d, w);
      MixIsMonotone(a, d, w, v);
    } else {
      assert b <= c;
      MixIsMonotone(a, b, w, 1.0);
      MixIsMonotone(c, d, 0.0, v);
    }
  }

  /** linspace(0, n - 1, count)[t]. */
  function Reference(n: nat, count: nat, t: nat): (r: real)
    requires n >= 1 && t < count
    ensures 0.0 <= r <= (n - 1) as real
  {
    if count == 1 then 0.0
    else
      ReferenceInRange(n, count, t);
      t as real * (n - 1) as real / (count - 1) as real
  }

  lemma ReferenceInRange(n: nat, count: nat, t: nat)
    requires n >= 1 && t < count && count >= 2
    ensures 0.0 <= t as real * (n - 1) as real / (count - 1) as real <= (n - 1) as real
  {
    QuotientInRange(t as real, (n - 1) as real, (count - 1) as real);
  }

  lemma QuotientInRange(t: real, a: real, c: real)
    requires 0.0 <= t <= c && a >= 0.0 && c > 0.0
    ensures 0.0 <= t * a / c <= a
  {
    assert 0.0 <= t * a <= c * a;
    DivideAtMost(t * a, a, c);
  }

  lemma DivideAtMost(x: real, a: real, c: real)
    requires 0.0 <= x <= c * a && c > 0.0
    ensures 0.0 <= x / c <= a
  {
    var q := x / c;
    assert q * c == x;
  }

  lemma ReferencesAscend(n: nat, count: nat, t: nat, u: nat)
    requires n >= 1 && t <= u < count
    ensures Reference(n, count, t) <= Reference(n, count, u)
  {
    if count >= 2 {
      var a := (n - 1) as real;
      ProductMono(a, t as real, u as real);
      QuotientMono(t as real * a, u as real * a, (count - 1) as real);
    }
  }

  /** Peak t before rounding: reference t of `count` through the marks. */
  function Position(marks: seq<int>, count: nat, t: nat): real
    requires |marks| >= 1 && t < count
  {
    Interpolate(marks, Reference(|marks|, count, t))
  }

  /** The output peaks of a shift: len(marks) * ratio references through the input marks. */
  function Rounded(marks: seq<int>, count: nat, outLen: nat): seq<int>
    requires |marks| >= 1
  {
    seq(count, t requires 0 <= t < count => Clip(Round(Position(marks, count, t)), 0, outLen - 1))
  }

  function References(marks: seq<int>, ratio: real): nat {
    Max(1, (|marks| as real * ratio).Floor)
  }

  function ShiftedPeaks(marks: seq<int>, ratio: real, outLen: nat): seq<int>
    requires |marks| >= 1
  {
    DedupeSorted(Rounded(marks, References(marks, ratio), outLen))
  }

  lemma RoundedAscends(marks: seq<int>, count: nat, outLen: nat)
    requires |marks| >= 1 && Ascending(marks) && outLen >= 1
    ensures Ascending(Rounded(marks, count, outLen)) && Within(Rounded(marks, count, outLen), outLen)
  {
    forall t, u | 0 <= t < u < count
      ensures Rounded(marks, count, outLen)[t] <= Rounded(marks, count, outLen)[u]
    {
      ReferencesAscend(|marks|, count, t, u);
      InterpolateIsMonotone(marks, Reference(|marks|, count, t), Reference(|marks|, count, u));
      RoundIsMonotone(Position(marks, count, t), Position(marks, count, u));
    }
  }

  /** The number of references: as many as marks times ratio, rounded down, but at least one. */
  lemma ReferenceCount(marks: seq<int>, ratio: real)
    ensures var n := References(marks, ratio) as real;
            if |marks| as real * ratio < 1.0 then n == 1.0
            else n <= |marks| as real * ratio < n + 1.0
  {
  }

  ghost predicate EvenlySpaced(marks: seq<int>, gap: int) {
    forall i | 0 <= i < |marks| :: marks[i] == marks[0] + gap * i
  }

  /** The peaks of evenly spaced marks come out evenly spaced: the stretch of n - 1 gaps is cut
      into count - 1, so a ratio above one packs them closer and one below one spreads them. */
  lemma PositionsAreEven(marks: seq<int>, gap: int, count: nat, t: nat)
    requires |marks| >= 1 && t < count && EvenlySpaced(marks, gap)
    requires count >= 2
    ensures (Position(marks, count, t) - marks[0] as real) * (count - 1) as real ==
            gap as real * t as real * (|marks| - 1) as real
  {
  }

  lemma ReferenceEnds(n: nat, count: nat)
    requires n >= 1 && count >= 1
    ensures Reference(n, count, 0) == 0.0
    ensures count >= 2 ==> Reference(n, count, count - 1) == (n - 1) as real
  {
    if count >= 2 {
      var c, x := (count - 1) as real, (n - 1) as real;
      assert 0.0 * x == 0.0 && 0.0 / c == 0.0;
      assert c * x / c == x;
    }
  }

  /** Whatever the marks, the first and the last peak keep their places. */
  lemma ShiftKeepsTheEnds(marks: seq<int>, count: nat)
    requires |marks| >= 1 && count >= 1
    ensures Position(marks, count, 0) == marks[0] as real
    ensures count >= 2 ==> Position(marks, count, count - 1) == marks[|marks| - 1] as real
  {
    ReferenceEnds(|marks|, count);
    InterpolateAtMark(marks, 0);
    InterpolateAtMark(marks, |marks| - 1);
  }

  function AsReals(s: seq<int>): seq<real> {
    seq(|s|, i requires 0 <= i < |s| => s[i] as real)
  }

  function ShiftJob(marks: seq<int>, ratio: real, n: nat): (job: Job)
    requires |marks| >= 1
    ensures |job.input| > 0 && |job.analysis| == |job.output|
  {
    var peaks := ShiftedPeaks(marks, ratio, n);
    Job(marks, peaks, AsReals(peaks), n, n)
  }

  /** Whatever the ratio, a shift hands the overlap-add strictly increasing peaks in range. */
  lemma ShiftIsSound(marks: seq<int>, ratio: real, n: nat)
    requires |marks| >= 1 && Ascending(marks) && NonNegative(marks) && n >= 1
    ensures ShiftJob(marks, ratio, n).Sound() && ShiftedPeaks(marks, ratio, n) != []
  {
    var rounded := Rounded(marks, References(marks, ratio), n);
    RoundedAscends(marks, References(marks, ratio), n);
    DedupeKeepsEachValueOnce(rounded);
    assert rounded[0] in rounded;
  }

  /** A shift keeps the time: the grain at output peak q comes from the first mark nearest to q. */
  lemma ShiftPlaysTheNearest(marks: seq<int>, ratio: real, n: nat, j: nat)
    requires |marks| >= 1 && j < |ShiftJob(marks, ratio, n).output|
    ensures var g := ShiftJob(marks, ratio, n).GrainAt(j);
            && g.pos == ShiftedPeaks(marks, ratio, n)[j]
            && exists i | 0 <= i < |marks| && marks[i] == g.src ::
                 && (forall k | 0 <= k < |marks| :: Abs((g.src - g.pos) as real) <= Abs((marks[k] - g.pos) as real))
                 && (forall k | 0 <= k < i :: Abs((g.src - g.pos) as real) < Abs((marks[k] - g.pos) as real))
  {
    var q := ShiftedPeaks(marks, ratio, n)[j];
    NearestIsFirst(marks, q as real);
    assert marks[Nearest(marks, q as real)] == ShiftJob(marks, ratio, n).GrainAt(j).src;
  }

  /** Between the marks nothing is clipped. */
  lemma PositionInside(marks: seq<int>, count: nat, t: nat, n: nat)
    requires |marks| >= 1 && Ascending(marks) && Within(marks, n) && t < count
    ensures Clip(Round(Position(marks, count, t)), 0, n - 1) == Round(Position(marks, count, t))
  {
    var r, last := Reference(|marks|, count, t), |marks| - 1;
    assert marks[0] in marks && marks[last] in marks;
    InterpolateIsMonotone(marks, 0.0, r);
    InterpolateIsMonotone(marks, r, last as real);
    InterpolateAtMark(marks, 0);
    InterpolateAtMark(marks, last);
    RoundIsMonotone(marks[0] as real, Position(marks, count, t));
    RoundIsMonotone(Position(marks, count, t), marks[last] as real);
    RoundOfInt(marks[0]);
    RoundOfInt(marks[last]);
  }

  lemma ShiftedValues(marks: seq<int>, ratio: real, n: nat)
    requires |marks| >= 1 && Ascending(marks) && n >= 1
    ensures forall x :: x in ShiftedPeaks(marks, ratio, n) <==> x in Rounded(marks, References(marks, ratio), n)
  {
    RoundedAscends(marks, References(marks, ratio), n);
    DedupeKeepsEachValueOnce(Rounded(marks, References(marks, ratio), n));
  }

  /** Every reference has a peak at the integer nearest to its position ... */
  lemma EveryReferenceHasAPeak(marks: seq<int>, ratio: real, n: nat, t: nat) returns (peak: int)
    requires |marks| >= 1 && Ascending(marks) && Within(marks, n) && t < References(marks, ratio)
    ensures peak in ShiftedPeaks(marks, ratio, n)
    ensures -0.5 <= peak as real - Position(marks, References(marks, ratio), t) <= 0.5
  {
    var count := References(marks, ratio);
    assert marks[0] in marks;
    ShiftedValues(marks, ratio, n);
    peak := Rounded(marks, count, n)[t];
    PositionInside(marks, count, t, n);
    RoundIsNearest(Position(marks, count, t));
  }

  /** ... and every peak belongs to one. */
  lemma EveryPeakIsAReference(marks: seq<int>, ratio: real, n: nat, peak: int) returns (t: nat)
    requires |marks| >= 1 && Ascending(marks) && Within(marks, n) && peak in ShiftedPeaks(marks, ratio, n)
    ensures t < References(marks, ratio)
    ensures -0.5 <= peak as real - Position(marks, References(marks, ratio), t) <= 0.5
  {
    var count := References(marks, ratio);
    assert marks[0] in marks;
    ShiftedValues(marks, ratio, n);
    t :| 0 <= t < count && Rounded(marks, count, n)[t] == peak;
    PositionInside(marks, count, t, n);
    RoundIsNearest(Position(marks, count, t));
  }

  method PsolaShift(signal: seq<real>, marks: seq<int>, ratio: real) returns (output: array<real>)
    requires Ascending(marks) && NonNegative(marks) && (|marks| >= MIN_MARKS ==> signal != [])
    ensures fresh(output) && output.Length == |signal|
    ensures ratio <= 0.0 || |marks| < MIN_MARKS ==> output[..] == signal
    ensures ratio > 0.0 && |marks| >= MIN_MARKS ==>
              forall p | 0 <= p < |signal| ::
                output[p] == OverlapAdd(ShiftJob(marks, ratio, |signal|).Grains(), signal, p)
  {
    if ratio <= 0.0 || |marks| < MIN_MARKS {
      output := new real[|signal|](i requires 0 <= i < |signal| => signal[i]);
      return;
    }
    var peaks := ShiftedPeaks(marks, ratio, |signal|);
    ShiftIsSound(marks, ratio, |signal|);
    output := PlacePeaks(signal, marks, peaks, AsReals(peaks), |signal|);
  }

  // ---- A shift by one.

  lemma ReferenceOfOne(n: nat, t: nat)
    requires n >= 2 && t < n
    ensures Reference(n, n, t) == t as real
  {
    var a := (n - 1) as real;
    assert (t as real * a) / a == t as real;
  }

  lemma InterpolateAtMark(marks: seq<int>, t: nat)
    requires t < |marks|
    ensures Interpolate(marks, t as real) == marks[t] as real
  {
    assert Ceiling(t as real) == t;
  }

  /** At ratio one the new peaks are the marks. */
  lemma ShiftByOneKeepsPeaks(marks: seq<int>, n: nat)
    requires |marks| >= MIN_MARKS && Increasing(marks) && Within(marks, n)
    ensures ShiftedPeaks(marks, 1.0, n) == marks
  {
    assert References(marks, 1.0) == |marks|;
    forall t | 0 <= t < |marks|
      ensures Clip(Round(Position(marks, |marks|, t)), 0, n - 1) == marks[t]
    {
      ReferenceOfOne(|marks|, t);
      InterpolateAtMark(marks, t);
      RoundOfInt(marks[t]);
      assert marks[t] in marks;
    }
    assert Rounded(marks, |marks|, n) == marks;
    NothingToDedupe(marks, marks);
  }

  lemma NearestToMark(marks: seq<int>, t: nat)
    requires t < |marks| && Increasing(marks)
    ensures Nearest(marks, marks[t] as real) == t
  {
    var i := Nearest(marks, marks[t] as real);
    NearestIsFirst(marks, marks[t] as real);
    assert Distance(marks[i], marks[t] as real) <= Distance(marks[t], marks[t] as real);
  }

  function GapBefore(marks: seq<int>, j: nat): int
    requires j < |marks|
  {
    if j == 0 then marks[0] else marks[j] - marks[j - 1]
  }

  function GapAfter(marks: seq<int>, n: nat, j: nat): int
    requires j < |marks|
  {
    if j == |marks| - 1 then n - 1 - marks[j] else marks[j + 1] - marks[j]
  }

  /** At ratio one no grain is moved or clipped. */
  lemma GrainOfShiftByOne(marks: seq<int>, n: nat, j: nat)
    requires Increasing(marks) && Within(marks, n) && j < |marks|
    ensures Job(marks, marks, AsReals(marks), n, n).GrainAt(j) ==
            Grain(marks[j], marks[j], GapBefore(marks, j), GapAfter(marks, n, j))
  {
    NearestToMark(marks, j);
    assert marks[j] in marks;
    if j > 0 {
      assert marks[j - 1] in marks;
    }
    if j + 1 < |marks| {
      assert marks[j + 1] in marks;
    }
  }

  /** A first mark at 0 and a last mark on the last sample lose their grains. That matters
      only to the gap next to them, and not to a first gap of one sample. */
  predicate ClearOfEdges(marks: seq<int>, n: nat, j: nat)
    requires j + 1 < |marks|
  {
    && (j == 0 && marks[0] == 0 ==> marks[1] == 1)
    && (j + 1 == |marks| - 1 ==> marks[j + 1] < n - 1)
  }

  /** The gap after mark j is whole exactly when it borders no dropped grain. */
  lemma GapsOfShiftByOne(marks: seq<int>, n: nat, j: nat)
    requires |marks| >= MIN_MARKS && Increasing(marks) && Within(marks, n) && j + 1 < |marks|
    ensures var job := Job(marks, marks, AsReals(marks), n, n);
            Whole(job.GrainAt(j), job.GrainAt(j + 1)) <==> ClearOfEdges(marks, n, j)
  {
    GrainOfShiftByOne(marks, n, j);
    GrainOfShiftByOne(marks, n, j + 1);
    assert marks[j] in marks && marks[j + 1] in marks;
    assert j > 0 ==> marks[j - 1] < marks[j];
    assert j + 2 < |marks| ==> marks[j + 1] < marks[j + 2];
  }

  lemma UnmovedTerm(g: Grain, signal: seq<real>, p: int)
    requires g.src == g.pos && 0 <= p < |signal|
    ensures Term(g, signal, p) == g.Weight(p) * signal[p]
  {
  }

  lemma TermsOfGap(gs: seq<Grain>, signal: seq<real>, outLen: int, j: nat, p: int)
    requires Tiled(gs, |signal|, outLen) && j + 1 < |gs| && gs[j].pos <= p < gs[j + 1].pos
    ensures OverlapAdd(gs, signal, p) == Term(gs[j], signal, p) + Term(gs[j + 1], signal, p)
  {
    OnlyTwo(gs, |signal|, outLen, p, j, Terms(gs, signal, p));
  }

  /** Two unmoved grains give back their total weight of the sample. */
  lemma UnmovedPair(g: Grain, h: Grain, signal: seq<real>, p: int)
    requires Neighbours(g, h) && g.pos <= p < h.pos && 0 <= p < |signal|
    requires g.src == g.pos && h.src == h.pos
    ensures Whole(g, h) ==> Term(g, signal, p) + Term(h, signal, p) == signal[p]
    ensures !Whole(g, h) && p == g.pos && signal[p] != 0.0 ==> Term(g, signal, p) + Term(h, signal, p) != signal[p]
  {
    PairWeight(g, h, p);
    UnmovedTerm(g, signal, p);
    UnmovedTerm(h, signal, p);
    Shares(g.Weight(p), h.Weight(p), signal[p], Term(g, signal, p), Term(h, signal, p));
  }

  lemma Shares(a: real, b: real, x: real, s: real, t: real)
    requires s == a * x && t == b * x
    ensures a + b == 1.0 ==> s + t == x
    ensures a + b < 1.0 && x != 0.0 ==> s + t != x
  {
    assert (a + b) * x == a * x + b * x;
    ShareOf(a + b, x, s + t);
  }

  lemma ShareOf(w: real, x: real, s: real)
    requires s == w * x
    ensures w == 1.0 ==> s == x
    ensures w < 1.0 && x != 0.0 ==> s != x
  {
    if w < 1.0 && x != 0.0 {
      NonZeroProduct(1.0 - w, x);
      assert (1.0 - w) * x == x - w * x;
    }
  }

  lemma NonZeroProduct(a: real, b: real)
    requires a != 0.0 && b != 0.0
    ensures a * b != 0.0
  {
  }

  lemma UnmovedGap(signal: seq<real>, marks: seq<int>, j: nat, p: int)
    requires |marks| >= MIN_MARKS && Increasing(marks) && Within(marks, |signal|)
    requires j + 1 < |marks| && marks[j] <= p < marks[j + 1]
    ensures 0 <= p < |signal|
    ensures var job := Job(marks, marks, AsReals(marks), |signal|, |signal|);
            var sum := Term(job.GrainAt(j), signal, p) + Term(job.GrainAt(j + 1), signal, p);
            && (ClearOfEdges(marks, |signal|, j) ==> sum == signal[p])
            && (!ClearOfEdges(marks, |signal|, j) && p == marks[j] && signal[p] != 0.0 ==> sum != signal[p])
  {
    var job := Job(marks, marks, AsReals(marks), |signal|, |signal|);
    GapsOfShiftByOne(marks, |signal|, j);
    GrainOfShiftByOne(marks, |signal|, j);
    GrainOfShiftByOne(marks, |signal|, j + 1);
    GrainsAreNeighbours(job, j);
    assert marks[j] in marks && marks[j + 1] in marks;
    UnmovedPair(job.GrainAt(j), job.GrainAt(j + 1), signal, p);
  }

  /** At output sample p of gap j, a shift by one gives the two grains of the gap. */
  lemma ShiftByOneInGap(signal: seq<real>, marks: seq<int>, j: nat, p: int)
    requires |marks| >= MIN_MARKS && Increasing(marks) && Within(marks, |signal|)
    requires j + 1 < |marks| && marks[j] <= p < marks[j + 1]
    ensures var job := Job(marks, marks, AsReals(marks), |signal|, |signal|);
            && ShiftJob(marks, 1.0, |signal|) == job
            && OverlapAdd(job.Grains(), signal, p) ==
               Term(job.GrainAt(j), signal, p) + Term(job.GrainAt(j + 1), signal, p)
  {
    ShiftByOneKeepsPeaks(marks, |signal|);
    JobInGap(Job(marks, marks, AsReals(marks), |signal|, |signal|), signal, j, p);
  }

  lemma JobInGap(job: Job, signal: seq<real>, j: nat, p: int)
    requires job.Sound() && job.sigLen == |signal|
    requires j + 1 < |job.output| && job.output[j] <= p < job.output[j + 1]
    ensures OverlapAdd(job.Grains(), signal, p) == Term(job.GrainAt(j), signal, p) + Term(job.GrainAt(j + 1), signal, p)
  {
    var gs := job.Grains();
    GrainsAreTiled(job);
    assert gs[j] == job.GrainAt(j) && gs[j + 1] == job.GrainAt(j + 1);
    TermsOfGap(gs, signal, job.outLen, j, p);
  }

  /** Shifting by one gives a gap between two marks back, sample for sample, if and only if
      the gap is clear of the edges; unless the signal is silent at its first mark, which the
      weights cannot change. */
  lemma ShiftByOneIsIdentity(signal: seq<real>, marks: seq<int>, j: nat)
    requires |marks| >= MIN_MARKS && Increasing(marks) && Within(marks, |signal|) && j + 1 < |marks|
    ensures 0 <= marks[j] && marks[j + 1] <= |signal|
    ensures ClearOfEdges(marks, |signal|, j) ==>
              forall p | marks[j] <= p < marks[j + 1] ::
                OverlapAdd(ShiftJob(marks, 1.0, |signal|).Grains(), signal, p) == signal[p]
    ensures !ClearOfEdges(marks, |signal|, j) && signal[marks[j]] != 0.0 ==>
              OverlapAdd(ShiftJob(marks, 1.0, |signal|).Grains(), signal, marks[j]) != signal[marks[j]]
  {
    assert marks[j] in marks && marks[j + 1] in marks;
    forall p | marks[j] <= p < marks[j + 1]
      ensures ClearOfEdges(marks, |signal|, j) ==>
                OverlapAdd(ShiftJob(marks, 1.0, |signal|).Grains(), signal, p) == signal[p]
    {
      UnmovedGap(signal, marks, j, p);
      ShiftByOneInGap(signal, marks, j, p);
    }
    UnmovedGap(signal, marks, j, marks[j]);
    ShiftByOneInGap(signal, marks, j, marks[j]);
  }

  lemma {:induction false} MarkGap(marks: seq<int>, p: int, k: nat) returns (j: nat)
    requires k < |marks| && marks[0] <= p < marks[k]
    ensures j < k && marks[j] <= p < marks[j + 1]
  {
    if marks[k - 1] <= p {
      j := k - 1;
    } else {
      j := MarkGap(marks, p, k - 1);
    }
  }

  /** So it gives back everything from the first to the last mark but the gap after a first
      mark at 0 and the gap before a last mark on the last sample. */
  lemma ShiftByOneKeepsTheMiddle(signal: seq<real>, marks: seq<int>, p: int)
    requires |marks| >= MIN_MARKS && Increasing(marks) && Within(marks, |signal|)
    requires marks[0] <= p < marks[|marks| - 1]
    requires marks[0] == 0 ==> marks[1] == 1 || p >= marks[1]
    requires marks[|marks| - 1] == |signal| - 1 ==> p < marks[|marks| - 2]
    ensures 0 <= p < |signal| && OverlapAdd(ShiftJob(marks, 1.0, |signal|).Grains(), signal, p) == signal[p]
  {
    var j := MarkGap(marks, p, |marks| - 1);
    assert marks[|marks| - 1] in marks;
    assert ClearOfEdges(marks, |signal|, j);
    ShiftByOneIsIdentity(signal, marks, j);
  }

  // ---- Time stretch.

  /** The gap after mark i, or before it at the end, but at least the minimum. */
  function LocalPeriod(marks: seq<int>, i: nat): (period: int)
    requires i < |marks|
    ensures period >= MIN_PERIOD
  {
    if i + 1 < |marks| then Max(marks[i + 1] - marks[i], MIN_PERIOD)
    else if i > 0 then Max(marks[i] - marks[i - 1], MIN_PERIOD)
    else FALLBACK_PERIOD
  }

  /** The analysis clock: input time at an output position. */
  function Clock(factor: real): real -> real
    requires factor > 0.0
  {
    x => x / factor
  }

  /** How far the walk moves on from an output position: the input's local period there. */
  function Step(marks: seq<int>, inTime: real): (step: int)
    requires |marks| >= 1
    ensures step >= MIN_PERIOD
  {
    LocalPeriod(marks, Nearest(marks, inTime))
  }

  /** The walk over output time. */
  function Walk(marks: seq<int>, clock: real -> real, outLen: int, pos: int): seq<int>
    requires |marks| >= 1
    decreases outLen - pos
  {
    if pos >= outLen then [] else [pos] + Walk(marks, clock, outLen, pos + Step(marks, clock(pos as real)))
  }

  ghost predicate Spaced(w: seq<int>, start: int, outLen: int) {
    && (forall i | 0 <= i < |w| :: start + MIN_PERIOD * i <= w[i] < outLen)
    && (forall i, j | 0 <= i < j < |w| :: w[i] + MIN_PERIOD * (j - i) <= w[j])
  }

  lemma SpacedAfter(w: seq<int>, start: int, next: int, outLen: int)
    requires Spaced(w, next, outLen) && start < outLen && next >= start + MIN_PERIOD
    ensures Spaced([start] + w, start, outLen)
  {
    var v := [start] + w;
    forall i, j | 0 <= i < j < |v|
      ensures v[i] + MIN_PERIOD * (j - i) <= v[j]
    {
      assert v[j] == w[j - 1];
      assert i > 0 ==> v[i] == w[i - 1];
    }
  }

  /** Steps of at least four, from the first mark to past the end: the walk terminates, and
      its peaks are strictly increasing and in range. */
  lemma {:induction false} WalkIsSpaced(marks: seq<int>, clock: real -> real, outLen: int, pos: int)
    requires |marks| >= 1
    ensures Spaced(Walk(marks, clock, outLen, pos), pos, outLen)
    decreases outLen - pos
  {
    if pos < outLen {
      var next := pos + Step(marks, clock(pos as real));
      WalkIsSpaced(marks, clock, outLen, next);
      SpacedAfter(Walk(marks, clock, outLen, next), pos, next, outLen);
    }
  }

  /** One more step from here passes the end. */
  predicate IsLastStop(marks: seq<int>, clock: real -> real, outLen: int, pos: int)
    requires |marks| >= 1
  {
    pos + Step(marks, clock(pos as real)) >= outLen
  }

  /** It stops only within one step of the end. */
  lemma {:induction false} WalkReachesTheEnd(marks: seq<int>, clock: real -> real, outLen: int, pos: int)
    requires |marks| >= 1 && pos < outLen
    ensures var w := Walk(marks, clock, outLen, pos);
            w != [] && w[0] == pos && IsLastStop(marks, clock, outLen, w[|w| - 1])
    decreases outLen - pos
  {
    var next := pos + Step(marks, clock(pos as real));
    var rest := Walk(marks, clock, outLen, next);
    assert Walk(marks, clock, outLen, pos) == [pos] + rest;
    if next < outLen {
      WalkReachesTheEnd(marks, clock, outLen, next);
      LastOfRest(pos, rest);
    }
  }

  lemma LastOfRest(x: int, s: seq<int>)
    requires s != []
    ensures ([x] + s)[0] == x && ([x] + s)[|s|] == s[|s| - 1]
  {
  }

  lemma WalkOn(marks: seq<int>, clock: real -> real, outLen: int, pos: int, done: seq<int>)
    requires |marks| >= 1 && pos < outLen
    ensures done + Walk(marks, clock, outLen, pos) ==
            (done + [pos]) + Walk(marks, clock, outLen, pos + Step(marks, clock(pos as real)))
  {
  }

  function Analysis(peaks: seq<int>, clock: real -> real): seq<real> {
    seq(|peaks|, i requires 0 <= i < |peaks| => clock(peaks[i] as real))
  }

  function StretchedLength(n: nat, factor: real): nat {
    Max(1, Round(n as real * factor))
  }

  function StretchJob(marks: seq<int>, factor: real, n: nat): (job: Job)
    requires |marks| >= 1 && factor > 0.0
    ensures |job.input| > 0 && |job.analysis| == |job.output|
  {
    var outLen := StretchedLength(n, factor);
    var peaks := Walk(marks, Clock(factor), outLen, marks[0]);
    Job(marks, peaks, Analysis(peaks, Clock(factor)), n, outLen)
  }

  // ---- What a stretch plays where.

  lemma Scaled(a: real, b: real, factor: real)
    requires factor > 0.0 && a <= b
    ensures a * factor <= b * factor
    ensures a < b ==> a * factor < b * factor
  {
  }

  /** The marks' times after the stretch. */
  function StretchedTimes(marks: seq<int>, factor: real): seq<real> {
    seq(|marks|, k requires 0 <= k < |marks| => marks[k] as real * factor)
  }

  /** Time i is the first of those nearest to q. */
  ghost predicate FirstNearest(times: seq<real>, q: int, i: nat)
    requires i < |times|
  {
    && (forall k | 0 <= k < |times| :: Abs(times[i] - q as real) <= Abs(times[k] - q as real))
    && (forall k | 0 <= k < i :: Abs(times[i] - q as real) < Abs(times[k] - q as real))
  }

  /** Distances before and after the stretch, whatever is measured. */
  lemma ScaledDistance(m: int, q: int, factor: real, x: real, time: real)
    requires factor > 0.0 && x * factor == q as real && time == m as real * factor
    ensures Distance(m, x) * factor == Abs(time - q as real)
  {
    assert (m as real - x) * factor == time - q as real;
    ScaledAbs(m as real - x, factor, time - q as real);
  }

  lemma ScaledAbs(d: real, factor: real, e: real)
    requires factor > 0.0 && d * factor == e
    ensures Abs(d) * factor == Abs(e)
  {
    if d < 0.0 {
      ProductPositive(-d, factor);
      assert -d * factor == -e;
    } else {
      ProductNonNegative(d, factor);
    }
  }

  lemma ScaledDistances(m: int, k: int, q: int, factor: real, x: real, mTime: real, kTime: real)
    requires factor > 0.0 && x * factor == q as real
    requires mTime == m as real * factor && kTime == k as real * factor
    requires Distance(m, x) <= Distance(k, x)
    ensures Abs(mTime - q as real) <= Abs(kTime - q as real)
    ensures Distance(m, x) < Distance(k, x) ==> Abs(mTime - q as real) < Abs(kTime - q as real)
  {
    Scaled(Distance(m, x), Distance(k, x), factor);
    ScaledDistance(m, q, factor, x, mTime);
    ScaledDistance(k, q, factor, x, kTime);
  }

  lemma NearestScales(marks: seq<int>, factor: real, q: int, x: real, times: seq<real>)
    requires |marks| >= 1 && factor > 0.0 && x * factor == q as real && times == StretchedTimes(marks, factor)
    ensures FirstNearest(times, q, Nearest(marks, x))
  {
    var i := Nearest(marks, x);
    NearestIsFirst(marks, x);
    forall k | 0 <= k < |times|
      ensures Abs(times[i] - q as real) <= Abs(times[k] - q as real)
      ensures k < i ==> Abs(times[i] - q as real) < Abs(times[k] - q as real)
    {
      ScaledDistances(marks[i], marks[k], q, factor, x, times[i], times[k]);
    }
  }

  lemma NearestIsStretched(marks: seq<int>, factor: real, q: int)
    requires |marks| >= 1 && factor > 0.0
    ensures FirstNearest(StretchedTimes(marks, factor), q, Nearest(marks, q as real / factor))
  {
    NearestScales(marks, factor, q, q as real / factor, StretchedTimes(marks, factor));
  }

  lemma {:induction false} WalkSteps(marks: seq<int>, clock: real -> real, outLen: int, pos: int, j: nat)
    requires |marks| >= 1 && j < |Walk(marks, clock, outLen, pos)|
    ensures var w := Walk(marks, clock, outLen, pos);
            var next := w[j] + Step(marks, clock(w[j] as real));
            && w[0] == pos
            && (if j + 1 < |w| then w[j + 1] == next else next >= outLen)
    decreases outLen - pos
  {
    var w := Walk(marks, clock, outLen, pos);
    var next := pos + Step(marks, clock(pos as real));
    var rest := Walk(marks, clock, outLen, next);
    assert w == [pos] + rest;
    if j > 0 {
      WalkSteps(marks, clock, outLen, next, j - 1);
      assert w[j] == rest[j - 1];
    } else if next < outLen {
      assert rest[0] == next;
    }
  }

  lemma GrainOfStretch(marks: seq<int>, factor: real, n: nat, j: nat, i: nat)
    requires |marks| >= 1 && factor > 0.0 && j < |StretchJob(marks, factor, n).output|
    requires i == Nearest(marks, StretchJob(marks, factor, n).output[j] as real / factor)
    ensures var job := StretchJob(marks, factor, n);
            job.GrainAt(j).pos == job.output[j] && job.GrainAt(j).src == marks[i]
  {
  }

  lemma StepOfStretch(marks: seq<int>, factor: real, n: nat, j: nat, i: nat)
    requires |marks| >= MIN_MARKS && factor > 0.0 && j < |StretchJob(marks, factor, n).output|
    requires i == Nearest(marks, StretchJob(marks, factor, n).output[j] as real / factor)
    ensures var job := StretchJob(marks, factor, n);
            var next := job.output[j] + (if i + 1 < |marks| then Max(4, marks[i + 1] - marks[i])
                                         else Max(4, marks[i] - marks[i - 1]));
            && job.output[0] == marks[0]
            && if j + 1 < |job.output| then job.output[j + 1] == next else next >= job.outLen
  {
    WalkSteps(marks, Clock(factor), StretchedLength(n, factor), marks[0], j);
  }

  /** The grain at output position q comes from the mark nearest to q when all marks are
      stretched, and the next output position lies one gap of the input further on, as that
      mark has it after it (the last one: before it), but no less than four samples. The walk
      starts at the first mark and ends when the next position is past the output. */
  lemma StretchPlaysTheNearest(marks: seq<int>, factor: real, n: nat, j: nat) returns (i: nat)
    requires |marks| >= MIN_MARKS && factor > 0.0 && j < |StretchJob(marks, factor, n).output|
    ensures var job := StretchJob(marks, factor, n);
            var q := job.output[j];
            && i < |marks| && FirstNearest(StretchedTimes(marks, factor), q, i)
            && job.GrainAt(j).pos == q && job.GrainAt(j).src == marks[i]
            && job.output[0] == marks[0]
            && var next := q + (if i + 1 < |marks| then Max(4, marks[i + 1] - marks[i])
                                else Max(4, marks[i] - marks[i - 1]));
               if j + 1 < |job.output| then job.output[j + 1] == next else next >= job.outLen
  {
    var q := StretchJob(marks, factor, n).output[j];
    i := Nearest(marks, q as real / factor);
    NearestIsStretched(marks, factor, q);
    GrainOfStretch(marks, factor, n, j, i);
    StepOfStretch(marks, factor, n, j, i);
  }

  /** The pitch is kept: marks `gap` apart give output peaks `gap` apart, whatever the factor. */
  lemma {:induction false} StretchKeepsPitch(marks: seq<int>, gap: int, factor: real, n: nat, j: nat)
    requires |marks| >= MIN_MARKS && factor > 0.0 && gap >= 4 && EvenlySpaced(marks, gap)
    requires j < |StretchJob(marks, factor, n).output|
    ensures StretchJob(marks, factor, n).output[j] == marks[0] + gap * j
  {
    if j == 0 {
      var _ := StretchPlaysTheNearest(marks, factor, n, j);
    } else {
      StretchKeepsPitch(marks, gap, factor, n, j - 1);
      var i := StretchPlaysTheNearest(marks, factor, n, j - 1);
      GapOfEven(marks, gap, if i + 1 < |marks| then i else i - 1);
      assert gap * j == gap * (j - 1) + gap;
    }
  }

  lemma GapOfEven(marks: seq<int>, gap: int, i: nat)
    requires EvenlySpaced(marks, gap) && i + 1 < |marks|
    ensures marks[i + 1] - marks[i] == gap
  {
    assert gap * (i + 1) == gap * i + gap;
  }

  /** The time nearest to q is within half of the gap q is in. */
  lemma {:induction false} HalfOfGap(times: seq<real>, q: int, i: nat, m: nat) returns (k: nat)
    requires m < |times| && times[0] <= q as real < times[m]
    requires i < |times| && FirstNearest(times, q, i)
    ensures k < m && times[k] <= q as real < times[k + 1]
    ensures 2.0 * Abs(times[i] - q as real) <= times[k + 1] - times[k]
  {
    if times[m - 1] <= q as real {
      k := m - 1;
      assert Abs(times[i] - q as real) <= Abs(times[m - 1] - q as real);
      assert Abs(times[i] - q as real) <= Abs(times[m] - q as real);
    } else {
      k := HalfOfGap(times, q, i, m - 1);
    }
  }

  /** The speed is the factor's: for as long as the stretched marks last, a peak at output
      position q plays a mark whose stretched time is within half of the stretched gap q is in. */
  lemma StretchKeepsTime(marks: seq<int>, factor: real, n: nat, j: nat) returns (i: nat, k: nat)
    requires |marks| >= MIN_MARKS && factor > 0.0 && j < |StretchJob(marks, factor, n).output|
    requires var q := StretchJob(marks, factor, n).output[j] as real;
             var times := StretchedTimes(marks, factor);
             times[0] <= q < times[|marks| - 1]
    ensures var g := StretchJob(marks, factor, n).GrainAt(j);
            var times := StretchedTimes(marks, factor);
            && i < |marks| && g.src == marks[i]
            && k + 1 < |marks| && times[k] <= g.pos as real < times[k + 1]
            && 2.0 * Abs(times[i] - g.pos as real) <= times[k + 1] - times[k]
  {
    i := StretchPlaysTheNearest(marks, factor, n, j);
    k := HalfOfGap(StretchedTimes(marks, factor), StretchJob(marks, factor, n).output[j], i, |marks| - 1);
  }

  /** The output length is a whole number nearest to n * factor, but at least one. */
  lemma StretchedLengthIsNearest(n: nat, factor: real)
    ensures if n as real * factor < 0.5 then StretchedLength(n, factor) == 1
            else -0.5 <= StretchedLength(n, factor) as real - n as real * factor <= 0.5
  {
  }

  lemma StretchIsSound(marks: seq<int>, factor: real, n: nat)
    requires |marks| >= 1 && factor > 0.0 && NonNegative(marks)
    ensures StretchJob(marks, factor, n).Sound()
  {
    assert marks[0] in marks;
    var outLen := StretchedLength(n, factor);
    WalkIsSpaced(marks, Clock(factor), outLen, marks[0]);
    SpacedIsIncreasing(Walk(marks, Clock(factor), outLen, marks[0]), marks[0], outLen);
  }

  lemma SpacedIsIncreasing(w: seq<int>, start: int, outLen: int)
    requires Spaced(w, start, outLen) && start >= 0
    ensures Increasing(w) && Within(w, outLen)
  {
  }

  lemma OneMore(peaks: seq<int>, pos: int, clock: real -> real)
    ensures AsReals(peaks + [pos]) == AsReals(peaks) + [pos as real]
    ensures Analysis(peaks + [pos], clock) == Analysis(peaks, clock) + [clock(pos as real)]
  {
  }

  /** The loop of the walk: positions and analysis times, as the source keeps them, in reals. */
  method WalkOutput(marks: seq<int>, clock: real -> real, outLen: nat)
    returns (outPositions: seq<real>, analysis: seq<real>)
    requires |marks| >= 1
    ensures var w := Walk(marks, clock, outLen, marks[0]);
            outPositions == AsReals(w) && analysis == Analysis(w, clock)
  {
    outPositions, analysis := [], [];
    var outPos := marks[0] as real;
    ghost var pos, done := marks[0], [];
    while outPos < outLen as real
      invariant outPos == pos as real
      invariant Walk(marks, clock, outLen, marks[0]) == done + Walk(marks, clock, outLen, pos)
      invariant outPositions == AsReals(done) && analysis == Analysis(done, clock)
      decreases outLen - pos
    {
      OneMore(done, pos, clock);
      WalkOn(marks, clock, outLen, pos, done);
      var inTime := clock(outPos);
      outPositions := outPositions + [outPos];
      analysis := analysis + [inTime];
      outPos := outPos + Step(marks, inTime) as real;
      done := done + [pos];
      pos := pos + Step(marks, inTime);
    }
  }

  function RoundedPeaks(positions: seq<real>, outLen: nat): seq<int> {
    seq(|positions|, i requires 0 <= i < |positions| => Clip(Round(positions[i]), 0, outLen - 1))
  }

  /** Rounding, clipping and de-duplication all leave a walk as it is. */
  lemma NothingToRound(w: seq<int>, start: int, outLen: nat)
    requires Spaced(w, start, outLen) && start >= 0
    ensures RoundedPeaks(AsReals(w), outLen) == w
    ensures forall xs: seq<real> | |xs| == |w| :: KeepAscents(w, xs) == xs
    ensures DedupeSorted(w) == w
  {
    SpacedIsIncreasing(w, start, outLen);
    forall i | 0 <= i < |w|
      ensures Clip(Round(w[i] as real), 0, outLen - 1) == w[i]
    {
      RoundOfInt(w[i]);
    }
    forall xs: seq<real> | |xs| == |w|
      ensures KeepAscents(w, xs) == xs
    {
      NothingToDedupe(w, xs);
    }
    NothingToDedupe(w, w);
  }

  datatype Result<T> = Ok(value: T) | IndexError

  /** With no output position at all, the mask is one longer than the array it indexes. That is
      so exactly when the first mark lies at or past the end of the output. */
  method PsolaStretch(signal: seq<real>, marks: seq<int>, factor: real) returns (r: Result<array<real>>)
    requires NonNegative(marks)
    ensures factor <= 0.0 || factor == 1.0 ==> r.Ok? && r.value[..] == signal
    ensures factor > 0.0 && factor != 1.0 ==>
              if |marks| < MIN_MARKS
              then r.Ok? && r.value[..] == seq(StretchedLength(|signal|, factor), i => 0.0)
              else r.IndexError? <==> marks[0] >= StretchedLength(|signal|, factor)
    ensures factor > 0.0 && factor != 1.0 && |marks| >= MIN_MARKS && r.Ok? ==>
              && r.value.Length == StretchedLength(|signal|, factor)
              && forall p | 0 <= p < r.value.Length ::
                   r.value[p] == OverlapAdd(StretchJob(marks, factor, |signal|).Grains(), signal, p)
  {
    if factor <= 0.0 || factor == 1.0 {
      var copy := new real[|signal|](i requires 0 <= i < |signal| => signal[i]);
      return Ok(copy);
    }
    var outLen := StretchedLength(|signal|, factor);
    if |marks| < MIN_MARKS {
      var zeros := new real[outLen](_ => 0.0);
      return Ok(zeros);
    }
    var outPositions, analysis := WalkOutput(marks, Clock(factor), outLen);
    var newPeaks := RoundedPeaks(outPositions, outLen);
    if |newPeaks| < 1 {
      return IndexError;
    }
    ghost var job := StretchJob(marks, factor, |signal|);
    StretchIsSound(marks, factor, |signal|);
    assert marks[0] in marks;
    WalkIsSpaced(marks, Clock(factor), outLen, marks[0]);
    NothingToRound(job.output, marks[0], outLen);
    analysis := KeepAscents(newPeaks, analysis);
    newPeaks := KeepAscents(newPeaks, newPeaks);
    var output := PlacePeaks(signal, marks, newPeaks, analysis, outLen);
    return Ok(output);
  }

  /** It happens: ten samples with marks at 5 and 6, stretched to half, leave an output of five
      samples and no position for a peak. */
  lemma StretchCanFail()
    ensures Increasing([5, 6]) && Within([5, 6], 10)
    ensures [5, 6][0] >= StretchedLength(10, 0.5) == 5
    ensures Walk([5, 6], Clock(0.5), StretchedLength(10, 0.5), 5) == []
  {
    assert 10 as real * 0.5 == 5.0;
  }
}
