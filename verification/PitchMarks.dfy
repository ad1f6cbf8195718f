/** Pitch marks (python/data_augment/src/data_augment/pitch_detect.py): the walk that snaps each
    mark to the loudest sample of a window around the expected period, and the even marks it
    falls back to. Pitch estimates are a parameter. */
module PitchMarks {
  import opened Basics
  import opened Psola
  import opened PsolaShift
  import opened Sums

  const MIN_SEED_SAMPLES := 2

  datatype Freq = NaN | Hz(value: real)

  datatype Pitch = Pitch(f0: seq<Freq>, voiced: seq<bool>, hop: nat, sampleRate: real, fallback: real) {
    predicate WellFormed() {
      |f0| >= 1 && |voiced| == |f0| && hop >= 1 && sampleRate > 0.0 && fallback > 0.0
    }

    /** The estimated local period in samples, or the fallback. */
    function PeriodAt(sample: nat): (period: real)
      requires WellFormed()
      ensures period > 0.0
    {
      var frame := Min(sample / hop, |f0| - 1);
      FrameInRange(sample);
      if voiced[frame] && f0[frame].Hz? && f0[frame].value > 0.0 then sampleRate / f0[frame].value else fallback
    }

    lemma FrameInRange(sample: nat)
      requires WellFormed()
      ensures 0 <= Min(sample / hop, |f0| - 1) < |f0|
    {
    }
  }

  lemma FrameAt(sample: nat, hop: nat, frame: nat)
    requires hop >= 1 && frame * hop <= sample
    ensures sample / hop >= frame
    ensures sample < (frame + 1) * hop ==> sample / hop == frame
  {
    var q, r := sample / hop, sample % hop;
    assert sample == q * hop + r;
    if q < frame {
      IntProductMono(hop, q + 1, frame);
    }
    if q > frame {
      IntProductMono(hop, frame + 1, q);
    }
  }

  lemma IntProductMono(c: nat, a: int, b: int)
    requires a <= b
    ensures a * c <= b * c
  {
  }

  /** A sample takes its period from the frame it lies in, one past the frames from the last
      one: the period of a voiced frame's frequency, and the fallback when the frame is unvoiced
      or has no positive frequency. */
  lemma PeriodIsOfTheFrame(pitch: Pitch, sample: nat, frame: nat)
    requires pitch.WellFormed() && frame < |pitch.f0| && frame * pitch.hop <= sample
    requires frame == |pitch.f0| - 1 || sample < (frame + 1) * pitch.hop
    ensures var f := pitch.f0[frame];
            if pitch.voiced[frame] && f.Hz? && f.value > 0.0
            then pitch.PeriodAt(sample) * f.value == pitch.sampleRate
            else pitch.PeriodAt(sample) == pitch.fallback
  {
    FrameAt(sample, pitch.hop, frame);
    if pitch.f0[frame].Hz? && pitch.f0[frame].value > 0.0 {
      QuotientTimes(pitch.sampleRate, pitch.f0[frame].value);
    }
  }

  lemma QuotientTimes(a: real, b: real)
    requires b != 0.0
    ensures a / b * b == a
  {
  }

  /** The window after a mark: from max(1, int(0.9 p)) up to int(1.1 p) samples on. */
  function Low(period: real): int {
    Max(1, (period * 0.9).Floor)
  }

  function High(period: real): int {
    (period * 1.1).Floor
  }

  /** argmax(abs(s)). */
  function Loudest(s: seq<real>): (i: nat)
    requires s != []
    ensures i < |s|
  {
    var n := |s| - 1;
    if n == 0 then 0
    else
      var r := Loudest(s[..n]);
      if Abs(s[r]) < Abs(s[n]) then n else r
  }

  lemma {:induction false} LoudestIsFirst(s: seq<real>)
    requires s != []
    ensures forall k | 0 <= k < |s| :: Abs(s[k]) <= Abs(s[Loudest(s)])
    ensures forall k | 0 <= k < Loudest(s) :: Abs(s[k]) < Abs(s[Loudest(s)])
  {
    var n := |s| - 1;
    if n > 0 {
      LoudestIsFirst(s[..n]);
      assert forall k | 0 <= k < n :: s[..n][k] == s[k];
    }
  }

  /** Where the window after a mark ends. */
  function WindowEnd(signal: seq<real>, prev: nat, period: real): int {
    Min(prev + High(period), |signal|)
  }

  /** The loudest sample of a non-empty window follows. */
  predicate Follows(signal: seq<real>, prev: int, period: real, next: int) {
    && prev >= 0 && prev + Low(period) < WindowEnd(signal, prev, period)
    && next == prev + Low(period) + Loudest(signal[prev + Low(period)..WindowEnd(signal, prev, period)])
  }

  predicate Succeeds(signal: seq<real>, pitch: Pitch, prev: int, next: int)
    requires pitch.WellFormed()
  {
    prev >= 0 && Follows(signal, prev, pitch.PeriodAt(prev), next)
  }

  /** Each mark follows the one before. */
  ghost predicate IsWalk(signal: seq<real>, pitch: Pitch, marks: seq<int>)
    requires pitch.WellFormed()
  {
    && marks != [] && NonNegative(marks)
    && forall i, j | 0 <= i && j == i + 1 < |marks| :: Succeeds(signal, pitch, marks[i], marks[j])
  }

  /** No window is left after this mark. */
  predicate Ends(signal: seq<real>, pitch: Pitch, last: int)
    requires pitch.WellFormed()
  {
    last >= 0 && last + Low(pitch.PeriodAt(last)) >= WindowEnd(signal, last, pitch.PeriodAt(last))
  }

  function FirstEnd(signal: seq<real>, pitch: Pitch): int
    requires pitch.WellFormed()
  {
    Min(High(pitch.PeriodAt(0)), |signal|)
  }

  method PeakAlignedMarks(signal: seq<real>, pitch: Pitch) returns (marks: seq<int>)
    requires pitch.WellFormed()
    ensures FirstEnd(signal, pitch) < 2 ==> marks == FallbackMarks(|signal|, pitch.fallback)
    ensures FirstEnd(signal, pitch) >= 2 ==>
              && IsWalk(signal, pitch, marks)
              && marks[0] == Loudest(signal[..FirstEnd(signal, pitch)])
              && Ends(signal, pitch, marks[|marks| - 1])
  {
    var p0 := pitch.PeriodAt(0);
    var firstEnd := Min(High(p0), |signal|);
    if firstEnd < MIN_SEED_SAMPLES {
      return FallbackMarks(|signal|, pitch.fallback);
    }
    marks := [Loudest(signal[..firstEnd])];
    while true
      invariant IsWalk(signal, pitch, marks) && marks[0] == Loudest(signal[..firstEnd])
      invariant marks[|marks| - 1] < |signal|
      decreases |signal| - marks[|marks| - 1]
    {
      var prev := marks[|marks| - 1];
      assert prev in marks;
      var period := pitch.PeriodAt(prev);
      var low := prev + Low(period);
      var high := WindowEnd(signal, prev, period);
      if low >= high {
        break;
      }
      var next := low + Loudest(signal[low..high]);
      WalkGrows(signal, pitch, marks, next);
      marks := marks + [next];
    }
  }

  lemma WalkGrows(signal: seq<real>, pitch: Pitch, marks: seq<int>, next: int)
    requires pitch.WellFormed() && IsWalk(signal, pitch, marks) && next >= 0
    requires Succeeds(signal, pitch, marks[|marks| - 1], next)
    ensures IsWalk(signal, pitch, marks + [next]) && (marks + [next])[0] == marks[0]
  {
    var grown, n := marks + [next], |marks|;
    forall x | x in grown
      ensures 0 <= x
    {
      assert x in marks || x == next;
    }
    forall i, j | 0 <= i && j == i + 1 < |grown|
      ensures Succeeds(signal, pitch, grown[i], grown[j])
    {
      assert grown[i] == marks[i];
      assert j < n ==> grown[j] == marks[j];
    }
  }

  // ---- Even marks.

  /** len(arange(0, n, step)). */
  function Count(n: int, step: real): (c: nat)
    requires n >= 1 && step > 0.0
  {
    Max(0, Ceiling(n as real / step))
  }

  /** arange's position k. */
  function Positions(step: real): int -> real {
    k => k as real * step
  }

  function EvenMarks(n: int, step: real): seq<int>
    requires n >= 1 && step > 0.0
  {
    seq(Count(n, step), k requires 0 <= k < Count(n, step) => Round(Positions(step)(k)))
  }

  /** unique of the rounded positions, which are sorted already. */
  function FallbackMarks(n: int, step: real): seq<int> {
    if n <= 0 || step <= 0.0 then [] else DedupeSorted(EvenMarks(n, step))
  }

  // ---- Properties of the walk.

  lemma GapOfWalk(signal: seq<real>, pitch: Pitch, marks: seq<int>, i: nat)
    requires pitch.WellFormed() && IsWalk(signal, pitch, marks) && i + 1 < |marks|
    ensures marks[i] >= 0
    ensures Low(pitch.PeriodAt(marks[i])) <= marks[i + 1] - marks[i] < High(pitch.PeriodAt(marks[i]))
    ensures marks[i] < marks[i + 1] < |signal|
  {
    assert marks[i] in marks;
    assert Succeeds(signal, pitch, marks[i], marks[i + 1]);
  }

  /** The marks are strictly increasing and in range, which is what overlap-add asks for. */
  lemma {:induction false} WalkIncreases(signal: seq<real>, pitch: Pitch, marks: seq<int>, i: nat, j: nat)
    requires pitch.WellFormed() && IsWalk(signal, pitch, marks) && marks[0] < |signal| && i <= j < |marks|
    ensures marks[i] + (j - i) <= marks[j] < |signal|
    decreases j
  {
    if j > 0 {
      GapOfWalk(signal, pitch, marks, j - 1);
      if i < j {
        WalkIncreases(signal, pitch, marks, i, j - 1);
      }
    }
  }

  lemma WalkSuitsOverlapAdd(signal: seq<real>, pitch: Pitch, marks: seq<int>)
    requires pitch.WellFormed() && IsWalk(signal, pitch, marks) && marks[0] < |signal|
    ensures Increasing(marks) && Within(marks, |signal|)
  {
    forall i, j | 0 <= i <= j < |marks|
      ensures i < j ==> marks[i] < marks[j]
      ensures marks[j] < |signal|
    {
      WalkIncreases(signal, pitch, marks, i, j);
    }
  }

  /** `distance` samples on lie in the window: 0.9 periods rounded down or more, and less than
      1.1 periods rounded down, but never the mark itself. */
  predicate InWindow(distance: int, period: real) {
    distance >= 1 && distance as real + 1.0 > 0.9 * period && distance as real + 1.0 <= 1.1 * period
  }

  lemma InWindowExactly(distance: int, period: real)
    requires period > 0.0
    ensures InWindow(distance, period) <==> Low(period) <= distance < High(period)
  {
  }

  /** The next mark lies in the window, is at least as loud as every sample there, and is the
      first that loud. */
  lemma NextIsLoudest(signal: seq<real>, prev: int, period: real, next: int, p: int)
    requires period > 0.0 && Follows(signal, prev, period, next)
    requires 0 <= p < |signal| && InWindow(p - prev, period)
    ensures 0 <= next < |signal| && InWindow(next - prev, period)
    ensures Abs(signal[p]) <= Abs(signal[next])
    ensures p < next ==> Abs(signal[p]) < Abs(signal[next])
  {
    InWindowExactly(p - prev, period);
    InWindowExactly(next - prev, period);
    var low := prev + Low(period);
    var window := signal[low..WindowEnd(signal, prev, period)];
    LoudestIsFirst(window);
    assert window[p - low] == signal[p] && window[next - low] == signal[next];
  }

  /** The first mark is the loudest sample of the first 1.1 periods, and the first that loud. */
  lemma SeedIsLoudest(signal: seq<real>, pitch: Pitch, p: int)
    requires pitch.WellFormed() && 0 <= p < |signal| && p as real + 1.0 <= 1.1 * pitch.PeriodAt(0)
    ensures FirstEnd(signal, pitch) > 0
    ensures var seed := Loudest(signal[..FirstEnd(signal, pitch)]);
            && seed < |signal| && seed as real + 1.0 <= 1.1 * pitch.PeriodAt(0)
            && Abs(signal[p]) <= Abs(signal[seed]) && (p < seed ==> Abs(signal[p]) < Abs(signal[seed]))
  {
    var window := signal[..FirstEnd(signal, pitch)];
    assert p < |window| && window[p] == signal[p];
    LoudestIsFirst(window);
  }

  /** A window that the signal does not cut is empty exactly when both factors truncate to the
      same number of samples; that cannot happen from a period of five on. */
  lemma WindowIsEmptyWhen(signal: seq<real>, pitch: Pitch, last: nat)
    requires pitch.WellFormed()
    ensures var p := pitch.PeriodAt(last);
            Ends(signal, pitch, last) <==> last + Low(p) >= |signal| || Low(p) >= High(p)
    ensures pitch.PeriodAt(last) >= 5.0 ==> Low(pitch.PeriodAt(last)) < High(pitch.PeriodAt(last))
  {
  }

  /** Below five it can: at a period of four and a half the walk stops wherever it is, and
      a walk that begins there has no second mark. */
  lemma ShortPeriodsStall(signal: seq<real>, pitch: Pitch, marks: seq<int>, last: nat)
    requires pitch.WellFormed() && pitch.PeriodAt(last) == 4.5
    ensures Ends(signal, pitch, last)
    ensures IsWalk(signal, pitch, marks) && marks[0] == last ==> |marks| == 1
  {
    assert Low(4.5) == 4 == High(4.5);
    assert IsWalk(signal, pitch, marks) && marks[0] == last && |marks| > 1 ==>
        Succeeds(signal, pitch, last, marks[1]);
  }

  /** With periods of at least five the walk stops only where the next window would begin past
      the end of the signal. */
  lemma WalkReachesTheEnd(signal: seq<real>, pitch: Pitch, last: int)
    requires pitch.WellFormed() && Ends(signal, pitch, last)
    requires pitch.PeriodAt(last) >= 5.0
    ensures last + Low(pitch.PeriodAt(last)) >= |signal|
  {
    WindowIsEmptyWhen(signal, pitch, last);
  }

  // ---- Properties of even marks.

  lemma BelowQuotient(k: real, n: real, step: real, x: real)
    requires step > 0.0 && 0.0 <= k < x && x * step == n
    ensures 0.0 <= k * step < n
  {
    ProductBelow(k, x, step);
  }

  lemma ProductBelow(a: real, b: real, c: real)
    requires 0.0 <= a < b && c > 0.0
    ensures 0.0 <= a * c < b * c
  {
    ProductPositive(b - a, c);
    assert (b - a) * c == b * c - a * c;
  }

  lemma PositionBelow(n: int, step: real, k: nat)
    requires n >= 1 && step > 0.0 && k < Count(n, step)
    ensures 0.0 <= Positions(step)(k) < n as real
  {
    BelowQuotient(k as real, n as real, step, n as real / step);
  }

  lemma PositionsAscend(step: real, j: nat, k: nat)
    requires step > 0.0 && j < k
    ensures Positions(step)(j) <= Positions(step)(k)
  {
    ProductBelow(j as real, k as real, step);
  }

  lemma EvenMarksAscend(n: int, step: real)
    requires n >= 1 && step > 0.0
    ensures Ascending(EvenMarks(n, step)) && Within(EvenMarks(n, step), n + 1)
  {
    var even := EvenMarks(n, step);
    forall j, k | 0 <= j < k < |even|
      ensures even[j] <= even[k]
    {
      PositionsAscend(step, j, k);
      RoundIsMonotone(Positions(step)(j), Positions(step)(k));
    }
    forall k | 0 <= k < |even|
      ensures 0 <= even[k] <= n
    {
      PositionBelow(n, step, k);
      RoundIsMonotone(0.0, Positions(step)(k));
      RoundIsMonotone(Positions(step)(k), n as real);
      RoundOfInt(0);
      RoundOfInt(n);
    }
  }

  /** How far the last multiple of step below n falls short of n. */
  function Remainder(n: int, step: real): real
    requires n >= 1 && step > 0.0
  {
    n as real - (Ceiling(n as real / step) - 1) as real * step
  }

  lemma RemainderIsShort(n: int, step: real)
    requires n >= 1 && step > 0.0
    ensures Count(n, step) == Ceiling(n as real / step) >= 1
    ensures 0.0 < Remainder(n, step) <= step
    ensures Remainder(n, step) == n as real - Positions(step)(Count(n, step) - 1)
  {
    var q := n as real / step;
    assert q * step == n as real;
    ProductPositive(n as real, 1.0 / step);
    assert q > 0.0 && Ceiling(q) >= 1;
    PositionBelow(n, step, Count(n, step) - 1);
    var c := Ceiling(q) as real;
    assert q <= c;
    if q < c {
      ProductBelow(q, c, step);
    }
    assert (c - 1.0) * step == c * step - step;
  }

  /** A position short of n rounds to n when it is within a half of it, or exactly a half
      away from an even n. */
  lemma RoundsUpTo(x: real, n: int)
    requires x < n as real
    ensures Round(x) == n <==> n as real - x < 0.5 || (n as real - x == 0.5 && n % 2 == 0)
  {
  }

  /** The even marks ascend without repeats and lie in [0, n]; one past the end is a mark
      exactly when the last multiple of the step below n is within a half of n, or a half away
      from an even n. */
  lemma FallbackMarksInRange(n: int, step: real)
    ensures Increasing(FallbackMarks(n, step)) && Within(FallbackMarks(n, step), n + 1)
    ensures n in FallbackMarks(n, step) <==>
            n >= 1 && step > 0.0 && (Remainder(n, step) < 0.5 || (Remainder(n, step) == 0.5 && n % 2 == 0))
  {
    if n >= 1 && step > 0.0 {
      var even := EvenMarks(n, step);
      EvenMarksAscend(n, step);
      DedupeKeepsEachValueOnce(even);
      LastEvenMark(n, step);
      TopIsLast(even, n);
    }
  }

  lemma LastEvenMark(n: int, step: real)
    requires n >= 1 && step > 0.0
    ensures var even := EvenMarks(n, step);
            even != [] &&
            (even[|even| - 1] == n <==> Remainder(n, step) < 0.5 || (Remainder(n, step) == 0.5 && n % 2 == 0))
  {
    RemainderIsShort(n, step);
    var even, last := EvenMarks(n, step), Count(n, step) - 1;
    LastRounds(even[last], Positions(step)(last), Remainder(n, step), n);
  }

  lemma LastRounds(mark: int, x: real, rest: real, n: int)
    requires mark == Round(x) && rest == n as real - x && rest > 0.0
    ensures mark == n <==> rest < 0.5 || (rest == 0.5 && n % 2 == 0)
  {
    RoundsUpTo(x, n);
  }

  lemma TopIsLast(s: seq<int>, n: int)
    requires s != [] && Ascending(s) && Within(s, n + 1)
    ensures n in s <==> s[|s| - 1] == n
  {
    assert s[|s| - 1] in s;
    if n in s {
      var k :| 0 <= k < |s| && s[k] == n;
      assert s[k] <= s[|s| - 1];
    }
  }

  lemma FallbackValues(n: int, step: real)
    requires n >= 1 && step > 0.0
    ensures forall x :: x in FallbackMarks(n, step) <==> x in EvenMarks(n, step)
  {
    EvenMarksAscend(n, step);
    DedupeKeepsEachValueOnce(EvenMarks(n, step));
  }

  lemma EvenMarkAt(n: int, step: real, k: nat, mark: int)
    requires n >= 1 && step > 0.0 && k < Count(n, step) && mark == EvenMarks(n, step)[k]
    ensures -0.5 <= mark as real - k as real * step <= 0.5
  {
    RoundIsNearest(Positions(step)(k));
  }

  lemma StepIsCounted(n: int, step: real, k: nat)
    requires n >= 1 && step > 0.0
    ensures k < Count(n, step) <==> k as real * step < n as real
  {
    var q := n as real / step;
    assert q * step == n as real;
    if k as real < q {
      ProductBelow(k as real, q, step);
    } else {
      ProductMono(step, q, k as real);
    }
  }

  /** Every multiple of the step below n has a mark within a half of it. */
  lemma EveryStepHasAMark(n: int, step: real, k: nat) returns (mark: int)
    requires n >= 1 && step > 0.0 && k as real * step < n as real
    ensures mark in FallbackMarks(n, step) && -0.5 <= mark as real - k as real * step <= 0.5
  {
    StepIsCounted(n, step, k);
    FallbackValues(n, step);
    var m := EvenMarks(n, step)[k];
    EvenMarkAt(n, step, k, m);
    mark := m;
  }

  /** Every mark is within a half of a multiple of the step below n. */
  lemma EveryMarkIsAStep(n: int, step: real, mark: int) returns (k: nat)
    requires n >= 1 && step > 0.0 && mark in FallbackMarks(n, step)
    ensures k as real * step < n as real && -0.5 <= mark as real - k as real * step <= 0.5
  {
    FallbackValues(n, step);
    k :| 0 <= k < Count(n, step) && EvenMarks(n, step)[k] == mark;
    StepIsCounted(n, step, k);
    EvenMarkAt(n, step, k, mark);
  }

  /** They begin at 0, so a shift by one gives a clip with such marks back from the second
      mark on, up to the last one (or the last but one if that is the last sample). */
  lemma FallbackIsNearIdentity(signal: seq<real>, step: real, p: int)
    requires var marks := FallbackMarks(|signal|, step);
             && |marks| >= MIN_MARKS && |signal| !in marks
             && marks[1] <= p < marks[|marks| - if marks[|marks| - 1] == |signal| - 1 then 2 else 1]
    ensures var marks := FallbackMarks(|signal|, step);
            && marks[0] == 0
            && 0 <= p < |signal| && OverlapAdd(ShiftJob(marks, 1.0, |signal|).Grains(), signal, p) == signal[p]
  {
    var marks, n := FallbackMarks(|signal|, step), |signal|;
    FallbackMarksInRange(n, step);
    FirstIsZero(n, step);
    ShiftByOneKeepsTheMiddle(signal, marks, p);
  }

  lemma FirstIsZero(n: nat, step: real)
    requires FallbackMarks(n, step) != []
    ensures FallbackMarks(n, step)[0] == 0
  {
    var even, marks := EvenMarks(n, step), FallbackMarks(n, step);
    EvenMarksAscend(n, step);
    DedupeKeepsEachValueOnce(even);
    assert marks[0] in even;
    assert even != [] && even[0] == Round(Positions(step)(0)) == 0;
    assert even[0] in marks;
    var k :| 0 <= k < |marks| && marks[k] == 0;
    assert marks[0] in marks && marks[0] >= 0;
  }

  lemma WholeRemainder(n: nat, step: nat)
    requires n >= 1 && step >= 1
    ensures Remainder(n, step as real) >= 1.0
  {
    RemainderIsShort(n, step as real);
    var k := Ceiling(n as real / step as real) - 1;
    RealProduct(k, step);
    assert Remainder(n, step as real) == (n - k * step) as real;
  }

  /** A whole number of samples per step keeps every mark in range. */
  lemma WholeStepsStayInRange(n: nat, step: nat)
    requires step >= 1
    ensures Within(FallbackMarks(n, step as real), n)
  {
    FallbackMarksInRange(n, step as real);
    if n >= 1 {
      WholeRemainder(n, step);
    }
  }

  /** At 44150 samples a second and 442 samples the second mark is past the end. */
  lemma HalfStepsCanPassTheEnd()
    ensures 442 in FallbackMarks(442, 441.5)
  {
    FallbackMarksInRange(442, 441.5);
    assert Ceiling(442.0 / 441.5) == 2 && Remainder(442, 441.5) == 0.5;
  }
}
