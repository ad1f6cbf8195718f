/** Score filtering and hysteresis (cpp_impl/src/linkjiru/GatingLogic.hpp) over the reals, with
    the default configuration the manager uses. */
module Gating {
  import opened Basics

  // ---- Low-pass and Schmitt trigger.

  const ALPHA: real := 0.2
  const DETECT_HIGH: real := 0.8
  const DETECT_LOW: real := 0.2
  const FILTER_SLOTS := 8

  function Smooth(s: real, raw: real): real {
    s + ALPHA * (raw - s)
  }

  function Trigger(on: bool, confidence: real): bool {
    if !on && confidence >= DETECT_HIGH then true
    else if on && confidence <= DETECT_LOW then false
    else on
  }

  /** One-pole low-pass over up to eight channels. */
  class ScoreLowPass {
    const smoothed: array<real>

    constructor ()
      ensures smoothed.Length == FILTER_SLOTS && fresh(smoothed)
      ensures forall i | 0 <= i < FILTER_SLOTS :: smoothed[i] == 0.0
    {
      smoothed := new real[FILTER_SLOTS](_ => 0.0);
    }

    method Update(raw: array<real>, n: nat)
      requires smoothed.Length == FILTER_SLOTS && n <= raw.Length && raw != smoothed
      modifies smoothed
      ensures forall i | 0 <= i < FILTER_SLOTS ::
                smoothed[i] == if i < n then Smooth(old(smoothed[i]), raw[i]) else old(smoothed[i])
    {
      var m := if n < FILTER_SLOTS then n else FILTER_SLOTS;
      for i := 0 to m
        invariant forall j | 0 <= j < FILTER_SLOTS ::
                    smoothed[j] == if j < i then Smooth(old(smoothed[j]), raw[j]) else old(smoothed[j])
      {
        smoothed[i] := smoothed[i] + ALPHA * (raw[i] - smoothed[i]);
      }
    }
  }

  class Hysteresis {
    var state: bool

    constructor ()
      ensures !state
    {
      state := false;
    }

    method Update(confidence: real) returns (on: bool)
      modifies this
      ensures on == state == Trigger(old(state), confidence)
    {
      if !state && confidence >= DETECT_HIGH {
        state := true;
      } else if state && confidence <= DETECT_LOW {
        state := false;
      }
      return state;
    }
  }

  /** The two speaker channels of one harvest. */
  datatype Raw = Raw(baji: real, ru: real) {
    predicate InRange() {
      0.0 <= baji <= 1.0 && 0.0 <= ru <= 1.0
    }
  }

  datatype Detector = Detector(baji: real, ru: real, on: bool) {
    function Confidence(): real {
      MaxReal(baji, ru)
    }
  }

  function Harvested(d: Detector, raw: Raw): Detector {
    var baji, ru := Smooth(d.baji, raw.baji), Smooth(d.ru, raw.ru);
    Detector(baji, ru, Trigger(d.on, MaxReal(baji, ru)))
  }

  /** The detector after the first k harvests. */
  function After(xs: seq<Raw>, k: nat): Detector
    requires k <= |xs|
  {
    if k == 0 then Detector(0.0, 0.0, false) else Harvested(After(xs, k - 1), xs[k - 1])
  }

  lemma {:induction false} AfterMore(xs: seq<Raw>, x: Raw, k: nat)
    requires k <= |xs|
    ensures After(xs + [x], k) == After(xs, k)
  {
    if k > 0 {
      AfterMore(xs, x, k - 1);
    }
  }

  /** Harvest k (counting from 1) changes the output. */
  predicate Flips(xs: seq<Raw>, k: nat)
    requires 1 <= k <= |xs|
  {
    After(xs, k).on != After(xs, k - 1).on
  }

  function Decay(m: nat): (d: real)
    ensures 0.0 < d <= 1.0
  {
    if m == 0 then 1.0 else (1.0 - ALPHA) * Decay(m - 1)
  }

  ghost predicate AllInRange(xs: seq<Raw>) {
    forall x | x in xs :: x.InRange()
  }

  /** Neither channel of `b` has fallen below the share d of where it was in `a`, nor has its
      distance to 1 closed below the share d of what it was. */
  ghost predicate Slow(d: real, a: Detector, b: Detector) {
    && b.baji >= d * a.baji && 1.0 - b.baji >= d * (1.0 - a.baji)
    && b.ru >= d * a.ru && 1.0 - b.ru >= d * (1.0 - a.ru)
  }

  lemma SmoothIsSlow(d: real, a: real, s: real, raw: real)
    requires 0.0 <= raw <= 1.0 && s >= d * a && 1.0 - s >= d * (1.0 - a)
    ensures Smooth(s, raw) >= ((1.0 - ALPHA) * d) * a
    ensures 1.0 - Smooth(s, raw) >= ((1.0 - ALPHA) * d) * (1.0 - a)
  {
    assert Smooth(s, raw) >= (1.0 - ALPHA) * s;
    assert 1.0 - Smooth(s, raw) >= (1.0 - ALPHA) * (1.0 - s);
  }

  lemma HarvestIsSlow(d: real, a: Detector, b: Detector, raw: Raw)
    requires raw.InRange() && Slow(d, a, b)
    ensures Slow((1.0 - ALPHA) * d, a, Harvested(b, raw))
  {
    SmoothIsSlow(d, a.baji, b.baji, raw.baji);
    SmoothIsSlow(d, a.ru, b.ru, raw.ru);
  }

  lemma {:induction false} ChannelsAreSlow(xs: seq<Raw>, k: nat, m: nat)
    requires AllInRange(xs) && k + m <= |xs|
    ensures Slow(Decay(m), After(xs, k), After(xs, k + m))
    decreases m
  {
    if m > 0 {
      ChannelsAreSlow(xs, k, m - 1);
      assert xs[k + m - 1] in xs;
      HarvestIsSlow(Decay(m - 1), After(xs, k), After(xs, k + m - 1), xs[k + m - 1]);
    }
  }

  lemma DecaySix(m: nat)
    ensures m <= 6 ==> Decay(m) > 0.25
  {
    assert Decay(3) == 0.512;
    assert Decay(6) == 0.262144;
    if m <= 6 {
      DecayFalls(m, 6);
    }
  }

  lemma DecaySeven(m: nat)
    ensures m <= 7 ==> Decay(m) > 0.2
  {
    assert Decay(3) == 0.512;
    assert Decay(7) == 0.2097152;
    if m <= 7 {
      DecayFalls(m, 7);
    }
  }

  lemma {:induction false} DecayFalls(m: nat, n: nat)
    requires m <= n
    ensures Decay(n) <= Decay(m)
    decreases n
  {
    if m < n {
      DecayFalls(m, n - 1);
    }
  }

  /** One filtered channel at the upper level turns the output on; it takes both at the lower
      level to turn it off. */
  lemma FlipsExactly(xs: seq<Raw>, k: nat)
    requires 1 <= k <= |xs|
    ensures var d := After(xs, k);
            Flips(xs, k) <==>
            if After(xs, k - 1).on then d.baji <= 0.2 && d.ru <= 0.2 else d.baji >= 0.8 || d.ru >= 0.8
  {
  }

  /** What is left of a distance after k harvests: each takes away a fifth. */
  function Left(x: real, k: nat): real {
    if k == 0 then x else 0.8 * Left(x, k - 1)
  }

  /** Under a steady score each channel closes in on its own score, by a fifth of what is left
      at each harvest. */
  lemma {:induction false} ChannelsSettle(xs: seq<Raw>, k: nat, baji: real, ru: real)
    requires k <= |xs| && forall i | 0 <= i < k :: xs[i] == Raw(baji, ru)
    ensures After(xs, k).baji == baji - Left(baji, k)
    ensures After(xs, k).ru == ru - Left(ru, k)
  {
    if k > 0 {
      ChannelsSettle(xs, k - 1, baji, ru);
    }
  }

  /** Where a channel stands once its score has been at full scale for k harvests. */
  lemma {:induction false} FullScale(xs: seq<Raw>, k: nat, ofRu: bool)
    requires k <= |xs| && forall i | 0 <= i < k :: (if ofRu then xs[i].ru else xs[i].baji) == 1.0
    ensures (if ofRu then After(xs, k).ru else After(xs, k).baji) == 1.0 - Decay(k)
  {
    if k > 0 {
      FullScale(xs, k - 1, ofRu);
    }
  }

  /** One speaker alone is enough: eight harvests at full scale on either channel turn the
      output on at the eighth, whatever the other channel does. */
  lemma OneChannelSwitchesOn(xs: seq<Raw>, ofRu: bool)
    requires AllInRange(xs) && |xs| >= 8
    requires forall i | 0 <= i < 8 :: (if ofRu then xs[i].ru else xs[i].baji) == 1.0
    ensures After(xs, 8).on && Flips(xs, 8)
    ensures forall k | 1 <= k < 8 :: !After(xs, k).on
  {
    FullScale(xs, 8, ofRu);
    assert Decay(3) == 0.512;
    assert Decay(8) == 0.16777216;
    forall k | 1 <= k < 8
      ensures !After(xs, k).on
    {
      OffBeforeEight(xs, k);
    }
  }

  lemma {:induction false} OffBeforeEight(xs: seq<Raw>, k: nat)
    requires AllInRange(xs) && k <= |xs| && k < 8
    ensures !After(xs, k).on
  {
    if k > 0 {
      OffBeforeEight(xs, k - 1);
      if After(xs, k).on {
        FirstOnTakesEight(xs, k);
      }
    }
  }

  /** The output cannot turn on before the eighth harvest, whatever the scores. */
  lemma FirstOnTakesEight(xs: seq<Raw>, k: nat)
    requires AllInRange(xs) && 1 <= k <= |xs| && Flips(xs, k) && After(xs, k).on
    ensures k >= 8
  {
    ChannelsAreSlow(xs, 0, k);
    FlipsExactly(xs, k);
    if k <= 7 {
      DecaySeven(k);
      assert false;
    }
  }

  lemma KeptShare(d: real, a: real, b: real)
    requires d > 0.25 && a >= 0.8 && b >= d * a
    ensures b > 0.2
  {
    assert d * a >= d * 0.8;
  }

  lemma StaysAboveLow(d: real, a: Detector, b: Detector)
    requires Slow(d, a, b) && d > 0.25 && a.Confidence() >= DETECT_HIGH
    ensures b.Confidence() > DETECT_LOW
  {
    if a.baji < a.ru {
      KeptShare(d, a.ru, b.ru);
    } else {
      KeptShare(d, a.baji, b.baji);
    }
  }

  lemma StaysBelowHigh(d: real, a: Detector, b: Detector)
    requires Slow(d, a, b) && d > 0.25 && a.Confidence() <= DETECT_LOW
    ensures b.Confidence() < DETECT_HIGH
  {
    KeptShare(d, 1.0 - a.baji, 1.0 - b.baji);
    KeptShare(d, 1.0 - a.ru, 1.0 - b.ru);
  }

  /** Two opposite flips are at least seven harvests apart. */
  lemma FlipsAreSevenApart(xs: seq<Raw>, i: nat, j: nat)
    requires AllInRange(xs) && 1 <= i < j <= |xs| && Flips(xs, i) && Flips(xs, j)
    requires After(xs, i).on != After(xs, j).on
    ensures j - i >= 7
  {
    ghost var a, b, d := After(xs, i), After(xs, j), Decay(j - i);
    ChannelsAreSlow(xs, i, j - i);
    FlipsExactly(xs, i);
    FlipsExactly(xs, j);
    DecaySix(j - i);
    if d > 0.25 {
      if a.on {
        StaysAboveLow(d, a, b);
      } else {
        StaysBelowHigh(d, a, b);
      }
    }
  }

  /** Both bounds are reached: full-scale scores switch on at exactly the eighth harvest, and
      silence after that switches off at exactly the fifteenth. */
  ghost predicate Burst(xs: seq<Raw>) {
    |xs| >= 15 && forall i | 0 <= i < 15 :: xs[i] == if i < 8 then Raw(1.0, 1.0) else Raw(0.0, 0.0)
  }

  lemma {:induction false} BurstRises(xs: seq<Raw>, k: nat)
    requires Burst(xs) && k <= 8
    ensures After(xs, k) == Detector(1.0 - Decay(k), 1.0 - Decay(k), k == 8)
  {
    if k == 8 {
      assert Decay(3) == 0.512;
      assert Decay(8) == 0.16777216;
    } else {
      DecaySeven(k);
    }
    if k > 0 {
      BurstRises(xs, k - 1);
    }
  }

  lemma {:induction false} BurstFalls(xs: seq<Raw>, m: nat)
    requires Burst(xs) && m <= 7
    ensures After(xs, 8 + m) == Detector(0.83222784 * Decay(m), 0.83222784 * Decay(m), m < 7)
  {
    if m == 0 {
      BurstRises(xs, 8);
      assert Decay(3) == 0.512;
      assert Decay(8) == 0.16777216;
    } else {
      BurstFalls(xs, m - 1);
      if m == 7 {
        assert Decay(3) == 0.512;
        assert Decay(7) == 0.2097152;
      } else {
        DecaySix(m);
      }
    }
  }

  lemma BoundsAreTight(xs: seq<Raw>)
    requires Burst(xs)
    ensures Flips(xs, 8) && After(xs, 8).on && Flips(xs, 15) && !After(xs, 15).on
  {
    BurstRises(xs, 7);
    BurstRises(xs, 8);
    BurstFalls(xs, 6);
    BurstFalls(xs, 7);
  }
}
