/** The cascade resampler (cpp_impl/src/linkjiru/Resampler.hpp): 2:1 stages while the rate
    would drop by more than half, then one rational stage. */
module Resampling {
  import opened Sums
  import opened PolyphaseFilter

  const STAGE_TAPS := 48

  // ---- What a cascade computes on a whole input.

  function Cascade(fs: seq<Filter>, x: seq<real>): seq<real>
    requires forall f | f in fs :: f.WellFormed()
  {
    if fs == [] then x else Stream(fs[|fs| - 1], Cascade(fs[..|fs| - 1], x))
  }

  /** What a cascade that has already consumed x adds when it is given y. */
  function Added(fs: seq<Filter>, x: seq<real>, y: seq<real>): seq<real>
    requires forall f | f in fs :: f.WellFormed()
  {
    CascadeExtends(fs, x, y);
    Cascade(fs, x + y)[|Cascade(fs, x)|..]
  }

  /** More input only ever appends to the output of a cascade. */
  lemma {:induction false} CascadeExtends(fs: seq<Filter>, x: seq<real>, y: seq<real>)
    requires forall f | f in fs :: f.WellFormed()
    ensures |Cascade(fs, x)| <= |Cascade(fs, x + y)|
    ensures Cascade(fs, x + y)[..|Cascade(fs, x)|] == Cascade(fs, x)
  {
    if fs != [] {
      var init := fs[..|fs| - 1];
      CascadeExtends(init, x, y);
      var a, b := Cascade(init, x), Cascade(init, x + y);
      assert b == a + b[|a|..];
      StreamExtends(fs[|fs| - 1], a, b[|a|..]);
    }
  }

  lemma {:induction false} CascadeOfNothing(fs: seq<Filter>)
    requires forall f | f in fs :: f.WellFormed()
    ensures Cascade(fs, []) == []
  {
    if fs != [] {
      CascadeOfNothing(fs[..|fs| - 1]);
      FirstPhase(fs[|fs| - 1]);
      CountIsLeast(fs[|fs| - 1], 0, 0);
    }
  }

  lemma AddedByNothing(x: seq<real>, y: seq<real>)
    ensures Added([], x, y) == y
  {
  }

  function Flatten(blocks: seq<seq<real>>): seq<real> {
    if blocks == [] then [] else blocks[0] + Flatten(blocks[1..])
  }

  /** The concatenated results of feeding the blocks one call at a time, after x. */
  function RunBlocks(fs: seq<Filter>, x: seq<real>, blocks: seq<seq<real>>): seq<real>
    requires forall f | f in fs :: f.WellFormed()
    decreases |blocks|
  {
    if blocks == [] then []
    else Added(fs, x, blocks[0]) + RunBlocks(fs, x + blocks[0], blocks[1..])
  }

  lemma {:induction false} RunBlocksTelescopes(fs: seq<Filter>, x: seq<real>, blocks: seq<seq<real>>)
    requires forall f | f in fs :: f.WellFormed()
    ensures Cascade(fs, x) + RunBlocks(fs, x, blocks) == Cascade(fs, x + Flatten(blocks))
    decreases |blocks|
  {
    if blocks == [] {
      assert x + [] == x;
    } else {
      var x' := x + blocks[0];
      RunBlocksTelescopes(fs, x', blocks[1..]);
      Regroup(x, blocks[0], Flatten(blocks[1..]));
      CascadeGains(fs, x, blocks[0]);
      Regroup(Cascade(fs, x), Added(fs, x, blocks[0]), RunBlocks(fs, x', blocks[1..]));
    }
  }

  lemma CascadeGains(fs: seq<Filter>, x: seq<real>, y: seq<real>)
    requires forall f | f in fs :: f.WellFormed()
    ensures Cascade(fs, x) + Added(fs, x, y) == Cascade(fs, x + y)
  {
    CascadeExtends(fs, x, y);
    TakeDrop(Cascade(fs, x), Cascade(fs, x + y));
  }

  lemma TakeDrop(a: seq<real>, b: seq<real>)
    requires |a| <= |b| && b[..|a|] == a
    ensures a + b[|a|..] == b
  {
  }

  lemma Regroup(a: seq<real>, b: seq<real>, c: seq<real>)
    ensures (a + b) + c == a + (b + c)
  {
  }

  /** However an input is cut into blocks, the concatenated output is the same. */
  lemma BlockIndependence(fs: seq<Filter>, x: seq<real>, a: seq<seq<real>>, b: seq<seq<real>>)
    requires forall f | f in fs :: f.WellFormed()
    requires Flatten(a) == Flatten(b)
    ensures RunBlocks(fs, x, a) == RunBlocks(fs, x, b)
  {
    RunBlocksTelescopes(fs, x, a);
    RunBlocksTelescopes(fs, x, b);
    var c, y := Cascade(fs, x), Cascade(fs, x + Flatten(a));
    assert RunBlocks(fs, x, a) == y[|c|..];
    assert RunBlocks(fs, x, b) == y[|c|..];
  }

  // ---- The planner.

  function Gcd(a: nat, b: nat): (g: nat)
    ensures a > 0 || b > 0 ==> g > 0 && a % g == 0 && b % g == 0
    decreases b
  {
    if b == 0 then a
    else
      var g := Gcd(b, a % b);
      assert a % g == 0 by { GcdStep(a, b, g); }
      g
  }

  lemma GcdStep(a: nat, b: nat, g: nat)
    requires b > 0 && g > 0 && b % g == 0 && (a % b) % g == 0
    ensures a % g == 0
  {
    var q, s, t := a / b, b / g, (a % b) / g;
    assert a == b * q + a % b;
    assert b == g * s && a % b == g * t;
    assert b * q == g * s * q;
    assert g * s * q == g * (s * q);
    MulNonNegative(s, q);
    assert a == (s * q + t) * g + 0;
    DivModUnique(a, g, s * q + t, 0);
  }

  /** d divides both. */
  predicate Common(d: nat, a: nat, b: nat)
    requires d >= 1
  {
    a % d == 0 && b % d == 0
  }

  lemma MultipleOf(a: nat, d: nat, k: nat)
    requires d >= 1 && a == k * d
    ensures a % d == 0
  {
    DivModUnique(a, d, k, 0);
  }

  /** What divides a and b divides what is left of a over b. */
  lemma DividesRemainder(a: nat, b: nat, d: nat)
    requires b >= 1 && d >= 1 && Common(d, a, b)
    ensures (a % b) % d == 0
  {
    var q, s, t := a / b, a / d, b / d;
    assert a == s * d && b == t * d;
    assert a % b == a - q * b;
    assert q * (t * d) == (q * t) * d;
    assert a % b == (s - q * t) * d;
    if s - q * t < 0 {
      MulMono(s - q * t, -1, d);
    }
    MultipleOf(a % b, d, s - q * t);
  }

  /** Every common divisor divides the computed one, so no common divisor is greater. */
  lemma {:induction false} GcdIsGreatest(a: nat, b: nat, d: nat)
    requires d >= 1 && (a > 0 || b > 0) && Common(d, a, b)
    ensures Gcd(a, b) % d == 0 && d <= Gcd(a, b)
    decreases b
  {
    if b > 0 {
      DividesRemainder(a, b, d);
      GcdIsGreatest(b, a % b, d);
    }
    DivisorAtMost(Gcd(a, b), d);
  }

  lemma DivisorAtMost(n: nat, d: nat)
    requires n >= 1 && d >= 1 && n % d == 0
    ensures d <= n
  {
  }

  /** No number above one divides both. */
  ghost predicate Coprime(a: nat, b: nat) {
    forall d: nat | d >= 2 :: !Common(d, a, b)
  }

  /** Dividing by the greatest common divisor leaves none. */
  lemma QuotientsAreCoprime(a: nat, b: nat, g: nat)
    requires a >= 1 && b >= 1 && g == Gcd(a, b)
    ensures Coprime(a / g, b / g)
  {
    ExactQuotient(a, g);
    ExactQuotient(b, g);
    forall d: nat | d >= 2
      ensures !Common(d, a / g, b / g)
    {
      if Common(d, a / g, b / g) {
        DivisorTimes(a, g, d);
        DivisorTimes(b, g, d);
        MulMono(2, d, g);
        GcdIsGreatest(a, b, d * g);
        assert false;
      }
    }
  }

  lemma DivisorTimes(a: nat, g: nat, d: nat)
    requires g >= 1 && d >= 1 && a == (a / g) * g && (a / g) % d == 0
    ensures d * g >= 1 && a % (d * g) == 0
  {
    var k := a / g / d;
    assert a / g == k * d;
    assert (k * d) * g == k * (d * g);
    MulMono(1, d, g);
    MultipleOf(a, d * g, k);
  }

  datatype Ratio = Ratio(up: nat, down: nat)

  /** The stage ratios for an integer input rate. */
  function Plan(rate: nat, target: nat): (p: seq<Ratio>)
    requires rate >= 1 && target >= 1
    ensures |p| >= 1
    ensures forall r | r in p :: r.up >= 1 && r.down >= 1
    decreases rate
  {
    if rate > 2 * target then [Ratio(1, 2)] + Plan(rate / 2, target)
    else
      var g := Gcd(target, rate);
      [Ratio(target / g, rate / g)]
  }

  function UpProduct(p: seq<Ratio>): nat {
    if p == [] then 1 else
      MulNonNegative(p[0].up, UpProduct(p[1..]));
      p[0].up * UpProduct(p[1..])
  }

  function DownProduct(p: seq<Ratio>): nat {
    if p == [] then 1 else
      MulNonNegative(p[0].down, DownProduct(p[1..]));
      p[0].down * DownProduct(p[1..])
  }

  function Pow2(n: nat): (r: nat)
    ensures r >= 1
  {
    if n == 0 then 1 else 2 * Pow2(n - 1)
  }

  /** The rate that reaches the last stage: halved, rounding down, once per 2:1 stage. */
  function LastRate(rate: nat, target: nat): (r: nat)
    requires rate >= 1 && target >= 1
    ensures 1 <= r <= 2 * target
    ensures rate > 2 * target ==> r >= target
    decreases rate
  {
    if rate > 2 * target then LastRate(rate / 2, target) else rate
  }

  /** Every stage but the last is 2:1; the last one divides by the common divisor. */
  lemma {:induction false} PlanStages(rate: nat, target: nat)
    requires rate >= 1 && target >= 1
    ensures forall i | 0 <= i < |Plan(rate, target)| - 1 :: Plan(rate, target)[i] == Ratio(1, 2)
    ensures Plan(rate, target)[|Plan(rate, target)| - 1] ==
            Ratio(target / Gcd(target, LastRate(rate, target)),
                  LastRate(rate, target) / Gcd(target, LastRate(rate, target)))
    ensures |Plan(rate, target)| > 1 <==> rate > 2 * target
    decreases rate
  {
    if rate > 2 * target {
      PlanStages(rate / 2, target);
      var p, rest := Plan(rate, target), Plan(rate / 2, target);
      assert forall i | 1 <= i < |p| :: p[i] == rest[i - 1];
    }
  }

  /** Every stage but the last is 2:1, and there is one before the last exactly above twice the
      target. The last stage takes what the halvings leave to the target, in lowest terms. */
  lemma PlanShape(rate: nat, target: nat)
    requires rate >= 1 && target >= 1
    ensures forall i | 0 <= i < |Plan(rate, target)| - 1 :: Plan(rate, target)[i] == Ratio(1, 2)
    ensures |Plan(rate, target)| > 1 <==> rate > 2 * target
    ensures var last := Plan(rate, target)[|Plan(rate, target)| - 1];
            var left := rate / Pow2(|Plan(rate, target)| - 1);
            && last.up * left == last.down * target && Coprime(last.up, last.down)
            && left <= 2 * target && (rate > 2 * target ==> left >= target)
  {
    PlanStages(rate, target);
    LastRateIsQuotient(rate, target);
    var left := LastRate(rate, target);
    var g := Gcd(target, left);
    QuotientsAreCoprime(target, left, g);
    ExactQuotient(target, g);
    ExactQuotient(left, g);
    CrossProduct(target / g, left / g, g);
  }

  lemma CrossProduct(up: nat, down: nat, g: nat)
    ensures up * (down * g) == down * (up * g)
  {
  }

  /** At 44100 Hz for 48000 that is 160/147. */
  lemma CommonRate()
    ensures Plan(44100, 48000) == [Ratio(160, 147)]
  {
    assert Gcd(48000, 44100) == Gcd(44100, 3900) == Gcd(3900, 1200) == Gcd(1200, 300) == Gcd(300, 0) == 300;
  }

  lemma HalvedQuotient(rate: nat, d: nat)
    requires d >= 1
    ensures (rate / 2) / d == rate / (2 * d)
  {
    var q, r := (rate / 2) / d, (rate / 2) % d;
    assert rate / 2 == d * q + r;
    assert q * (2 * d) == 2 * (d * q);
    DivModUnique(rate, 2 * d, q, 2 * r + rate % 2);
  }

  /** Halving n times, rounding down. */
  lemma {:induction false} LastRateIsQuotient(rate: nat, target: nat)
    requires rate >= 1 && target >= 1
    ensures LastRate(rate, target) == rate / Pow2(|Plan(rate, target)| - 1)
    decreases rate
  {
    if rate > 2 * target {
      LastRateIsQuotient(rate / 2, target);
      HalvedQuotient(rate, Pow2(|Plan(rate / 2, target)| - 1));
    }
  }

  lemma {:induction false} HalvingsProducts(p: seq<Ratio>)
    requires |p| >= 1 && forall i | 0 <= i < |p| - 1 :: p[i] == Ratio(1, 2)
    ensures UpProduct(p) == p[|p| - 1].up
    ensures DownProduct(p) == Pow2(|p| - 1) * p[|p| - 1].down
  {
    var rest := p[1..];
    if |p| == 1 {
      assert UpProduct(rest) == 1 && DownProduct(rest) == 1;
    } else {
      HalvingsProducts(rest);
      var d, q := Pow2(|rest| - 1), p[|p| - 1].down;
      assert p[0] == Ratio(1, 2);
      assert 2 * (d * q) == (2 * d) * q;
    }
  }

  /** What a host rate must be for the plan's ratio to be exact: the rate that reaches the
      last stage, doubled once per 2:1 stage. */
  function PlannedRate(rate: nat, target: nat): nat
    requires rate >= 1 && target >= 1
  {
    MulNonNegative(LastRate(rate, target), Pow2(|Plan(rate, target)| - 1));
    LastRate(rate, target) * Pow2(|Plan(rate, target)| - 1)
  }

  /** up/down reduces target/last, so the whole cascade takes last*d to the target. */
  lemma RatioArithmetic(target: nat, last: nat, g: nat, up: nat, down: nat, d: nat)
    requires target == up * g && last == down * g
    ensures up * (last * d) == (d * down) * target
  {
    assert (d * down) * target == (d * down) * (up * g);
    assert (d * down) * (up * g) == up * ((down * g) * d);
  }

  lemma PlanTakesPlannedRate(rate: nat, target: nat)
    requires rate >= 1 && target >= 1
    ensures UpProduct(Plan(rate, target)) >= 1
    ensures UpProduct(Plan(rate, target)) * PlannedRate(rate, target) == DownProduct(Plan(rate, target)) * target
  {
    PlanStages(rate, target);
    HalvingsProducts(Plan(rate, target));
    var last := LastRate(rate, target);
    var g := Gcd(target, last);
    ExactQuotient(target, g);
    ExactQuotient(last, g);
    RatioArithmetic(target, last, g, target / g, last / g, Pow2(|Plan(rate, target)| - 1));
  }

  /** Rounding down at the halvings never gives more than the rate that went in, and gives
      all of it exactly when that rate halves evenly. */
  lemma PlannedRateIsBelow(rate: nat, target: nat)
    requires rate >= 1 && target >= 1
    ensures PlannedRate(rate, target) <= rate
    ensures PlannedRate(rate, target) == rate <==> rate % Pow2(|Plan(rate, target)| - 1) == 0
  {
    LastRateIsQuotient(rate, target);
    WholeMultiple(rate, Pow2(|Plan(rate, target)| - 1));
  }

  lemma WholeMultiple(a: nat, d: nat)
    requires d >= 1
    ensures (a / d) * d <= a
    ensures (a / d) * d == a <==> a % d == 0
  {
    assert a == d * (a / d) + a % d;
  }

  /** lround of a positive rate: nearest integer, halves up. */
  function RoundRate(x: real): int {
    (x + 0.5).Floor
  }

  lemma RoundRateIsNearest(x: real)
    ensures x - 0.5 < RoundRate(x) as real <= x + 0.5
  {
  }

  /** Whole output samples per `target` input samples, less what the target rate asks for:
      zero if the planned stages are exact, positive if they produce too many samples. */
  function Excess(hostSampleRate: real, target: nat): real
    requires hostSampleRate >= 0.5 && target >= 1
  {
    var p := Plan(RoundRate(hostSampleRate), target);
    Surplus(UpProduct(p), DownProduct(p), hostSampleRate, target)
  }

  function Surplus(up: nat, down: nat, x: real, target: nat): real {
    up as real * x - down as real * target as real
  }

  lemma SurplusSign(up: nat, down: nat, x: real, target: nat, q: nat)
    requires up >= 1 && up * q == down * target
    ensures Surplus(up, down, x, target) == 0.0 <==> x == q as real
    ensures Surplus(up, down, x, target) > 0.0 <==> x > q as real
  {
    RealProducts(up, q, down, target);
    SameSign(up as real, x, q as real);
  }

  lemma SameSign(u: real, x: real, y: real)
    requires u > 0.0
    ensures u * x == u * y <==> x == y
    ensures u * x > u * y <==> x > y
  {
    assert u * x - u * y == u * (x - y);
    if x > y {
      ProductPositive(u, x - y);
    } else if x < y {
      ProductPositive(u, y - x);
    }
  }

  lemma RealProducts(a: nat, b: nat, c: nat, d: nat)
    requires a * b == c * d
    ensures a as real * b as real == c as real * d as real
  {
    RealProduct(a, b);
    RealProduct(c, d);
  }

  lemma ExcessSign(hostSampleRate: real, target: nat)
    requires hostSampleRate >= 0.5 && target >= 1
    ensures Excess(hostSampleRate, target) == 0.0 <==>
            hostSampleRate == PlannedRate(RoundRate(hostSampleRate), target) as real
    ensures Excess(hostSampleRate, target) > 0.0 <==>
            hostSampleRate > PlannedRate(RoundRate(hostSampleRate), target) as real
  {
    var r := RoundRate(hostSampleRate);
    PlanTakesPlannedRate(r, target);
    SurplusSign(UpProduct(Plan(r, target)), DownProduct(Plan(r, target)), hostSampleRate, target,
                PlannedRate(r, target));
  }

  /** prepare() rounds the host rate and then halves it, rounding down. The planned stages
      change the rate by exactly target/host if and only if both steps lose nothing: the host
      rate is an integer and every 2:1 stage halves it evenly. Otherwise the output is too
      fast if a halving truncates or the rate was rounded down, and too slow if the halvings
      are even and the rate was rounded up. */
  lemma PlanIsExactRatio(hostSampleRate: real, target: nat)
    requires hostSampleRate >= 0.5 && target >= 1
    ensures var r := RoundRate(hostSampleRate);
            var even := r % Pow2(|Plan(r, target)| - 1) == 0;
            && (Excess(hostSampleRate, target) == 0.0 <==> even && hostSampleRate == r as real)
            && (Excess(hostSampleRate, target) > 0.0 <==> !even || hostSampleRate > r as real)
            && (Excess(hostSampleRate, target) < 0.0 <==> even && hostSampleRate < r as real)
  {
    ExcessSign(hostSampleRate, target);
    PlannedRateIsBelow(RoundRate(hostSampleRate), target);
  }

  lemma ExactQuotient(a: nat, g: nat)
    requires a >= 1 && g >= 1 && a % g == 0
    ensures a == (a / g) * g && a / g >= 1
  {
    assert a == g * (a / g);
  }

  /** Concrete rates for which the ratio is off: 192001 Hz is treated as 192000 Hz, and
      95999.6 Hz as 96000 Hz. */
  lemma OddRateIsOff()
    ensures Excess(192001.0, 48000) > 0.0
    ensures Excess(95999.6, 48000) < 0.0
  {
    assert Plan(192001, 48000) == [Ratio(1, 2)] + Plan(96000, 48000);
    assert |Plan(96000, 48000)| == 1;
    assert Pow2(0) == 1 && Pow2(1) == 2;
    assert RoundRate(192001.0) == 192001 && RoundRate(95999.6) == 96000;
    PlanIsExactRatio(192001.0, 48000);
    PlanIsExactRatio(95999.6, 48000);
  }

  // ---- How many samples a call can produce.

  ghost predicate Planned(fs: seq<Filter>, rate: nat, target: nat)
    requires rate >= 1 && target >= 1
  {
    && |fs| == |Plan(rate, target)|
    && forall i | 0 <= i < |fs| ::
         fs[i].WellFormed() && Ratio(fs[i].L, fs[i].M) == Plan(rate, target)[i] && fs[i].T == STAGE_TAPS
  }

  /** A stage that does not raise the rate by more than a factor c adds at most c*n samples. */
  lemma CountAtMost(f: Filter, P: nat, n: nat, c: nat)
    requires f.WellFormed() && f.L <= c * f.M
    ensures Count(f, P + n) - Count(f, P) <= c * n
  {
    CountAdds(f, P, n);
    CountBounds(f, n);
    var e := Count(f, n);
    MulMono(f.L, c * f.M, n);
    assert f.L * n == n * f.L;
    assert c * f.M * n == (c * n) * f.M;
    MulNonNegative(c, n);
    if e > c * n {
      MulMono(c * n + 1, e, f.M);
      assert false;
    }
  }

  /** Passing through the first i stages of a plan's 2:1 part never adds samples. */
  lemma {:induction false} HalvingsAdd(fs: seq<Filter>, x: seq<real>, y: seq<real>)
    requires forall f | f in fs :: f.WellFormed() && f.L == 1 && f.M == 2
    ensures |Added(fs, x, y)| <= |y|
  {
    CascadeExtends(fs, x, y);
    if fs != [] {
      var init := fs[..|fs| - 1];
      HalvingsAdd(init, x, y);
      CountAtMost(fs[|fs| - 1], |Cascade(init, x)|, |Added(init, x, y)|, 1);
    }
  }

  lemma ReducedRatio(target: nat, last: nat, g: nat, up: nat, down: nat)
    requires g >= 1 && target == up * g && last == down * g
    ensures target <= 2 * last <==> up <= 2 * down
  {
    assert 2 * (down * g) == (2 * down) * g;
    if up <= 2 * down {
      MulMono(up, 2 * down, g);
    } else {
      MulMono(2 * down + 1, up, g);
      assert (2 * down + 1) * g == (2 * down) * g + g;
    }
  }

  /** A stage that raises the rate by more than a factor c adds more than c*n samples at once. */
  lemma CountAbove(f: Filter, n: nat, c: nat)
    requires f.WellFormed() && f.L > c * f.M && n >= 1
    ensures Count(f, 0) == 0 && Count(f, n) > c * n
  {
    FirstPhase(f);
    CountIsLeast(f, 0, 0);
    CountBounds(f, n);
    MulMono(c * f.M + 1, f.L, n);
    assert (c * f.M + 1) * n == (c * n) * f.M + n;
    MulNonNegative(c, n);
    if Count(f, n) <= c * n {
      MulMono(Count(f, n), c * n, f.M);
      assert false;
    }
  }

  /** With a host rate of at least half the target, a call of n samples yields at most 2n:
      the final copy into a buffer of twice the block size loses nothing. */
  lemma NeverTruncates(fs: seq<Filter>, rate: nat, target: nat, x: seq<real>, y: seq<real>)
    requires rate >= 1 && target >= 1 && Planned(fs, rate, target)
    requires 2 * rate >= target
    ensures |Added(fs, x, y)| <= 2 * |y|
  {
    PlanStages(rate, target);
    CascadeExtends(fs, x, y);
    var n := |fs| - 1;
    var init, f := fs[..n], fs[n];
    forall g | g in init
      ensures g.WellFormed() && g.L == 1 && g.M == 2
    {
      var i :| 0 <= i < n && init[i] == g;
      assert Ratio(fs[i].L, fs[i].M) == Plan(rate, target)[i];
    }
    HalvingsAdd(init, x, y);
    CascadeExtends(init, x, y);
    var last := LastRate(rate, target);
    var g := Gcd(target, last);
    ExactQuotient(target, g);
    ExactQuotient(last, g);
    assert Ratio(f.L, f.M) == Plan(rate, target)[n];
    ReducedRatio(target, last, g, f.L, f.M);
    CountAtMost(f, |Cascade(init, x)|, |Added(init, x, y)|, 2);
  }

  /** Below half the target any first block yields more than twice its length, so a full one
      overflows that buffer. */
  lemma TruncatesBelowHalf(fs: seq<Filter>, rate: nat, target: nat, y: seq<real>, maxInput: nat)
    requires rate >= 1 && target >= 1 && Planned(fs, rate, target)
    requires 2 * rate < target && |y| >= 1
    ensures |Added(fs, [], y)| > 2 * |y|
    ensures |y| == maxInput ==> |Added(fs, [], y)| > 2 * maxInput
  {
    PlanStages(rate, target);
    CascadeExtends(fs, [], y);
    var f, n := fs[0], |y|;
    var g := Gcd(target, rate);
    assert [] + y == y;
    assert Ratio(f.L, f.M) == Plan(rate, target)[0] == Ratio(target / g, rate / g);
    assert fs[..0] == [];
    assert Cascade(fs[..0], y) == y && Cascade(fs[..0], []) == [];
    ExactQuotient(target, g);
    ExactQuotient(rate, g);
    ReducedRatio(target, rate, g, f.L, f.M);
    CountAbove(f, n, 2);
  }

  /** One more stage: what it adds is what its predecessors' addition makes its stream gain. */
  lemma AddedByNextStage(fs: seq<Filter>, i: nat, x: seq<real>, y: seq<real>)
    requires i < |fs| && forall f | f in fs :: f.WellFormed()
    ensures Cascade(fs[..i], x + y) == Cascade(fs[..i], x) + Added(fs[..i], x, y)
    ensures |Stream(fs[i], Cascade(fs[..i], x))| <= |Stream(fs[i], Cascade(fs[..i], x + y))|
    ensures Added(fs[..i + 1], x, y) ==
            Stream(fs[i], Cascade(fs[..i], x + y))[|Stream(fs[i], Cascade(fs[..i], x))|..]
  {
    assert fs[..i + 1][..i] == fs[..i];
    CascadeExtends(fs[..i], x, y);
    CascadeExtends(fs[..i + 1], x, y);
  }

  /** A 2:1 stage hands on at most half of what it gets, plus one. */
  lemma HalvingAdds(fs: seq<Filter>, i: nat, x: seq<real>, y: seq<real>)
    requires i < |fs| && forall f | f in fs :: f.WellFormed()
    requires fs[i].L == 1 && fs[i].M == 2
    ensures |Added(fs[..i + 1], x, y)| <= |Added(fs[..i], x, y)| / 2 + 1
  {
    var P, n := |Cascade(fs[..i], x)|, |Added(fs[..i], x, y)|;
    AddedByNextStage(fs, i, x, y);
    CountAdds(fs[i], P, n);
    CountBounds(fs[i], n);
  }

  // ---- The object.

  /** Nothing one stage writes is read or written by the other. */
  ghost predicate Apart(s: PolyphaseFir, t: PolyphaseFir) {
    && s != t
    && s.history != t.history && s.history != t.poly && s.history != t.output
    && s.output != t.output && s.output != t.poly && s.output != t.history
  }

  class Resampler {
    const target: nat
    const maxInput: nat
    const finalOut: array<real>
    var stages: seq<PolyphaseFir>
    var bypass: bool

    ghost var filters: seq<Filter> // the stages' filters
    ghost var log: seq<real>       // every sample processed since prepare()
    ghost var Repr: set<object>    // the buffers of the stages

    /** Stages own disjoint buffers, apart from the final one. */
    ghost predicate Separate()
      reads this`stages, this`Repr
    {
      && finalOut !in Repr && this !in Repr
      && (forall i | 0 <= i < |stages| :: stages[i].Repr() <= Repr)
      && (forall i, j | 0 <= i < |stages| && 0 <= j < |stages| && i != j :: Apart(stages[i], stages[j]))
    }

    /** Each 2:1 stage hands its successor at most half a block and a little. */
    ghost predicate Sized()
      reads this`stages
    {
      && (|stages| > 0 ==> stages[0].maxInput == maxInput)
      && forall i, j | 0 <= i && j == i + 1 < |stages| ::
           && stages[i].L == 1 && stages[i].M == 2
           && stages[j].maxInput == stages[i].maxInput / 2 + 2
    }

    ghost predicate Valid()
      reads this, Repr
    {
      && finalOut.Length == 2 * maxInput
      && (bypass <==> stages == [])
      && Standing(log)
    }

    /** Every stage is drained and has consumed what its predecessors make of x. */
    ghost predicate Standing(x: seq<real>)
      reads this`stages, this`filters, this`Repr, Repr
    {
      && Separate() && Sized()
      && |filters| == |stages|
      && (forall f | f in filters :: f.WellFormed())
      && (forall i | 0 <= i < |stages| ::
            && stages[i].Valid() && stages[i].Drained()
            && stages[i].filter == filters[i] && stages[i].input == Cascade(filters[..i], x))
    }

    constructor (targetSampleRate: nat, maxInputSamples: nat)
      ensures Valid() && bypass && log == []
      ensures target == targetSampleRate && maxInput == maxInputSamples
      ensures fresh(finalOut) && Repr == {}
    {
      target, maxInput := targetSampleRate, maxInputSamples;
      finalOut := new real[2 * maxInputSamples](_ => 0.0);
      stages, bypass, filters, log, Repr := [], true, [], [], {};
    }

    /** Build the cascade for a host rate. `kaiser` supplies the windowed-sinc prototypes.
        A rate that rounds to zero would divide by zero in the source. */
    method Prepare(hostSampleRate: real, kaiser: (nat, nat) -> seq<real>, avx: bool)
      requires Valid() && target >= 1 && hostSampleRate >= 0.5
      requires forall up: nat, down: nat :: |kaiser(up, down)| == up * STAGE_TAPS
      modifies this
      ensures Valid() && log == [] && fresh(Repr - old(Repr))
      ensures bypass <==> hostSampleRate == target as real
      ensures !bypass ==> Planned(filters, RoundRate(hostSampleRate), target)
    {
      stages, filters, log, Repr := [], [], [], {};
      bypass := hostSampleRate == target as real;
      if !bypass {
        BuildCascade(RoundRate(hostSampleRate), kaiser, avx);
      }
    }

    method BuildCascade(rate: nat, kaiser: (nat, nat) -> seq<real>, avx: bool)
      requires target >= 1 && rate >= 1 && finalOut.Length == 2 * maxInput
      requires !bypass && stages == [] && filters == [] && log == [] && Repr == {}
      requires forall up: nat, down: nat :: |kaiser(up, down)| == up * STAGE_TAPS
      modifies this
      ensures Valid() && log == [] && fresh(Repr) && !bypass
      ensures Planned(filters, rate, target)
    {
      ghost var plan := Plan(rate, target);
      var inRate, stageMax := AppendHalvings(rate, kaiser, avx, plan);
      AppendFinal(inRate, stageMax, kaiser, avx, plan);
      WholePlanBuilt(rate, plan);
    }

    /** The final rational stage, for whatever change of rate is left. */
    method AppendFinal(inRate: nat, stageMax: nat, kaiser: (nat, nat) -> seq<real>, avx: bool, ghost plan: seq<Ratio>)
      requires target >= 1 && 1 <= inRate <= 2 * target
      requires forall up: nat, down: nat :: |kaiser(up, down)| == up * STAGE_TAPS
      requires Growing(plan, inRate, stageMax)
      modifies this
      ensures Built(plan) && Sized() && |stages| == |plan|
      ensures fresh(Repr - old(Repr)) && log == old(log) && bypass == old(bypass)
    {
      var g := Gcd(target, inRate);
      ExactQuotient(target, g);
      ExactQuotient(inRate, g);
      assert plan[|stages|..] == [Ratio(target / g, inRate / g)];
      Append(target / g, inRate / g, stageMax, kaiser, avx, plan);
    }

    lemma WholePlanBuilt(rate: nat, plan: seq<Ratio>)
      requires rate >= 1 && target >= 1 && plan == Plan(rate, target)
      requires Built(plan) && Sized() && |stages| == |plan|
      requires finalOut.Length == 2 * maxInput && !bypass && log == []
      ensures Valid() && Planned(filters, rate, target)
    {
      var fs := filters;
      forall f | f in fs
        ensures f.WellFormed()
      {
        var j :| 0 <= j < |fs| && fs[j] == f;
        assert stages[j].Valid();
      }
      forall i | 0 <= i < |stages|
        ensures Cascade(fs[..i], []) == []
      {
        CascadeOfNothing(fs[..i]);
      }
    }

    /** Staged 2:1 decimation while the rate would drop by more than half. */
    method AppendHalvings(hostRate: nat, kaiser: (nat, nat) -> seq<real>, avx: bool, ghost plan: seq<Ratio>)
      returns (inRate: nat, stageMax: nat)
      requires target >= 1 && hostRate >= 1 && plan == Plan(hostRate, target)
      requires forall up: nat, down: nat :: |kaiser(up, down)| == up * STAGE_TAPS
      requires stages == [] && filters == [] && Repr == {}
      modifies this
      ensures 1 <= inRate <= 2 * target
      ensures Growing(plan, inRate, stageMax) && fresh(Repr) && log == old(log) && bypass == old(bypass)
    {
      inRate, stageMax := hostRate, maxInput;
      while inRate > 2 * target
        invariant inRate >= 1
        invariant Growing(plan, inRate, stageMax) && fresh(Repr) && log == old(log) && bypass == old(bypass)
        decreases inRate
      {
        assert Plan(inRate, target) == [Ratio(1, 2)] + Plan(inRate / 2, target);
        assert plan[|stages|] == Ratio(1, 2);
        Append(1, 2, stageMax, kaiser, avx, plan);
        assert plan[|stages|..] == plan[|stages| - 1..][1..];
        inRate := inRate / 2;
        stageMax := stageMax / 2 + 2;
      }
    }

    /** Only 2:1 stages so far; Plan(inRate, target) is what is left of the plan. */
    ghost predicate Growing(plan: seq<Ratio>, inRate: nat, stageMax: nat)
      requires inRate >= 1 && target >= 1
      reads this, Repr
    {
      && Built(plan) && Sized()
      && plan[|stages|..] == Plan(inRate, target)
      && (forall i | 0 <= i < |stages| :: plan[i] == Ratio(1, 2))
      && stageMax == if |stages| == 0 then maxInput else stages[|stages| - 1].maxInput / 2 + 2
    }

    /** A prefix of the planned stages stands, all still empty. */
    ghost predicate Built(plan: seq<Ratio>)
      reads this, Repr
    {
      && Separate() && |filters| == |stages| <= |plan|
      && forall i | 0 <= i < |stages| ::
           && stages[i].Valid() && stages[i].Drained() && stages[i].input == []
           && stages[i].filter == filters[i] && filters[i].T == STAGE_TAPS
           && Ratio(stages[i].L, stages[i].M) == plan[i]
    }

    /** stages.emplace_back() followed by design(). */
    method Append(up: nat, down: nat, stageMax: nat, kaiser: (nat, nat) -> seq<real>, avx: bool, ghost plan: seq<Ratio>)
      requires up >= 1 && down >= 1 && |kaiser(up, down)| == up * STAGE_TAPS
      requires Built(plan) && |stages| < |plan| && plan[|stages|] == Ratio(up, down)
      modifies this
      ensures Built(plan)
      ensures |stages| == |old(stages)| + 1 && stages[..|old(stages)|] == old(stages)
      ensures stages[|old(stages)|].maxInput == stageMax
      ensures fresh(Repr - old(Repr)) && log == old(log) && bypass == old(bypass)
    {
      var stage := new PolyphaseFir(up, down, STAGE_TAPS, stageMax, kaiser(up, down), avx);
      stages := stages + [stage];
      filters := filters + [stage.filter];
      Repr := Repr + stage.Repr();
    }

    /** Inside Process, before stage i: earlier stages have taken the new block, later ones
        have not, and `cur` holds what the first i stages made of it. */
    ghost predicate MidCall(fs: seq<Filter>, i: nat, x: seq<real>, y: seq<real>, cur: array<real>, count: nat)
      reads this, Repr, cur
      requires Separate() && forall f | f in fs :: f.WellFormed()
    {
      && i <= |stages| == |fs|
      && (forall j | 0 <= j < |stages| :: stages[j].filter == fs[j])
      && (forall j | 0 <= j < |stages| :: stages[j].Valid() && stages[j].Drained())
      && (forall j | 0 <= j < i :: stages[j].input == Cascade(fs[..j], x + y))
      && (forall j | i <= j < |stages| ::
            stages[j].input == Cascade(fs[..j], x) && cur != stages[j].history && cur != stages[j].output)
      && count <= cur.Length && cur[..count] == Added(fs[..i], x, y)
      && (i < |stages| ==> count <= stages[i].maxInput)
    }

    method RunStage(ghost fs: seq<Filter>, i: nat, ghost x: seq<real>, ghost y: seq<real>, cur: array<real>, count: nat)
      returns (out: Block)
      requires (forall f | f in fs :: f.WellFormed()) && Separate() && Sized()
      requires MidCall(fs, i, x, y, cur, count) && i < |stages|
      modifies stages[i], stages[i].history, stages[i].output
      ensures MidCall(fs, i + 1, x, y, out.data, out.numSamples) && out.data == stages[i].output
    {
      assert Cascade(fs[..i], x + y) == Cascade(fs[..i], x) + Added(fs[..i], x, y) by {
        AddedByNextStage(fs, i, x, y);
      }
      out := stages[i].Process(cur, count);
      assert out.data[..out.numSamples] == Added(fs[..i + 1], x, y) by {
        AddedByNextStage(fs, i, x, y);
      }
      assert i + 1 < |stages| ==> out.numSamples <= stages[i + 1].maxInput by {
        if i + 1 < |stages| {
          HalvingAdds(fs, i, x, y);
        }
      }
      OthersUndisturbed(i);
    }

    /** A step that writes only to stage i's state leaves the other stages as they were. */
    twostate lemma OthersUndisturbed(i: nat)
      requires stages == old(stages) && i < |stages| && Separate()
      requires forall j | 0 <= j < |stages| && j != i :: unchanged(stages[j], stages[j].history, stages[j].poly)
      requires forall j | 0 <= j < |stages| && j != i :: old(stages[j].Valid() && stages[j].Drained())
      ensures forall j | 0 <= j < |stages| && j != i ::
                stages[j].Valid() && stages[j].Drained() && stages[j].input == old(stages[j].input)
    {
      forall j | 0 <= j < |stages| && j != i
        ensures stages[j].Valid() && stages[j].Drained() && stages[j].input == old(stages[j].input)
      {
        stages[j].Undisturbed();
      }
    }

    /** Resample n host-rate samples. Together with what came before, the result is what the
        cascade makes of the whole input, cut to the room in the final buffer; at the target
        rate it is the input itself. */
    method Process(data: array<real>, n: nat) returns (out: Block)
      requires Valid() && n <= data.Length && n <= maxInput
      requires data !in Repr && data != finalOut
      modifies this`log, Repr, finalOut
      ensures Valid() && log == old(log + data[..n])
      ensures out.numSamples <= out.data.Length && out.data !in Repr
      ensures var added := Added(filters, old(log), old(data[..n]));
              && out.numSamples == (if bypass || |added| <= 2 * maxInput then |added| else 2 * maxInput)
              && out.data[..out.numSamples] == added[..out.numSamples]
      ensures out.data == if bypass then data else finalOut
    {
      if bypass {
        AddedByNothing(log, data[..n]);
        log := log + data[..n];
        return Block(data, n);
      }
      var cur := RunCascade(data, n);
      out := Deliver(cur.data, cur.numSamples, cur.data[..cur.numSamples]);
    }

    /** What the last stage produced, as far as the final buffer has room. */
    method Deliver(data: array<real>, n: nat, ghost added: seq<real>) returns (out: Block)
      requires Valid() && n <= data.Length && data != finalOut && data[..n] == added
      modifies finalOut
      ensures Valid() && out.data == finalOut
      ensures out.numSamples == (if |added| <= 2 * maxInput then |added| else 2 * maxInput)
      ensures finalOut[..out.numSamples] == added[..out.numSamples]
    {
      var count := if n <= finalOut.Length then n else finalOut.Length;
      assert data[..count] == data[..n][..count];
      CopyOut(data, count);
      out := Block(finalOut, count);
    }

    /** The loop over the stages. */
    method RunCascade(data: array<real>, n: nat) returns (out: Block)
      requires Valid() && !bypass && n <= data.Length && n <= maxInput
      requires data !in Repr && data != finalOut
      modifies this`log, Repr
      ensures Valid() && log == old(log + data[..n])
      ensures out.numSamples <= out.data.Length && out.data != finalOut
      ensures out.data[..out.numSamples] == Added(filters, old(log), old(data[..n]))
    {
      ghost var x := log;
      log := log + data[..n];
      out := RunStages(x, data, n);
    }

    method RunStages(ghost x: seq<real>, data: array<real>, n: nat) returns (out: Block)
      requires Standing(x) && n <= data.Length && n <= maxInput && stages != []
      requires data !in Repr && data != finalOut
      modifies Repr
      ensures Standing(x + old(data[..n]))
      ensures out.numSamples <= out.data.Length && out.data != finalOut
      ensures out.data[..out.numSamples] == Added(filters, x, old(data[..n]))
    {
      ghost var fs, y := filters, data[..n];
      out := Block(data, n);
      CallBegins(x, data, n);
      for i := 0 to |stages|
        invariant out.data == if i == 0 then data else stages[i - 1].output
        invariant MidCall(fs, i, x, y, out.data, out.numSamples)
      {
        assert stages[i].Repr() <= Repr;
        out := RunStage(fs, i, x, y, out.data, out.numSamples);
      }
      CallEnds(fs, x, y, out.data, out.numSamples);
    }

    lemma CallBegins(x: seq<real>, data: array<real>, n: nat)
      requires Standing(x) && n <= data.Length && n <= maxInput && stages != []
      requires data !in Repr
      ensures MidCall(filters, 0, x, data[..n], data, n)
    {
      assert filters[..0] == [];
      AddedByNothing(x, data[..n]);
      forall j | 0 <= j < |stages|
        ensures data != stages[j].history && data != stages[j].output
      {
        assert stages[j].Repr() <= Repr;
      }
    }

    lemma CallEnds(fs: seq<Filter>, x: seq<real>, y: seq<real>, cur: array<real>, count: nat)
      requires Separate() && Sized() && fs == filters && forall f | f in fs :: f.WellFormed()
      requires MidCall(fs, |stages|, x, y, cur, count)
      ensures Standing(x + y) && count <= cur.Length && cur[..count] == Added(fs, x, y)
    {
      assert fs[..|fs|] == fs;
    }

    /** std::copy_n into the final buffer. */
    method CopyOut(cur: array<real>, count: nat)
      requires Valid() && count <= cur.Length && count <= finalOut.Length && cur != finalOut
      modifies finalOut
      ensures Valid()
      ensures finalOut[..count] == cur[..count]
    {
      for k := 0 to count
        invariant Valid() && finalOut[..k] == cur[..k]
      {
        finalOut[k] := cur[k];
      }
    }
  }
}
