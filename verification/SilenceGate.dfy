/** Silence and send gating (cpp_impl/src/linkjiru/GatingLogic.hpp), with the default
    configuration the manager uses. The level of a window is a parameter. */
module SilenceGate {
  import opened Basics
  import opened Sums

  const WAKE_RATIO: real := 3.0
  const SILENCE_RATIO: real := 1.6
  const FLOOR_RISE: real := 0.0015
  const MIN_FLOOR: real := 0.00001
  const HOLD_MS := 300
  const SEND_KEEPALIVE_MS := 500

  datatype Gate = Gate(noiseFloor: real, awake: bool, lastLoudMs: int)

  const ASLEEP := Gate(0.0001, false, 0)

  /** The noise floor drops at once and rises slowly. */
  function Tracked(floor: real, rms: real): real {
    if rms < floor then rms else floor + (rms - floor) * FLOOR_RISE
  }

  function Ticked(g: Gate, rms: real, now: int): Gate {
    var floor := Tracked(g.noiseFloor, rms);
    var threshold := MaxReal(floor, MIN_FLOOR);
    var awake := if g.awake then rms >= threshold * SILENCE_RATIO else rms > threshold * WAKE_RATIO;
    Gate(floor, awake, if awake then now else g.lastLoudMs)
  }

  predicate Evaluates(g: Gate, now: int) {
    g.awake || now - g.lastLoudMs < HOLD_MS
  }

  datatype Sent = Sent(value: real, ms: int)

  const NEVER_SENT := Sent(-1.0, -1000000)

  predicate Due(s: Sent, value: real, now: int) {
    value != s.value || now - s.ms >= SEND_KEEPALIVE_MS
  }

  class GatingLogic {
    var noiseFloor: real
    var awake: bool
    var lastLoudMs: int
    var lastSent: real
    var lastSentMs: int

    ghost function Silence(): Gate
      reads `noiseFloor, `awake, `lastLoudMs
    {
      Gate(noiseFloor, awake, lastLoudMs)
    }

    ghost function LastSend(): Sent
      reads `lastSent, `lastSentMs
    {
      Sent(lastSent, lastSentMs)
    }

    constructor ()
      ensures Silence() == ASLEEP && LastSend() == NEVER_SENT
    {
      noiseFloor, awake, lastLoudMs := 0.0001, false, 0;
      lastSent, lastSentMs := -1.0, -1000000;
    }

    method ShouldEvaluate(windowRms: real, nowMs: int) returns (evaluate: bool)
      modifies `noiseFloor, `awake, `lastLoudMs
      ensures Silence() == Ticked(old(Silence()), windowRms, nowMs)
      ensures evaluate == Evaluates(Silence(), nowMs)
    {
      if windowRms < noiseFloor {
        noiseFloor := windowRms;
      } else {
        noiseFloor := noiseFloor + (windowRms - noiseFloor) * FLOOR_RISE;
      }
      var floor := MaxReal(noiseFloor, MIN_FLOOR);
      if awake {
        if windowRms < floor * SILENCE_RATIO {
          awake := false;
        } else {
          lastLoudMs := nowMs;
        }
      } else if windowRms > floor * WAKE_RATIO {
        awake := true;
        lastLoudMs := nowMs;
      }
      return awake || nowMs - lastLoudMs < HOLD_MS;
    }

    method ShouldSend(detectValue: real, nowMs: int) returns (send: bool)
      modifies `lastSent, `lastSentMs
      ensures send == Due(old(LastSend()), detectValue, nowMs)
      ensures LastSend() == if send then Sent(detectValue, nowMs) else old(LastSend())
    {
      if detectValue != lastSent || nowMs - lastSentMs >= SEND_KEEPALIVE_MS {
        lastSent := detectValue;
        lastSentMs := nowMs;
        return true;
      }
      return false;
    }
  }

  // ---- Runs of the silence gate.

  datatype Tick = Tick(rms: real, now: int)

  function After(ts: seq<Tick>, k: nat): Gate
    requires k <= |ts|
  {
    if k == 0 then ASLEEP else Ticked(After(ts, k - 1), ts[k - 1].rms, ts[k - 1].now)
  }

  lemma {:induction false} AfterMore(ts: seq<Tick>, t: Tick, k: nat)
    requires k <= |ts|
    ensures After(ts + [t], k) == After(ts, k)
  {
    if k > 0 {
      AfterMore(ts, t, k - 1);
    }
  }

  ghost predicate Ordered(ts: seq<Tick>) {
    forall i, j | 0 <= i < j < |ts| :: ts[i].now <= ts[j].now
  }

  /** The gate was awake after tick i. */
  predicate AwakeAt(ts: seq<Tick>, i: nat)
    requires 1 <= i <= |ts|
  {
    After(ts, i).awake
  }

  /** The level at which the gate turns, for a floor that is not negative. A sleeping gate wakes
      above 5991/1991 of the floor before the tick, as three times the floor after it comes to,
      and above three times the least floor; an awake gate stays awake from 1997/1247 of the
      floor on, and from 1.6 times the least floor. */
  lemma TurnsExactly(g: Gate, rms: real, now: int)
    requires g.noiseFloor >= 0.0
    ensures Ticked(g, rms, now).awake <==>
            if g.awake
            then 1247.0 * rms >= 1997.0 * g.noiseFloor && rms >= 0.000016
            else 1991.0 * rms > 5991.0 * g.noiseFloor && rms > 0.00003
  {
    assert rms >= g.noiseFloor ==> Tracked(g.noiseFloor, rms) == 0.9985 * g.noiseFloor + 0.0015 * rms;
  }

  /** `lastLoudMs` is the time of the latest awake tick, or 0 before there is one. */
  lemma {:induction false} LastLoud(ts: seq<Tick>, k: nat) returns (j: nat)
    requires k <= |ts|
    ensures j <= k && forall i | j < i <= k :: !AwakeAt(ts, i)
    ensures j == 0 ==> After(ts, k).lastLoudMs == 0
    ensures j > 0 ==> AwakeAt(ts, j) && After(ts, k).lastLoudMs == ts[j - 1].now
  {
    if k == 0 {
      j := 0;
    } else {
      j := LastLoud(ts, k - 1);
      if AwakeAt(ts, k) {
        j := k;
      }
    }
  }

  ghost predicate NeverAwake(ts: seq<Tick>, k: nat)
    requires k <= |ts|
  {
    forall i | 1 <= i <= k :: !AwakeAt(ts, i)
  }

  ghost predicate AwakeWithin(ts: seq<Tick>, k: nat, now: int)
    requires k <= |ts|
  {
    exists i | 1 <= i <= k :: AwakeAt(ts, i) && now - ts[i - 1].now < 300
  }

  lemma LatestAwakeDecides(ts: seq<Tick>, k: nat, j: nat, now: int)
    requires Ordered(ts) && 1 <= j <= k <= |ts| && AwakeAt(ts, j)
    requires forall i | j < i <= k :: !AwakeAt(ts, i)
    ensures AwakeWithin(ts, k, now) <==> now - ts[j - 1].now < 300
  {
    if AwakeWithin(ts, k, now) {
      var i :| 1 <= i <= k && AwakeAt(ts, i) && now - ts[i - 1].now < 300;
      if i < j {
        assert ts[i - 1].now <= ts[j - 1].now;
      }
    }
  }

  /** The model runs on a tick exactly when some tick less than the hold time ago was awake;
      before the first awake tick, only while the clock itself is below the hold time. */
  lemma RunsForTheHoldTime(ts: seq<Tick>, k: nat)
    requires Ordered(ts) && 1 <= k <= |ts|
    ensures var now := ts[k - 1].now;
            Evaluates(After(ts, k), now) <==>
            AwakeWithin(ts, k, now) || (NeverAwake(ts, k) && now < 300)
  {
    var j := LastLoud(ts, k);
    if j > 0 {
      LatestAwakeDecides(ts, k, j, ts[k - 1].now);
      assert !NeverAwake(ts, k);
      assert j == k <==> AwakeAt(ts, k);
    }
  }

  // ---- Steady sound.

  function Power(x: real, n: nat): real {
    if n == 0 then 1.0 else x * Power(x, n - 1)
  }

  lemma {:induction false} PowerAdds(x: real, m: nat, n: nat)
    ensures Power(x, m + n) == Power(x, m) * Power(x, n)
  {
    if m > 0 {
      PowerAdds(x, m - 1, n);
      assert m - 1 + n == m + n - 1;
      Associates(x, Power(x, m - 1), Power(x, n));
    }
  }

  lemma Associates(a: real, b: real, c: real)
    ensures a * (b * c) == (a * b) * c
  {
  }

  lemma ProductBetween(a: real, b: real, la: real, lb: real, ha: real, hb: real)
    requires 0.0 <= la <= a <= ha && 0.0 <= lb <= b <= hb
    ensures la * lb <= a * b <= ha * hb
  {
    ProductMono(lb, la, a);
    ProductMono(a, lb, b);
    ProductMono(b, a, ha);
    ProductMono(ha, b, hb);
  }

  lemma PowerBetween(x: real, m: nat, n: nat, lm: real, hm: real, ln: real, hn: real)
    requires 0.0 <= lm <= Power(x, m) <= hm && 0.0 <= ln <= Power(x, n) <= hn
    ensures lm * ln <= Power(x, m + n) <= hm * hn
  {
    PowerAdds(x, m, n);
    ProductBetween(Power(x, m), Power(x, n), lm, ln, hm, hn);
  }

  /** The share of the gap between floor and level that is left after n ticks of it. */
  const KEPT: real := 0.9985

  // In the next four, n stands for 1, so that the literal powers are not computed.

  lemma PowerUpTo32(x: real, n: nat)
    requires x == KEPT && n == 1
    ensures 0.9880626 <= Power(x, 8 * n) <= 0.9880629
    ensures 0.9821474 <= Power(x, 12 * n) <= 0.9821479
    ensures 0.9530984 <= Power(x, 32 * n) <= 0.9530998
  {
    assert Power(x, n) == x * Power(x, n - 1);
    PowerBetween(x, n, n, 0.9985, 0.9985, 0.9985, 0.9985);
    PowerBetween(x, 2 * n, 2 * n, 0.99700225, 0.99700225, 0.99700225, 0.99700225);
    PowerBetween(x, 4 * n, 4 * n, 0.9940134, 0.9940135, 0.9940134, 0.9940135);
    PowerBetween(x, 8 * n, 4 * n, 0.9880626, 0.9880629, 0.9940134, 0.9940135);
    PowerBetween(x, 8 * n, 8 * n, 0.9880626, 0.9880629, 0.9880626, 0.9880629);
    PowerBetween(x, 16 * n, 16 * n, 0.9762676, 0.9762683, 0.9762676, 0.9762683);
  }

  lemma PowerOf128(x: real, n: nat)
    requires x == KEPT && n == 1
    ensures 0.8251842 <= Power(x, 128 * n) <= 0.8251893
  {
    PowerUpTo32(x, n);
    PowerBetween(x, 32 * n, 32 * n, 0.9530984, 0.9530998, 0.9530984, 0.9530998);
    PowerBetween(x, 64 * n, 64 * n, 0.9083965, 0.9083993, 0.9083965, 0.9083993);
  }

  lemma PowerOf512(x: real, n: nat)
    requires x == KEPT && n == 1
    ensures 0.4636641 <= Power(x, 512 * n) <= 0.4636758
  {
    PowerOf128(x, n);
    PowerBetween(x, 128 * n, 128 * n, 0.8251842, 0.8251893, 0.8251842, 0.8251893);
    PowerBetween(x, 256 * n, 256 * n, 0.6809289, 0.6809374, 0.6809289, 0.6809374);
  }

  lemma PowerOf141(x: real, n: nat)
    requires x == KEPT && n == 1
    ensures 0.8092367 <= Power(x, 141 * n) <= 0.8092424
  {
    PowerUpTo32(x, n);
    PowerOf128(x, n);
    assert Power(x, n) == x * Power(x, n - 1);
    PowerBetween(x, 12 * n, n, 0.9821474, 0.9821479, 0.9985, 0.9985);
    PowerBetween(x, 128 * n, 13 * n, 0.8251842, 0.8251893, 0.9806741, 0.9806747);
  }

  lemma LeftAfter654(x: real, n: nat)
    requires x == KEPT && n == 1
    ensures Power(x, 653 * n) > 0.375 > Power(x, 654 * n)
  {
    PowerOf141(x, n);
    PowerOf512(x, n);
    assert Power(x, n) == x * Power(x, n - 1);
    PowerBetween(x, 512 * n, 141 * n, 0.4636641, 0.4636758, 0.8092367, 0.8092424);
    PowerBetween(x, 653 * n, n, 0.375214, 0.375227, 0.9985, 0.9985);
  }

  lemma {:induction false} PowerFalls(m: nat, n: nat)
    requires m <= n
    ensures 0.0 < Power(KEPT, n) <= Power(KEPT, m)
    decreases n
  {
    if n > 0 {
      PowerFalls(if m < n then m else m - 1, n - 1);
    }
    if m == n > 0 {
      PowerFalls(m - 1, m - 1);
    }
  }

  /** More than 3/8 of the gap is left for 653 ticks, less from the 654th. */
  lemma LeftAfter(k: nat, n: nat)
    requires n == 1
    ensures k >= 654 <==> Power(KEPT, k) < 0.375
    ensures k <= 653 <==> Power(KEPT, k) > 0.375
  {
    LeftAfter654(KEPT, n);
    if k >= 654 {
      PowerFalls(654 * n, k);
    } else {
      PowerFalls(k, 653 * n);
    }
  }

  ghost predicate NonNegative(ts: seq<Tick>) {
    forall t | t in ts :: t.rms >= 0.0
  }

  lemma {:induction false} FloorNonNegative(ts: seq<Tick>, k: nat)
    requires NonNegative(ts) && k <= |ts|
    ensures After(ts, k).noiseFloor >= 0.0
  {
    if k > 0 {
      FloorNonNegative(ts, k - 1);
      assert ts[k - 1] in ts;
    }
  }

  /** What is left of a gap r after n ticks. */
  function Gap(r: real, n: nat): real {
    if n == 0 then r else KEPT * Gap(r, n - 1)
  }

  lemma {:induction false} GapIsShare(r: real, n: nat)
    ensures Gap(r, n) == r * Power(KEPT, n)
  {
    if n > 0 {
      GapIsShare(r, n - 1);
      Associates(r, KEPT, Power(KEPT, n - 1));
      Associates(KEPT, r, Power(KEPT, n - 1));
    }
  }

  lemma GapShrinks(f: real, r: real, g: real)
    requires f >= r - g && g >= 0.0
    ensures Tracked(f, r) >= r - KEPT * g
    ensures f == r - g ==> Tracked(f, r) == r - KEPT * g
  {
    assert f <= r ==> Tracked(f, r) == r - KEPT * (r - f);
  }

  lemma FloorNext(ts: seq<Tick>, k: nat)
    requires 1 <= k <= |ts|
    ensures After(ts, k).noiseFloor == Tracked(After(ts, k - 1).noiseFloor, ts[k - 1].rms)
  {
  }

  /** n ticks of one level r bring the floor to within r * 0.9985^n of it. */
  lemma {:induction false} FloorRises(ts: seq<Tick>, k: nat, n: nat, r: real)
    requires k + n <= |ts| && r >= 0.0 && After(ts, k).noiseFloor >= 0.0
    requires forall i | k <= i < k + n :: ts[i].rms == r
    ensures Gap(r, n) >= 0.0
    ensures After(ts, k + n).noiseFloor >= r - Gap(r, n)
    ensures After(ts, k).noiseFloor == 0.0 ==> After(ts, k + n).noiseFloor == r - Gap(r, n)
    decreases n
  {
    if n > 0 {
      FloorRises(ts, k, n - 1, r);
      FloorNext(ts, k + n);
      GapShrinks(After(ts, k + n - 1).noiseFloor, r, Gap(r, n - 1));
    }
  }

  lemma SleepsAt(g: Gate, r: real, gap: real, now: int)
    requires r >= 0.0 && gap >= 0.0 && (r > 0.0 ==> gap < 0.375 * r)
    requires Tracked(g.noiseFloor, r) >= r - gap
    ensures !Ticked(g, r, now).awake
  {
  }

  lemma Shrunk(r: real, p: real, gap: real)
    requires r > 0.0 && p < 0.375 && gap == r * p
    ensures gap < 0.375 * r
  {
  }

  lemma GapCloses(r: real, n: nat)
    requires r > 0.0 && n >= 654
    ensures Gap(r, n) < 0.375 * r
  {
    GapIsShare(r, n);
    LeftAfter(n, 1);
    Shrunk(r, Power(KEPT, n), Gap(r, n));
  }

  /** Steady sound is silence: after 654 ticks of one level the gate is asleep, and stays so
      while the level lasts, whatever came before. */
  lemma SteadySoundSleeps(ts: seq<Tick>, k: nat, n: nat, r: real)
    requires NonNegative(ts) && n >= 654 && k + n <= |ts| && r >= 0.0
    requires forall i | k <= i < k + n :: ts[i].rms == r
    ensures !AwakeAt(ts, k + n)
  {
    FloorNonNegative(ts, k);
    FloorRises(ts, k, n, r);
    FloorNext(ts, k + n);
    if r > 0.0 {
      GapCloses(r, n);
    }
    SleepsAt(After(ts, k + n - 1), r, Gap(r, n), ts[k + n - 1].now);
  }

  lemma StaysAwakeAt(g: Gate, p: real, now: int)
    requires 0.375 < p < 1.0 && Tracked(g.noiseFloor, 1.0) == 1.0 - p && (g.awake || p == KEPT)
    ensures Ticked(g, 1.0, now).awake
  {
  }

  /** No smaller number does: full-scale sound after digital silence keeps the gate awake for
      653 ticks. */
  lemma {:induction false} SteadySoundStaysAwake(ts: seq<Tick>, n: nat)
    requires 1 <= n <= 653 && 1 + n <= |ts| && ts[0].rms == 0.0
    requires forall i | 1 <= i <= n :: ts[i].rms == 1.0
    ensures AwakeAt(ts, 1 + n)
  {
    assert After(ts, 1).noiseFloor == 0.0;
    FloorRises(ts, 1, n, 1.0);
    GapIsShare(1.0, n);
    FloorNext(ts, 1 + n);
    LeftAfter(n, 1);
    PowerFalls(1, n);
    assert Power(KEPT, 1) == KEPT;
    if n > 1 {
      SteadySoundStaysAwake(ts, n - 1);
    }
    StaysAwakeAt(After(ts, n), Power(KEPT, n), ts[n].now);
  }

  // ---- Runs of the send gate.

  datatype Call = Call(value: real, now: int)

  function SentAfter(cs: seq<Call>, k: nat): Sent
    requires k <= |cs|
  {
    if k == 0 then NEVER_SENT
    else
      var s := SentAfter(cs, k - 1);
      if Due(s, cs[k - 1].value, cs[k - 1].now) then Sent(cs[k - 1].value, cs[k - 1].now) else s
  }

  lemma {:induction false} SentAfterMore(cs: seq<Call>, c: Call, k: nat)
    requires k <= |cs|
    ensures SentAfter(cs + [c], k) == SentAfter(cs, k)
  {
    if k > 0 {
      SentAfterMore(cs, c, k - 1);
    }
  }

  predicate SendsAt(cs: seq<Call>, k: nat)
    requires 1 <= k <= |cs|
  {
    Due(SentAfter(cs, k - 1), cs[k - 1].value, cs[k - 1].now)
  }

  /** Call i repeats the value v and sends nothing. */
  predicate Repeats(cs: seq<Call>, i: int, v: real) {
    1 <= i <= |cs| && !SendsAt(cs, i) && cs[i - 1].value == v
  }

  ghost predicate RepeatsThrough(cs: seq<Call>, j: int, k: int, v: real) {
    forall i | j < i <= k :: Repeats(cs, i, v)
  }

  lemma FirstCallSends(cs: seq<Call>)
    requires |cs| >= 1 && cs[0].now >= 0
    ensures SendsAt(cs, 1)
  {
  }

  /** Unless call k sends, it repeats what was sent last, less than the keepalive time ago. */
  lemma SilentCall(cs: seq<Call>, k: nat)
    requires 1 <= k <= |cs| && !SendsAt(cs, k)
    ensures SentAfter(cs, k) == SentAfter(cs, k - 1)
    ensures cs[k - 1].value == SentAfter(cs, k - 1).value
    ensures cs[k - 1].now - SentAfter(cs, k - 1).ms < 500
  {
  }

  /** Between calls i and k nothing is sent. */
  ghost predicate QuietBetween(cs: seq<Call>, i: nat, k: nat)
    requires 1 <= i <= k <= |cs|
  {
    forall m | i < m < k :: !SendsAt(cs, m)
  }

  lemma {:induction false} SentUntil(cs: seq<Call>, i: nat, k: nat)
    requires 1 <= i < k <= |cs| && SendsAt(cs, i) && QuietBetween(cs, i, k)
    ensures SentAfter(cs, k - 1) == Sent(cs[i - 1].value, cs[i - 1].now)
  {
    if i < k - 1 {
      SentUntil(cs, i, k - 1);
      assert !SendsAt(cs, k - 1);
    }
  }

  /** Nothing is sent in vain: the next send after call i brings another value, or comes the
      keepalive time later. And the first call to do so sends. */
  lemma NextSendExactly(cs: seq<Call>, i: nat, k: nat)
    requires 1 <= i < k <= |cs| && SendsAt(cs, i) && QuietBetween(cs, i, k)
    ensures SendsAt(cs, k) <==> cs[k - 1].value != cs[i - 1].value || cs[k - 1].now >= cs[i - 1].now + 500
  {
    SentUntil(cs, i, k);
  }

  /** After every call the last value sent is the current one, and was sent less than the
      keepalive time ago; j is the call that sent it. */
  lemma {:induction false} LastSendIsCurrent(cs: seq<Call>, k: nat) returns (j: nat)
    requires 1 <= k <= |cs| && forall c | c in cs :: c.now >= 0
    ensures 1 <= j <= k && SendsAt(cs, j) && SentAfter(cs, k) == Sent(cs[j - 1].value, cs[j - 1].now)
    ensures cs[j - 1].value == cs[k - 1].value && cs[k - 1].now - cs[j - 1].now < 500
    ensures RepeatsThrough(cs, j, k, cs[k - 1].value)
  {
    if SendsAt(cs, k) {
      j := k;
    } else {
      assert cs[0] in cs;
      FirstCallSends(cs);
      j := LastSendIsCurrent(cs, k - 1);
      SilentCall(cs, k);
      assert RepeatsThrough(cs, j, k - 1, cs[k - 1].value) && Repeats(cs, k, cs[k - 1].value);
    }
  }
}
