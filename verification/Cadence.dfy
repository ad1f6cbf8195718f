/** Pacing of evaluations against the ring's write count (cpp_impl/src/linkjiru/CadenceGate.h)
    with the one backlog policy it has. Counts are unbounded. */
module Cadence {
  import opened Sums

  datatype Decision = Decision(evaluate: bool, skipped: bool)

  const WAIT := Decision(false, false)

  datatype Pace = Pace(window: nat, hop: int, requireFullWindow: bool)

  /** The decision in terms of what was evaluated before: evaluate once warm and a hop past the
      last evaluation; a window was dropped when that is overdue by another hop. */
  function Decide(p: Pace, evaluated: seq<nat>, writeCount: nat): Decision {
    if p.requireFullWindow && writeCount < p.window then WAIT
    else if p.hop <= 0 || evaluated == [] then Decision(true, false)
    else
      var behind := writeCount - evaluated[|evaluated| - 1];
      Decision(behind >= p.hop, behind >= 2 * p.hop)
  }

  /** The next evaluation is one hop past the head, whenever the previous one was due. */
  function Reschedule(writeCount: nat, prevNextAt: nat, hop: nat): nat {
    writeCount + hop
  }

  class CadenceGate {
    const pace: Pace
    var nextAt: nat
    var started: bool
    ghost var polls: seq<nat>     // the write count at every poll
    ghost var evaluated: seq<nat> // those at which it said to evaluate

    ghost predicate Valid()
      reads this
    {
      && evaluated == Evaluated(pace, polls)
      && (pace.hop > 0 ==>
            && started == (evaluated != [])
            && nextAt == if started then evaluated[|evaluated| - 1] + pace.hop else 0)
    }

    constructor (windowSamples: nat, hopSamples: int, requireFullWindow: bool)
      ensures Valid() && evaluated == polls == [] && pace == Pace(windowSamples, hopSamples, requireFullWindow)
    {
      pace := Pace(windowSamples, hopSamples, requireFullWindow);
      nextAt, started, polls, evaluated := 0, false, [], [];
    }

    method Poll(writeCount: nat) returns (d: Decision)
      requires Valid()
      modifies this
      ensures Valid() && d == Decide(pace, old(evaluated), writeCount)
      ensures evaluated == if d.evaluate then old(evaluated) + [writeCount] else old(evaluated)
      ensures polls == old(polls) + [writeCount]
    {
      assert (polls + [writeCount])[..|polls|] == polls;
      polls := polls + [writeCount];
      if pace.requireFullWindow && writeCount < pace.window {
        return WAIT;
      }
      if pace.hop <= 0 {
        evaluated := evaluated + [writeCount];
        return Decision(true, false);
      }
      if writeCount < nextAt {
        return WAIT;
      }
      var skipped := started && writeCount >= nextAt + pace.hop;
      nextAt := Reschedule(writeCount, nextAt, pace.hop);
      started := true;
      evaluated := evaluated + [writeCount];
      return Decision(true, skipped);
    }
  }

  // ---- Runs.

  /** The write counts evaluated over a run of polls. */
  function Evaluated(p: Pace, polls: seq<nat>): seq<nat> {
    if polls == [] then []
    else
      var n := |polls| - 1;
      var before := Evaluated(p, polls[..n]);
      if Decide(p, before, polls[n]).evaluate then before + [polls[n]] else before
  }

  ghost predicate Ordered(s: seq<nat>) {
    forall i, j | 0 <= i < j < |s| :: s[i] <= s[j]
  }

  /** Evaluations are polls, none before the window is full. */
  lemma {:induction false} EvaluatedArePolls(p: Pace, polls: seq<nat>)
    ensures forall e | e in Evaluated(p, polls) :: e in polls && (p.requireFullWindow ==> e >= p.window)
  {
    if polls != [] {
      EvaluatedArePolls(p, polls[..|polls| - 1]);
    }
  }

  /** Consecutive evaluations are at least a hop apart, so n of them span n - 1 hops. */
  lemma {:induction false} EvaluationsArePaced(p: Pace, polls: seq<nat>, i: nat, j: nat)
    requires p.hop > 0 && i <= j < |Evaluated(p, polls)|
    ensures Evaluated(p, polls)[j] >= Evaluated(p, polls)[i] + (j - i) * p.hop
  {
    var n := |polls| - 1;
    var before := Evaluated(p, polls[..n]);
    if j < |before| {
      EvaluationsArePaced(p, polls[..n], i, j);
    } else if i < j {
      EvaluationsArePaced(p, polls[..n], i, j - 1);
      assert (j - 1 - i) * p.hop + p.hop == (j - i) * p.hop;
    }
  }

  /** After W samples at most 1 + (W - window) / hop windows have been evaluated. */
  lemma EvaluationsAreBounded(p: Pace, polls: seq<nat>, W: nat)
    requires p.hop > 0 && p.requireFullWindow && W >= p.window
    requires forall w | w in polls :: w <= W
    ensures |Evaluated(p, polls)| <= 1 + (W - p.window) / p.hop
  {
    var es := Evaluated(p, polls);
    EvaluatedArePolls(p, polls);
    if es != [] {
      EvaluationsArePaced(p, polls, 0, |es| - 1);
      assert es[0] in es && es[|es| - 1] in es;
      Fits(|es| - 1, p.hop, W - p.window);
    }
  }

  lemma Fits(n: nat, hop: nat, span: nat)
    requires hop > 0 && n * hop <= span
    ensures n <= span / hop
  {
    QuotientAtLeast(n, hop, span / hop, span % hop);
  }

  lemma QuotientAtLeast(n: int, hop: int, q: int, r: int)
    requires n * hop <= q * hop + r && 0 <= r < hop
    ensures n <= q
  {
    if n > q {
      MulMono(q + 1, n, hop);
    }
  }

  /** Some poll found the last evaluation two hops or more behind. */
  predicate Skips(p: Pace, polls: seq<nat>, k: nat)
    requires k < |polls|
  {
    Decide(p, Evaluated(p, polls[..k]), polls[k]).skipped
  }

  /** A poll at w, just before poll k, would have been evaluated as well as poll k. */
  predicate Missed(p: Pace, polls: seq<nat>, k: nat, w: nat)
    requires k < |polls|
  {
    Evaluated(p, polls[..k] + [w, polls[k]]) == Evaluated(p, polls[..k]) + [w, polls[k]]
  }

  lemma MissedWhen(p: Pace, polls: seq<nat>, k: nat, w: nat)
    requires p.hop > 0 && k < |polls| && Evaluated(p, polls[..k]) != []
    ensures var es := Evaluated(p, polls[..k]);
            Missed(p, polls, k, w) <==> w >= es[|es| - 1] + p.hop && polls[k] >= w + p.hop
  {
    var es, two := Evaluated(p, polls[..k]), polls[..k] + [w, polls[k]];
    assert two[..k + 1] == polls[..k] + [w] && two[..k + 1][..k] == polls[..k];
    assert Evaluated(p, two[..k + 1]) == if w >= es[|es| - 1] + p.hop && Warm(p, w) then es + [w] else es;
    EvaluatedArePolls(p, polls[..k]);
    assert es[|es| - 1] in es;
    if Missed(p, polls, k, w) {
      assert |Evaluated(p, two)| == |es| + 2;
    }
  }

  predicate Warm(p: Pace, w: nat) {
    p.requireFullWindow ==> w >= p.window
  }

  /** A poll reports a dropped window exactly when another evaluation would have fitted in
      between; the first evaluation never does. */
  lemma SkippedExactly(p: Pace, polls: seq<nat>, k: nat)
    requires p.hop > 0 && k < |polls|
    ensures Skips(p, polls, k) <==> Evaluated(p, polls[..k]) != [] && exists w: nat :: Missed(p, polls, k, w)
  {
    var es := Evaluated(p, polls[..k]);
    if es != [] {
      EvaluatedArePolls(p, polls[..k]);
      assert es[|es| - 1] in es;
      forall w: nat
        ensures Missed(p, polls, k, w) <==> w >= es[|es| - 1] + p.hop && polls[k] >= w + p.hop
      {
        MissedWhen(p, polls, k, w);
      }
      MissedWhen(p, polls, k, es[|es| - 1] + p.hop);
    }
  }

  /** The last evaluation is less than a hop behind the last poll. */
  lemma LastIsRecent(p: Pace, polls: seq<nat>)
    requires p.hop > 0 && |Evaluated(p, polls)| > 0 && Ordered(polls)
    ensures var es := Evaluated(p, polls); es[|es| - 1] > polls[|polls| - 1] - p.hop
  {
    var n := |polls| - 1;
    var before := Evaluated(p, polls[..n]);
    if !Decide(p, before, polls[n]).evaluate && before != [] {
      EvaluatedArePolls(p, polls[..n]);
      assert before[|before| - 1] in polls[..n];
    }
  }

  /** Polled at most a hop apart, the gate never drops a window. */
  lemma NothingSkippedWhenPolledEachHop(p: Pace, polls: seq<nat>, k: nat)
    requires p.hop > 0 && Ordered(polls) && k < |polls|
    requires k > 0 ==> polls[k] <= polls[k - 1] + p.hop
    ensures !Skips(p, polls, k)
  {
    if k > 0 && Evaluated(p, polls[..k]) != [] {
      LastIsRecent(p, polls[..k]);
    }
  }

  /** Once warm, polls at most s samples apart leave less than hop + s samples between one
      evaluation and the next, so a busy poller still evaluates at a steady rate. */
  lemma {:induction false} EvaluationsKeepUp(p: Pace, polls: seq<nat>, s: nat, i: nat)
    requires p.hop > 0 && Ordered(polls) && i + 1 < |Evaluated(p, polls)|
    requires forall k | 0 < k < |polls| :: polls[k] <= polls[k - 1] + s
    ensures Evaluated(p, polls)[i + 1] < Evaluated(p, polls)[i] + p.hop + s
  {
    var n := |polls| - 1;
    var before := Evaluated(p, polls[..n]);
    if i + 1 < |before| {
      EvaluationsKeepUp(p, polls[..n], s, i);
    } else {
      LastIsRecent(p, polls[..n]);
    }
  }
}
