/** The inference runner as an object (cpp_impl/src/linkjiru/OnnxRunner.hpp): what kick,
    tryHarvest and onComplete do to its fields when nothing comes in between, and that this is
    one of the runs of the interleaved hand-off. */
module InferenceRunner {
  import opened Basics
  import opened InferenceHandoff

  // ---- Whole calls.

  /** kick(): nothing unless ready, healthy and idle. */
  function Kicked(s: State, window: seq<real>, throws: bool): State {
    if !s.prepared || s.hardFailed || s.running then s
    else
      var input := Padded(window, |s.input|);
      var cleared := s.(input := input, resultReady := false,
                        discarded := if s.resultReady then s.discarded + 1 else s.discarded);
      if throws then cleared.(hardFailed := true)
      else cleared.(running := true, workers := s.workers + [Computing(|s.windows|)], windows := s.windows + [input])
  }

  /** tryHarvest(): the scores of the newest run, once. */
  function Harvested(s: State): State {
    if s.resultReady then s.(resultReady := false, harvests := s.harvests + [Harvest(|s.windows| - 1, s.scores)])
    else s
  }

  /** onComplete() of run k: its scores, or none after an error. */
  function Completed(s: State, k: nat, scores: Option<seq<real>>): State
    requires k < |s.workers| && s.workers[k].Computing?
  {
    var left := s.workers[..k] + s.workers[k + 1..];
    match scores
    case None => s.(hardFailed := true, running := false, workers := left)
    case Some(output) =>
      s.(output := output, scores := output, results := s.results[s.workers[k].run := output],
         resultReady := true, running := false, published := s.published + 1, workers := left)
  }

  // ---- Each is a run of atomic steps.

  lemma {:induction false} RunConcat(s: State, a: seq<Event>, b: seq<Event>)
    requires Run(s, a).Some?
    ensures Run(s, a + b) == Run(Run(s, a).value, b)
    decreases |a|
  {
    if a == [] {
      assert a + b == b;
    } else {
      assert (a + b)[1..] == a[1..] + b;
      RunConcat(Apply(s, a[0]), a[1..], b);
    }
  }

  lemma RunOne(s: State, e: Event)
    requires Enabled(s, e)
    ensures Run(s, [e]) == Some(Apply(s, e))
  {
  }

  function Repeat(e: Event, n: nat): seq<Event> {
    seq(n, i => e)
  }

  lemma {:induction false} RunWrites(s: State, n: nat)
    requires s.caller.Writing? && |s.caller.window| == |s.input| && s.caller.done + n == |s.input| && n >= 1
    requires s.input[..s.caller.done] == s.caller.window[..s.caller.done]
    ensures Run(s, Repeat(WriteInput, n)) == Some(s.(input := s.caller.window, caller := Clearing))
    decreases n
  {
    var es, t := Repeat(WriteInput, n), Apply(s, WriteInput);
    assert es[1..] == Repeat(WriteInput, n - 1);
    assert Run(s, es) == Run(t, es[1..]);
    if n == 1 {
      assert t.input == s.caller.window;
    } else {
      RunWrites(t, n - 1);
    }
  }

  lemma {:induction false} RunReads(s: State, n: nat)
    requires s.caller.Reading? && |s.caller.got| + n == |s.scores| && n >= 1
    requires s.caller.got == s.scores[..|s.caller.got|]
    ensures Run(s, Repeat(ReadScore, n)) ==
            Some(s.(caller := Idle, harvests := s.harvests + [Harvest(s.caller.run, s.scores)]))
    decreases n
  {
    var es, t := Repeat(ReadScore, n), Apply(s, ReadScore);
    assert es[1..] == Repeat(ReadScore, n - 1);
    assert Run(s, es) == Run(t, es[1..]);
    assert s.caller.got + [s.scores[|s.caller.got|]] == s.scores[..|s.caller.got| + 1];
    if n == 1 {
      assert s.scores[..|s.scores|] == s.scores;
    } else {
      RunReads(t, n - 1);
    }
  }

  lemma {:induction false} RunStores(s: State, k: nat, n: nat)
    requires k < |s.workers| && s.workers[k].Publishing? && |s.scores| == |s.output|
    requires s.workers[k].done + n == |s.scores| && s.scores[..s.workers[k].done] == s.output[..s.workers[k].done]
    ensures Run(s, Repeat(StoreScore(k), n)) ==
            Some(s.(scores := s.output, workers := s.workers[k := Publishing(s.workers[k].run, |s.scores|)]))
    decreases n
  {
    var es := Repeat(StoreScore(k), n);
    if n == 0 {
      assert es == [] && s.scores == s.output;
      assert s.workers[k := s.workers[k]] == s.workers;
    } else {
      var t, run := Apply(s, StoreScore(k)), s.workers[k].run;
      assert es[0] == StoreScore(k) && es[1..] == Repeat(StoreScore(k), n - 1);
      assert Run(s, es) == Run(t, es[1..]);
      RunStores(t, k, n - 1);
      assert t.workers[k := Publishing(run, |s.scores|)] == s.workers[k := Publishing(run, |s.scores|)];
    }
  }

  function KickSteps(s: State, window: seq<real>, throws: bool): seq<Event> {
    if !s.prepared || s.hardFailed then [Kick(window)]
    else if s.running then [Kick(window), CheckRunning]
    else
      [Kick(window), CheckRunning] + Repeat(WriteInput, |s.input|) + [ClearReady, SetRunning] +
      (if throws then [Launch(true), ClearRunning, SetFailed] else [Launch(false)])
  }

  /** The check, the copy into the input buffer, and the call. */
  lemma KickFills(s: State, window: seq<real>)
    requires s.caller.Idle? && s.prepared && !s.hardFailed && !s.running
    ensures Run(s, [Kick(window), CheckRunning] + Repeat(WriteInput, |s.input|)) ==
            Some(s.(input := Padded(window, |s.input|), caller := Clearing))
  {
    var n := |s.input|;
    var a := Apply(s, Kick(window));
    var b := Apply(a, CheckRunning);
    RunTwo(s, Kick(window), CheckRunning);
    RunConcat(s, [Kick(window), CheckRunning], Repeat(WriteInput, n));
    if n > 0 {
      RunWrites(b, n);
    } else {
      assert Repeat(WriteInput, 0) == [] && Padded(window, 0) == s.input;
    }
  }

  lemma RunTwo(s: State, e: Event, f: Event)
    requires Enabled(s, e) && Enabled(Apply(s, e), f)
    ensures Run(s, [e, f]) == Some(Apply(Apply(s, e), f))
  {
    assert [e, f][1..] == [f];
    RunOne(Apply(s, e), f);
  }

  lemma RunThree(s: State, e: Event, f: Event, g: Event)
    requires Enabled(s, e) && Enabled(Apply(s, e), f) && Enabled(Apply(Apply(s, e), f), g)
    ensures Run(s, [e, f, g]) == Some(Apply(Apply(Apply(s, e), f), g))
  {
    assert [e, f, g][1..] == [f, g];
    RunTwo(Apply(s, e), f, g);
  }

  /** kick() undisturbed is a run of the hand-off. */
  lemma KickIsARun(s: State, window: seq<real>, throws: bool)
    requires s.caller.Idle?
    ensures Run(s, KickSteps(s, window, throws)) == Some(Kicked(s, window, throws))
  {
    if !s.prepared || s.hardFailed {
      RunOne(s, Kick(window));
    } else if s.running {
      RunTwo(s, Kick(window), CheckRunning);
    } else {
      var front := [Kick(window), CheckRunning] + Repeat(WriteInput, |s.input|);
      var call := if throws then [Launch(true), ClearRunning, SetFailed] else [Launch(false)];
      KickFills(s, window);
      var filled := Run(s, front).value;
      RunTwo(filled, ClearReady, SetRunning);
      var armed := Run(filled, [ClearReady, SetRunning]).value;
      RunConcat(s, front, [ClearReady, SetRunning]);
      RunConcat(s, front + [ClearReady, SetRunning], call);
      if throws {
        RunThree(armed, Launch(true), ClearRunning, SetFailed);
      } else {
        RunOne(armed, Launch(false));
      }
    }
  }

  function HarvestSteps(s: State): seq<Event> {
    [TryHarvest] + if s.resultReady then Repeat(ReadScore, |s.scores|) else []
  }

  /** So is tryHarvest(). */
  lemma HarvestIsARun(s: State)
    requires s.caller.Idle? && |s.scores| >= 1
    ensures Run(s, HarvestSteps(s)) == Some(Harvested(s))
  {
    RunOne(s, TryHarvest);
    if s.resultReady {
      RunConcat(s, [TryHarvest], Repeat(ReadScore, |s.scores|));
      RunReads(Apply(s, TryHarvest), |s.scores|);
    } else {
      assert [TryHarvest] + [] == [TryHarvest];
    }
  }

  function CompleteSteps(s: State, k: nat, scores: Option<seq<real>>): seq<Event> {
    match scores
    case None => [FinishError(k), StoreFailed(k), Release(k)]
    case Some(output) => [Finish(k, output)] + Repeat(StoreScore(k), |s.scores|) + [StoreReady(k), Release(k)]
  }

  /** So is onComplete(). */
  lemma CompletionIsARun(s: State, k: nat, scores: Option<seq<real>>)
    requires k < |s.workers| && s.workers[k].Computing? && |s.scores| == |s.output|
    requires scores.Some? ==> |scores.value| == |s.scores|
    ensures Run(s, CompleteSteps(s, k, scores)) == Some(Completed(s, k, scores))
  {
    match scores
    case None =>
      RunThree(s, FinishError(k), StoreFailed(k), Release(k));
    case Some(output) =>
      StoresAfterFinish(s, k, output);
      var stores := [Finish(k, output)] + Repeat(StoreScore(k), |s.scores|);
      RunTwo(Run(s, stores).value, StoreReady(k), Release(k));
      RunConcat(s, stores, [StoreReady(k), Release(k)]);
  }

  /** The scores, all in place. */
  lemma StoresAfterFinish(s: State, k: nat, output: seq<real>)
    requires k < |s.workers| && s.workers[k].Computing? && |s.scores| == |s.output| == |output|
    ensures var run := s.workers[k].run;
            Run(s, [Finish(k, output)] + Repeat(StoreScore(k), |s.scores|)) ==
            Some(s.(output := output, scores := output, results := s.results[run := output],
                    workers := s.workers[k := Publishing(run, |s.scores|)]))
  {
    var done := Apply(s, Finish(k, output));
    RunOne(s, Finish(k, output));
    RunStores(done, k, |s.scores|);
    RunConcat(s, [Finish(k, output)], Repeat(StoreScore(k), |s.scores|));
    var last := Publishing(s.workers[k].run, |s.scores|);
    assert done.workers[k := last] == s.workers[k := last];
  }

  lemma CallsKeepInv(s: State, es: seq<Event>, t: State)
    requires Inv(s) && Run(s, es) == Some(t)
    ensures Inv(t)
  {
    RunKeepsInv(s, es);
  }

  // ---- The object.

  class OnnxRunner {
    const inputBuf: array<real>
    const outputBuf: array<real>
    const classScore: array<real>
    var ready: bool
    var hardFailed: bool
    var running: bool
    var resultReady: bool

    // the session's asynchronous runs, and what has happened so far
    ghost var workers: seq<Worker>
    ghost var windows: seq<seq<real>>
    ghost var results: map<int, seq<real>>
    ghost var harvests: seq<Harvest>
    ghost var published: nat
    ghost var discarded: nat

    ghost function Abs(): State
      reads this, inputBuf, outputBuf, classScore
    {
      State(ready, running, resultReady, hardFailed, classScore[..], inputBuf[..], outputBuf[..], Idle,
            workers, windows, results, harvests, published, discarded)
    }

    ghost predicate Apart() {
      && inputBuf != outputBuf && inputBuf != classScore && outputBuf != classScore
      && classScore.Length == outputBuf.Length >= 1
    }

    ghost predicate Valid()
      reads this, inputBuf, outputBuf, classScore
    {
      Apart() && Inv(Abs())
    }

    constructor (prepared: bool, windowSize: nat, classes: nat)
      requires classes >= 1
      ensures Valid() && Abs() == Init(prepared, windowSize, classes)
    {
      inputBuf := new real[windowSize](_ => 0.0);
      outputBuf := new real[classes](_ => 0.0);
      classScore := new real[classes](_ => 0.0);
      ready, hardFailed, running, resultReady := prepared, false, false, false;
      workers, windows, results, harvests, published, discarded := [], [], map[], [], 0, 0;
      new;
      InitInv(prepared, windowSize, classes);
      assert Abs() == Init(prepared, windowSize, classes);
    }

    /** copy_n of as much as fits, then zeros. */
    method FillInput(window: seq<real>)
      modifies inputBuf
      ensures inputBuf[..] == Padded(window, inputBuf.Length)
    {
      var count := Min(|window|, inputBuf.Length);
      for i := 0 to count
        invariant forall j | 0 <= j < i :: inputBuf[j] == window[j]
      {
        inputBuf[i] := window[i];
      }
      for i := count to inputBuf.Length
        invariant forall j | 0 <= j < count :: inputBuf[j] == window[j]
        invariant forall j | count <= j < i :: inputBuf[j] == 0.0
      {
        inputBuf[i] := 0.0;
      }
    }

    /** Start an asynchronous run; `throws` says whether RunAsync does. */
    method Kick(window: seq<real>, throws: bool)
      requires Valid()
      modifies this, inputBuf
      ensures Valid() && Abs() == Kicked(old(Abs()), window, throws)
      ensures old(ready && !hardFailed && !running) ==>
                && inputBuf[..] == Padded(window, inputBuf.Length) && !resultReady
                && running == !throws && hardFailed == throws
                && windows == if throws then old(windows) else old(windows) + [inputBuf[..]]
    {
      ghost var before := Abs();
      KickIsARun(before, window, throws);
      CallsKeepInv(before, KickSteps(before, window, throws), Kicked(before, window, throws));
      if ready && !hardFailed && !running {
        Launch(window, throws);
      }
    }

    method Launch(window: seq<real>, throws: bool)
      requires Apart() && ready && !hardFailed && !running
      modifies `discarded, `resultReady, `running, `hardFailed, `workers, `windows, inputBuf
      ensures Abs() == Kicked(old(Abs()), window, throws)
    {
      FillInput(window);
      discarded := if resultReady then discarded + 1 else discarded;
      resultReady := false;
      running := true;
      if throws {
        running := false;
        hardFailed := true;
      } else {
        workers, windows := workers + [Computing(|windows|)], windows + [inputBuf[..]];
      }
    }

    method ReadScores(out5: array<real>)
      requires out5.Length == classScore.Length && out5 != classScore
      modifies out5
      ensures out5[..] == classScore[..]
    {
      for i := 0 to classScore.Length
        invariant forall j | 0 <= j < i :: out5[j] == classScore[j]
      {
        out5[i] := classScore[i];
      }
    }

    /** Take a finished result, if there is one. */
    method TryHarvest(out5: array<real>) returns (ok: bool)
      requires Valid() && out5.Length == classScore.Length && out5 !in {inputBuf, outputBuf, classScore}
      modifies this`resultReady, this`harvests, out5
      ensures Valid() && Abs() == Harvested(old(Abs()))
      ensures ok == old(resultReady) && !resultReady
      ensures out5[..] == if ok then classScore[..] else old(out5[..])
      ensures ok ==> harvests == old(harvests) + [Harvest(|windows| - 1, out5[..])]
      ensures !ok ==> harvests == old(harvests)
    {
      ghost var before := Abs();
      HarvestIsARun(before);
      CallsKeepInv(before, HarvestSteps(before), Harvested(before));
      ok := resultReady;
      if ok {
        resultReady := false;
        ReadScores(out5);
        harvests := harvests + [Harvest(|windows| - 1, classScore[..])];
      }
      assert Abs() == Harvested(before);
    }

    /** The session leaves the output, and the callback stores it score by score. */
    method StoreScores(output: seq<real>)
      requires Apart() && |output| == classScore.Length
      modifies outputBuf, classScore
      ensures outputBuf[..] == output && classScore[..] == output
    {
      forall i | 0 <= i < outputBuf.Length {
        outputBuf[i] := output[i];
      }
      for i := 0 to classScore.Length
        invariant forall j | 0 <= j < i :: classScore[j] == output[j]
        invariant outputBuf[..] == output
      {
        classScore[i] := outputBuf[i];
      }
    }

    /** The worker's callback: `scores` is what the session left in outputBuf, or None for an
        error status. */
    method OnComplete(ghost k: nat, scores: Option<seq<real>>)
      requires Valid() && k < |workers| && workers[k].Computing?
      requires scores.Some? ==> |scores.value| == classScore.Length
      modifies this, outputBuf, classScore
      ensures Valid() && Abs() == Completed(old(Abs()), k, scores)
      ensures !running && |workers| == |old(workers)| - 1
      ensures scores.Some? ==> resultReady && classScore[..] == scores.value && hardFailed == old(hardFailed)
      ensures scores.None? ==> hardFailed && resultReady == old(resultReady)
    {
      ghost var before := Abs();
      CompletionIsARun(before, k, scores);
      CallsKeepInv(before, CompleteSteps(before, k, scores), Completed(before, k, scores));
      Publish(k, scores);
    }

    method Publish(ghost k: nat, scores: Option<seq<real>>)
      requires Apart() && k < |workers| && workers[k].Computing?
      requires scores.Some? ==> |scores.value| == classScore.Length
      modifies `results, `published, `resultReady, `hardFailed, `running, `workers, outputBuf, classScore
      ensures Abs() == Completed(old(Abs()), k, scores)
    {
      if scores.Some? {
        StoreScores(scores.value);
        results, published := results[workers[k].run := scores.value], published + 1;
        resultReady := true;
      } else {
        hardFailed := true;
      }
      running := false;
      workers := workers[..k] + workers[k + 1..];
    }
  }
}
