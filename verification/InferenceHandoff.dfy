/** The hand-off between the analysis thread and the inference worker
    (cpp_impl/src/linkjiru/OnnxRunner.hpp), one atomic access or buffer element at a time,
    in any interleaving. Window and class counts are parameters; what the model computes is
    arbitrary. */
module InferenceHandoff {
  import opened Basics

  /** Where the analysis thread is inside kick() or tryHarvest(). */
  datatype Caller =
    | Idle
    | Checking(window: seq<real>)           // hardFailed was read false, running is next
    | Writing(window: seq<real>, done: nat) // filling inputBuf
    | Clearing                              // about to store resultReady = false
    | Claiming                              // about to store running = true
    | Launching                             // about to call RunAsync
    | Unclaiming                            // RunAsync threw: about to store running = false
    | Reporting                             // ... and then hardFailed = true
    | Reading(run: int, got: seq<real>)     // CAS won, reading the class scores

  /** Where one asynchronous run is. */
  datatype Worker =
    | Computing(run: nat)
    | Publishing(run: nat, done: nat)
    | Failing(run: nat)
    | Releasing(run: nat)

  datatype Harvest = Harvest(run: int, scores: seq<real>)

  datatype State = State(
    prepared: bool,
    running: bool,
    resultReady: bool,
    hardFailed: bool,
    scores: seq<real>,
    input: seq<real>,
    output: seq<real>,
    caller: Caller,
    workers: seq<Worker>,
    // histories
    windows: seq<seq<real>>,      // the padded window of every launched run
    results: map<int, seq<real>>, // what each successful run computed
    harvests: seq<Harvest>,
    published: nat,               // successful runs that set resultReady
    discarded: nat)               // results a later kick threw away

  datatype Event =
    | Kick(window: seq<real>)
    | CheckRunning
    | WriteInput
    | ClearReady
    | SetRunning
    | Launch(throws: bool)
    | ClearRunning
    | SetFailed
    | TryHarvest
    | ReadScore
    // one worker
    | Finish(k: nat, scores: seq<real>)
    | FinishError(k: nat)
    | StoreScore(k: nat)
    | StoreReady(k: nat)
    | StoreFailed(k: nat)
    | Release(k: nat)

  /** Extra samples are ignored, a short window is padded with zeros. */
  function Padded(window: seq<real>, size: nat): (s: seq<real>)
    ensures |s| == size
    ensures forall i | 0 <= i < size :: s[i] == At(window, i)
  {
    if |window| >= size then window[..size] else window + seq(size - |window|, i => 0.0)
  }

  function Init(prepared: bool, windowSize: nat, classes: nat): State {
    State(prepared, false, false, false, seq(classes, i => 0.0), seq(windowSize, i => 0.0), seq(classes, i => 0.0),
          Idle, [], [], map[], [], 0, 0)
  }

  predicate Enabled(s: State, e: Event) {
    match e
    case Kick(_) => s.caller.Idle?
    case CheckRunning => s.caller.Checking?
    case WriteInput => s.caller.Writing? && s.caller.done < |s.caller.window| == |s.input|
    case ClearReady => s.caller.Clearing?
    case SetRunning => s.caller.Claiming?
    case Launch(_) => s.caller.Launching?
    case ClearRunning => s.caller.Unclaiming?
    case SetFailed => s.caller.Reporting?
    case TryHarvest => s.caller.Idle?
    case ReadScore => s.caller.Reading? && |s.caller.got| < |s.scores|
    case Finish(k, scores) => k < |s.workers| && s.workers[k].Computing? && |scores| == |s.scores|
    case FinishError(k) => k < |s.workers| && s.workers[k].Computing?
    case StoreScore(k) =>
      k < |s.workers| && s.workers[k].Publishing? && s.workers[k].done < |s.scores| == |s.output|
    case StoreReady(k) => k < |s.workers| && s.workers[k].Publishing? && s.workers[k].done == |s.scores|
    case StoreFailed(k) => k < |s.workers| && s.workers[k].Failing?
    case Release(k) => k < |s.workers| && s.workers[k].Releasing?
  }

  function Apply(s: State, e: Event): State
    requires Enabled(s, e)
  {
    match e
    case Kick(window) =>
      if !s.prepared || s.hardFailed then s else s.(caller := Checking(Padded(window, |s.input|)))
    case CheckRunning =>
      s.(caller := if s.running then Idle
                   else if |s.input| == 0 then Clearing
                   else Writing(s.caller.window, 0))
    case WriteInput =>
      var w, i := s.caller.window, s.caller.done;
      s.(input := s.input[i := w[i]], caller := if i + 1 == |w| then Clearing else Writing(w, i + 1))
    case ClearReady =>
      s.(resultReady := false, caller := Claiming,
         discarded := if s.resultReady then s.discarded + 1 else s.discarded)
    case SetRunning => s.(running := true, caller := Launching)
    case Launch(throws) =>
      if throws then s.(caller := Unclaiming)
      else s.(caller := Idle, workers := s.workers + [Computing(|s.windows|)], windows := s.windows + [s.input])
    case ClearRunning => s.(running := false, caller := Reporting)
    case SetFailed => s.(hardFailed := true, caller := Idle)
    case TryHarvest =>
      // `run` records the last run launched; the invariant shows the scores are its own.
      if s.resultReady then s.(resultReady := false, caller := Reading(|s.windows| - 1, [])) else s
    case ReadScore =>
      var got := s.caller.got + [s.scores[|s.caller.got|]];
      if |got| == |s.scores| then
        s.(caller := Idle, harvests := s.harvests + [Harvest(s.caller.run, got)])
      else s.(caller := Reading(s.caller.run, got))
    case Finish(k, scores) =>
      var run := s.workers[k].run;
      s.(output := scores, results := s.results[run := scores], workers := s.workers[k := Publishing(run, 0)])
    case FinishError(k) => s.(workers := s.workers[k := Failing(s.workers[k].run)])
    case StoreScore(k) =>
      var w := s.workers[k];
      s.(scores := s.scores[w.done := s.output[w.done]], workers := s.workers[k := Publishing(w.run, w.done + 1)])
    case StoreReady(k) =>
      s.(resultReady := true, published := s.published + 1, workers := s.workers[k := Releasing(s.workers[k].run)])
    case StoreFailed(k) => s.(hardFailed := true, workers := s.workers[k := Releasing(s.workers[k].run)])
    case Release(k) => s.(running := false, workers := s.workers[..k] + s.workers[k + 1..])
  }

  function Run(s: State, es: seq<Event>): Option<State>
    decreases |es|
  {
    if es == [] then Some(s)
    else if !Enabled(s, es[0]) then None
    else Run(Apply(s, es[0]), es[1..])
  }

  // ---- The invariant.

  /** The last launched run has a result and the score cells hold it. */
  ghost predicate OnOffer(s: State) {
    var run := |s.windows| - 1;
    s.windows != [] && run in s.results && s.scores == s.results[run]
  }

  ghost predicate WorkerInv(s: State) {
    && |s.scores| == |s.output| >= 1
    && |s.workers| <= 1
    && (|s.workers| == 1 ==>
          && s.windows != [] && s.workers[0].run == |s.windows| - 1
          && match s.workers[0]
             case Computing(run) => !s.resultReady && run !in s.results && s.input == s.windows[run]
             case Publishing(run, done) =>
               && !s.resultReady && run in s.results && s.output == s.results[run]
               && done <= |s.scores| && s.scores[..done] == s.output[..done]
             case Failing(_) => !s.resultReady
             case Releasing(_) => true)
    && (s.resultReady ==> OnOffer(s))
  }

  /** running is up from before RunAsync until the worker's last store. */
  ghost predicate CallerInv(s: State) {
    && (s.running <==> |s.workers| == 1 || s.caller.Launching? || s.caller.Unclaiming?)
    && match s.caller
       case Idle => true
       case Checking(window) => |window| == |s.input|
       case Writing(window, done) =>
         s.workers == [] && |window| == |s.input| && done < |window| && s.input[..done] == window[..done]
       case Clearing => s.workers == []
       case Claiming => s.workers == [] && !s.resultReady
       case Launching => s.workers == [] && !s.resultReady
       case Unclaiming => s.workers == [] && !s.resultReady
       case Reporting => s.workers == [] && !s.resultReady
       case Reading(run, got) =>
         && !s.resultReady && OnOffer(s) && run == |s.windows| - 1
         && |got| < |s.scores| && got == s.scores[..|got|]
         && (forall k | 0 <= k < |s.workers| :: s.workers[k].Releasing?)
  }

  /** Every harvest is one run's whole result, no run is harvested twice, and every
      published result is accounted for. */
  ghost predicate HistoryInv(s: State) {
    && (forall run | run in s.results :: 0 <= run < |s.windows| && |s.results[run]| == |s.scores|)
    && (forall h | h in s.harvests :: h.run in s.results && h.scores == s.results[h.run])
    && (forall i, j | 0 <= i < j < |s.harvests| :: s.harvests[i].run < s.harvests[j].run)
    && (s.resultReady || s.caller.Reading? || (|s.workers| == 1 && !s.workers[0].Releasing?) ==>
          forall h | h in s.harvests :: h.run < |s.windows| - 1)
    && |s.results| == s.published + (if |s.workers| == 1 && s.workers[0].Publishing? then 1 else 0)
    && s.published == |s.harvests| + s.discarded + (if s.resultReady || s.caller.Reading? then 1 else 0)
  }

  ghost predicate Inv(s: State) {
    && WorkerInv(s) && CallerInv(s) && HistoryInv(s)
  }

  lemma InitInv(prepared: bool, windowSize: nat, classes: nat)
    requires classes >= 1
    ensures Inv(Init(prepared, windowSize, classes))
  {
  }

  lemma KickKeepsInv(s: State, e: Event)
    requires Inv(s) && Enabled(s, e)
    requires e.Kick? || e.CheckRunning? || e.WriteInput? || e.ClearReady? || e.SetRunning?
    ensures Inv(Apply(s, e))
  {
  }

  lemma LaunchKeepsInv(s: State, throws: bool)
    requires Inv(s) && Enabled(s, Launch(throws))
    ensures Inv(Apply(s, Launch(throws)))
  {
    var t := Apply(s, Launch(throws));
    assert WorkerInv(t);
    assert CallerInv(t);
  }

  lemma FailedLaunchKeepsInv(s: State, e: Event)
    requires Inv(s) && Enabled(s, e)
    requires e.ClearRunning? || e.SetFailed?
    ensures Inv(Apply(s, e))
  {
  }

  lemma TryHarvestKeepsInv(s: State)
    requires Inv(s) && Enabled(s, TryHarvest)
    ensures Inv(Apply(s, TryHarvest))
  {
    var t := Apply(s, TryHarvest);
    assert WorkerInv(t);
    assert CallerInv(t);
  }

  lemma LastScoreKeepsInv(s: State)
    requires Inv(s) && Enabled(s, ReadScore) && |s.caller.got| + 1 == |s.scores|
    ensures Inv(Apply(s, ReadScore))
  {
    var t := Apply(s, ReadScore);
    var h := Harvest(s.caller.run, s.caller.got + [s.scores[|s.caller.got|]]);
    assert h.scores == s.scores;
    assert t.harvests == s.harvests + [h];
    assert WorkerInv(t) && CallerInv(t);
  }

  lemma EarlierScoreKeepsInv(s: State)
    requires Inv(s) && Enabled(s, ReadScore) && |s.caller.got| + 1 < |s.scores|
    ensures Inv(Apply(s, ReadScore))
  {
    var n := |s.caller.got|;
    assert s.scores[..n + 1] == s.scores[..n] + [s.scores[n]];
  }

  lemma FinishKeepsInv(s: State, e: Event)
    requires Inv(s) && Enabled(s, e)
    requires e.Finish? || e.FinishError?
    ensures Inv(Apply(s, e))
  {
  }

  lemma PublishKeepsInv(s: State, e: Event)
    requires Inv(s) && Enabled(s, e)
    requires e.StoreScore? || e.StoreReady?
    ensures Inv(Apply(s, e))
  {
  }

  lemma ReleaseKeepsInv(s: State, k: nat)
    requires Inv(s) && Enabled(s, Release(k))
    ensures Inv(Apply(s, Release(k)))
  {
    var t := Apply(s, Release(k));
    assert k == 0 && t == s.(running := false, workers := []);
    ReleasedKeepsHistory(s);
    assert WorkerInv(t) && CallerInv(t);
  }

  lemma ReleasedKeepsHistory(s: State)
    requires HistoryInv(s) && |s.workers| == 1 && s.workers[0].Releasing?
    ensures HistoryInv(s.(running := false, workers := []))
  {
  }

  lemma FailureKeepsInv(s: State, k: nat)
    requires Inv(s) && Enabled(s, StoreFailed(k))
    ensures Inv(Apply(s, StoreFailed(k)))
  {
    var t := Apply(s, StoreFailed(k));
    assert WorkerInv(t) && CallerInv(t);
  }

  lemma StepKeepsInv(s: State, e: Event)
    requires Inv(s) && Enabled(s, e)
    ensures Inv(Apply(s, e))
  {
    if e.Kick? || e.CheckRunning? || e.WriteInput? || e.ClearReady? || e.SetRunning? {
      KickKeepsInv(s, e);
    } else if e.Launch? {
      LaunchKeepsInv(s, e.throws);
    } else if e.ClearRunning? || e.SetFailed? {
      FailedLaunchKeepsInv(s, e);
    } else if e.TryHarvest? {
      TryHarvestKeepsInv(s);
    } else if e.ReadScore? {
      if |s.caller.got| + 1 == |s.scores| {
        LastScoreKeepsInv(s);
      } else {
        EarlierScoreKeepsInv(s);
      }
    } else if e.Finish? || e.FinishError? {
      FinishKeepsInv(s, e);
    } else if e.StoreScore? || e.StoreReady? {
      PublishKeepsInv(s, e);
    } else if e.StoreFailed? {
      FailureKeepsInv(s, e.k);
    } else {
      ReleaseKeepsInv(s, e.k);
    }
  }

  lemma {:induction false} RunKeepsInv(s: State, es: seq<Event>)
    requires Inv(s)
    ensures Run(s, es).Some? ==> Inv(Run(s, es).value)
    decreases |es|
  {
    if es != [] && Enabled(s, es[0]) {
      StepKeepsInv(s, es[0]);
      RunKeepsInv(Apply(s, es[0]), es[1..]);
    }
  }

  // ---- A whole tryHarvest(), from call to return, with worker steps in between.

  predicate FromWorker(e: Event) {
    e.Finish? || e.FinishError? || e.StoreScore? || e.StoreReady? || e.StoreFailed? || e.Release?
  }

  ghost predicate HarvestCall(s: State, es: seq<Event>, t: State) {
    && s.caller.Idle? && es != [] && es[0] == TryHarvest
    && (forall e | e in es[1..] :: FromWorker(e) || e.ReadScore?)
    && Run(s, es) == Some(t) && t.caller.Idle?
  }

  /** Reading what was on offer when `was` was left; the worker has only its release to do. */
  ghost predicate Taking(s: State, was: State) {
    && Inv(s) && s.windows == was.windows && s.results == was.results
    && OnOffer(was) && !s.resultReady
    && (forall k | 0 <= k < |s.workers| :: s.workers[k].Releasing?)
    && if s.caller.Reading? then s.harvests == was.harvests
       else s.caller.Idle? && s.harvests == was.harvests + [Newest(was)]
  }

  /** The result of the newest run, whole. */
  function Newest(s: State): Harvest {
    var run := |s.windows| - 1;
    Harvest(run, if run in s.results then s.results[run] else [])
  }

  lemma LastScoreTakes(s: State, was: State)
    requires Taking(s, was) && Enabled(s, ReadScore) && |s.caller.got| + 1 == |s.scores|
    ensures Apply(s, ReadScore).harvests == was.harvests + [Newest(was)]
  {
    assert s.caller.got + [s.scores[|s.caller.got|]] == s.scores;
  }

  lemma TakingStep(s: State, e: Event, was: State)
    requires Taking(s, was) && Enabled(s, e) && (FromWorker(e) || e.ReadScore?)
    ensures Taking(Apply(s, e), was)
  {
    StepKeepsInv(s, e);
    if e.ReadScore? && |s.caller.got| + 1 == |s.scores| {
      LastScoreTakes(s, was);
    }
  }

  lemma {:induction false} TakingSteps(s: State, es: seq<Event>, t: State, was: State)
    requires Taking(s, was) && Run(s, es) == Some(t)
    requires forall e | e in es :: FromWorker(e) || e.ReadScore?
    ensures Taking(t, was)
    decreases |es|
  {
    if es != [] {
      assert es[0] in es;
      TakingStep(s, es[0], was);
      TakingSteps(Apply(s, es[0]), es[1..], t, was);
    }
  }

  /** With nothing taken no score can be read, and the worker records no harvest. */
  lemma {:induction false} WorkerHarvestsNothing(s: State, es: seq<Event>, t: State)
    requires Inv(s) && s.caller.Idle? && Run(s, es) == Some(t)
    requires forall e | e in es :: FromWorker(e) || e.ReadScore?
    ensures t.harvests == s.harvests && t.caller.Idle?
    decreases |es|
  {
    if es != [] {
      assert es[0] in es;
      StepKeepsInv(s, es[0]);
      WorkerHarvestsNothing(Apply(s, es[0]), es[1..], t);
    }
  }

  /** In every interleaving tryHarvest() takes the result on offer at the call, all of it and
      only that, and leaves none; with none on offer it takes nothing. */
  lemma HarvestTakesResult(s: State, es: seq<Event>, t: State)
    requires Inv(s) && HarvestCall(s, es, t)
    ensures s.resultReady ==>
              && |s.windows| - 1 in s.results
              && t.harvests == s.harvests + [Harvest(|s.windows| - 1, s.results[|s.windows| - 1])]
              && !t.resultReady
    ensures !s.resultReady ==> t.harvests == s.harvests
  {
    var first := Apply(s, TryHarvest);
    StepKeepsInv(s, TryHarvest);
    if s.resultReady {
      TakingSteps(first, es[1..], t, s);
    } else {
      WorkerHarvestsNothing(first, es[1..], t);
    }
  }

  /** So of two calls with no completion published in between the second takes nothing. */
  lemma HarvestedOnce(s: State, es: seq<Event>, t: State, fs: seq<Event>, u: State, gs: seq<Event>, v: State)
    requires Inv(s) && HarvestCall(s, es, t) && s.resultReady
    requires Run(t, fs) == Some(u) && HarvestCall(u, gs, v)
    requires forall e | e in fs :: FromWorker(e) && !e.StoreReady?
    ensures v.harvests == t.harvests
  {
    RunKeepsInv(s, es);
    HarvestTakesResult(s, es, t);
    StaysUnready(t, fs, u);
    RunKeepsInv(t, fs);
    HarvestTakesResult(u, gs, v);
  }

  lemma {:induction false} StaysUnready(s: State, es: seq<Event>, t: State)
    requires Inv(s) && s.caller.Idle? && !s.resultReady && Run(s, es) == Some(t)
    requires forall e | e in es :: FromWorker(e) && !e.StoreReady?
    ensures !t.resultReady && t.harvests == s.harvests
    decreases |es|
  {
    if es != [] {
      assert es[0] in es;
      StepKeepsInv(s, es[0]);
      StaysUnready(Apply(s, es[0]), es[1..], t);
    }
  }

  // ---- What every interleaving guarantees.

  /** At most one run is in flight, and while it computes nobody touches its input. */
  lemma InputIsStableDuringRun(s: State, e: Event)
    requires Inv(s) && Enabled(s, e) && |s.workers| >= 1
    ensures |s.workers| == 1 && Apply(s, e).input == s.input
  {
  }

  /** Whatever the interleaving: harvests are whole results of single successful runs, in
      launch order, none twice; and once both threads are at rest every successful run has
      been harvested, overtaken by a later kick, or is on offer. */
  lemma HandoffIsSound(prepared: bool, windowSize: nat, classes: nat, es: seq<Event>, t: State)
    requires classes >= 1 && Run(Init(prepared, windowSize, classes), es) == Some(t)
    ensures |t.workers| <= 1
    ensures forall h | h in t.harvests :: h.run in t.results && h.scores == t.results[h.run]
    ensures forall i, j | 0 <= i < j < |t.harvests| :: t.harvests[i].run < t.harvests[j].run
    ensures t.caller.Idle? && t.workers == [] ==>
              && |t.results| == |t.harvests| + t.discarded + (if t.resultReady then 1 else 0)
              && !t.running
  {
    InitInv(prepared, windowSize, classes);
    RunKeepsInv(Init(prepared, windowSize, classes), es);
  }
}
