/** The manager loop talking to the inference runner: the runner's answers in a tick are reads
    of the shared state between its atomic steps, so the hand-off theorem holds of the loop. */
module LoopWithRunner {
  import opened Basics
  import opened SharedRing
  import opened AnalysisLoop
  import H = InferenceHandoff
  import O = InferenceRunner
  import R = AnalysisRuns
  import G = Gating
  import S = SilenceGate
  import C = Cadence

  // ---- One tick's conversation, leg by leg. The worker may step at any time.

  datatype Leg = Leg(events: seq<H.Event>, end: H.State)

  datatype Talk = Talk(first: Leg, harvest: Leg, asked: Leg, checked: Leg, kick: Leg, last: Leg)

  ghost predicate WorkerLeg(s: H.State, leg: Leg) {
    H.Run(s, leg.events) == Some(leg.end) && forall e | e in leg.events :: H.FromWorker(e)
  }

  /** tryHarvest() from call to return. */
  ghost predicate HarvestLeg(s: H.State, leg: Leg) {
    H.HarvestCall(s, leg.events, leg.end)
  }

  /** kick(window) from call to return. */
  ghost predicate KickLeg(s: H.State, leg: Leg, window: seq<real>) {
    && leg.events != [] && leg.events[0] == H.Kick(window)
    && (forall e | e in leg.events[1..] :: !e.Kick? && !e.TryHarvest?)
    && H.Run(s, leg.events) == Some(leg.end) && leg.end.caller.Idle?
  }

  /** What tryHarvest() returned: the scores it read, if it took a result. */
  predicate Took(s: H.State, t: H.State, got: Option<Scores>) {
    if t.harvests == s.harvests then got == None
    else
      && |t.harvests| == |s.harvests| + 1 && |t.harvests[|s.harvests|].scores| == NUM_CLASSES
      && var v := t.harvests[|s.harvests|].scores; got == Some(Scores(v[0], v[1], v[2], v[3], v[4]))
  }

  // ---- What the worker leaves alone.

  /** Idle caller, healthy invariant, sizes as built. */
  ghost predicate AtRest(s: H.State) {
    H.Inv(s) && s.caller.Idle? && |s.input| == WINDOW_SAMPLES && |s.scores| == NUM_CLASSES
  }

  /** Same windows and harvests; a failure is never taken back. */
  ghost predicate Stays(s: H.State, t: H.State) {
    && t.windows == s.windows && t.harvests == s.harvests && t.caller == s.caller
    && t.prepared == s.prepared && |t.input| == |s.input| && |t.scores| == |s.scores|
    && (s.hardFailed ==> t.hardFailed)
  }

  lemma WorkerStays(s: H.State, e: H.Event)
    requires H.Inv(s) && H.Enabled(s, e) && H.FromWorker(e)
    ensures Stays(s, H.Apply(s, e)) && s.workers != []
  {
  }

  lemma {:induction false} WorkerLegStays(s: H.State, leg: Leg)
    requires H.Inv(s) && WorkerLeg(s, leg)
    ensures H.Inv(leg.end) && Stays(s, leg.end)
    ensures s.workers == [] ==> leg.end == s
    decreases |leg.events|
  {
    if leg.events != [] {
      var e := leg.events[0];
      assert e in leg.events;
      H.StepKeepsInv(s, e);
      WorkerStays(s, e);
      WorkerLegStays(H.Apply(s, e), Leg(leg.events[1..], leg.end));
    }
  }

  // ---- A harvest.

  /** Inside or after tryHarvest(). */
  ghost predicate Harvesting(s: H.State, base: H.State) {
    && H.Inv(s) && (s.caller.Idle? || s.caller.Reading?)
    && s.windows == base.windows && s.prepared == base.prepared
    && |s.input| == |base.input| && |s.scores| == |base.scores| && (base.hardFailed ==> s.hardFailed)
  }

  lemma HarvestStep(s: H.State, e: H.Event, base: H.State)
    requires Harvesting(s, base) && H.Enabled(s, e) && (H.FromWorker(e) || e.ReadScore?)
    ensures Harvesting(H.Apply(s, e), base)
  {
    H.StepKeepsInv(s, e);
    if H.FromWorker(e) {
      WorkerStays(s, e);
    }
  }

  lemma {:induction false} HarvestSteps(s: H.State, es: seq<H.Event>, t: H.State, base: H.State)
    requires Harvesting(s, base) && H.Run(s, es) == Some(t)
    requires forall e | e in es :: H.FromWorker(e) || e.ReadScore?
    ensures Harvesting(t, base)
    decreases |es|
  {
    if es != [] {
      assert es[0] in es;
      HarvestStep(s, es[0], base);
      HarvestSteps(H.Apply(s, es[0]), es[1..], t, base);
    }
  }

  /** tryHarvest() takes the result on offer, all five scores of the newest run, or nothing. */
  lemma HarvestLegTakes(s: H.State, leg: Leg)
    requires AtRest(s) && HarvestLeg(s, leg)
    ensures AtRest(leg.end) && leg.end.windows == s.windows && leg.end.prepared == s.prepared
    ensures s.hardFailed ==> leg.end.hardFailed
    ensures leg.end.harvests == if s.resultReady then s.harvests + [H.Newest(s)] else s.harvests
    ensures s.resultReady ==> |H.Newest(s).scores| == NUM_CLASSES
  {
    H.HarvestTakesResult(s, leg.events, leg.end);
    H.StepKeepsInv(s, H.TryHarvest);
    HarvestSteps(H.Apply(s, H.TryHarvest), leg.events[1..], leg.end, s);
  }

  /** So the loop gets scores in a tick exactly when a result is ready as it asks, and they are
      those of the newest run. */
  lemma HarvestReachesLoop(s: H.State, leg: Leg, got: Option<Scores>)
    requires AtRest(s) && HarvestLeg(s, leg) && Took(s, leg.end, got)
    ensures got.Some? <==> s.resultReady
    ensures got.Some? ==>
              && s.windows != [] && |s.windows| - 1 in s.results
              && var v := s.results[|s.windows| - 1];
                 |v| == NUM_CLASSES && got.value == Scores(v[0], v[1], v[2], v[3], v[4])
  {
    HarvestLegTakes(s, leg);
  }

  // ---- A kick.

  /** Inside or after kick(window), called with the worker at rest; `fine` while neither an
      earlier failure nor RunAsync is in its way. */
  ghost predicate Kicking(s: H.State, base: H.State, window: seq<real>, fine: bool) {
    && H.Inv(s) && s.harvests == base.harvests && s.prepared == base.prepared
    && |s.input| == |base.input| == |window| && |s.scores| == |base.scores|
    && match s.caller
       case Checking(w) => w == window && !s.running && s.windows == base.windows
       case Writing(w, _) => w == window && s.windows == base.windows
       case Clearing => s.input == window && s.windows == base.windows
       case Claiming => s.input == window && s.windows == base.windows
       case Launching => s.input == window && s.windows == base.windows
       case Unclaiming => !fine && s.windows == base.windows
       case Reporting => !fine && s.windows == base.windows
       case Idle => Launched(s, base, window, fine)
       case Reading(_, _) => false
  }

  /** A run with this window was launched, or the runner has failed for good. */
  predicate Launched(s: H.State, base: H.State, window: seq<real>, fine: bool) {
    s.windows == base.windows + [window] || (!fine && s.hardFailed && s.windows == base.windows)
  }

  /** While the call goes on the worker has nothing to do; afterwards it leaves the record. */
  lemma KickWorkerStep(s: H.State, e: H.Event, base: H.State, window: seq<real>, fine: bool)
    requires Kicking(s, base, window, fine) && H.Enabled(s, e) && H.FromWorker(e) && H.Inv(H.Apply(s, e))
    ensures Kicking(H.Apply(s, e), base, window, fine)
  {
    WorkerStays(s, e);
    assert s.caller.Idle?;
  }

  lemma KickCallerStep(s: H.State, e: H.Event, base: H.State, window: seq<real>, fine: bool)
    requires Kicking(s, base, window, fine) && H.Enabled(s, e) && H.Inv(H.Apply(s, e))
    requires !H.FromWorker(e) && !e.Kick? && !e.TryHarvest? && (fine ==> e != H.Launch(true))
    ensures Kicking(H.Apply(s, e), base, window, fine)
  {
  }

  lemma KickStep(s: H.State, e: H.Event, base: H.State, window: seq<real>, fine: bool)
    requires Kicking(s, base, window, fine) && H.Enabled(s, e)
    requires !e.Kick? && !e.TryHarvest? && (fine ==> e != H.Launch(true))
    ensures Kicking(H.Apply(s, e), base, window, fine)
  {
    H.StepKeepsInv(s, e);
    if H.FromWorker(e) {
      KickWorkerStep(s, e, base, window, fine);
    } else {
      KickCallerStep(s, e, base, window, fine);
    }
  }

  lemma {:induction false} KickSteps(s: H.State, es: seq<H.Event>, t: H.State, base: H.State, window: seq<real>,
                                     fine: bool)
    requires Kicking(s, base, window, fine) && H.Run(s, es) == Some(t)
    requires forall e | e in es :: !e.Kick? && !e.TryHarvest? && (fine ==> e != H.Launch(true))
    ensures Kicking(t, base, window, fine)
    decreases |es|
  {
    if es != [] {
      assert es[0] in es;
      KickStep(s, es[0], base, window, fine);
      KickSteps(H.Apply(s, es[0]), es[1..], t, base, window, fine);
    }
  }

  /** kick() on an idle runner launches the window, unless RunAsync throws or a run has failed
      since isReady() was asked; then nothing is launched and the runner has failed. */
  lemma KickLaunches(s: H.State, leg: Leg, window: seq<real>)
    requires AtRest(s) && s.prepared && !s.running
    requires |window| == WINDOW_SAMPLES && KickLeg(s, leg, window)
    ensures AtRest(leg.end) && Launched(leg.end, s, window, !s.hardFailed && H.Launch(true) !in leg.events)
    ensures leg.end.harvests == s.harvests && leg.end.prepared
  {
    H.StepKeepsInv(s, H.Kick(window));
    var fine := !s.hardFailed && H.Launch(true) !in leg.events;
    KickSteps(H.Apply(s, H.Kick(window)), leg.events[1..], leg.end, s, window, fine);
  }

  /** After isReady() and then !inFlight(), kick() is a no-op exactly if the run in flight at
      the first question failed before the second. */
  lemma KickIsNoOpExactly(asked: H.State, checked: Leg, window: seq<real>)
    requires AtRest(asked) && asked.prepared && !asked.hardFailed && WorkerLeg(asked, checked)
    requires !checked.end.running
    ensures checked.end.caller.Idle?
    ensures H.Apply(checked.end, H.Kick(window)) == checked.end <==> checked.end.hardFailed
    ensures checked.end.hardFailed ==> asked.running
    ensures !checked.end.hardFailed ==>
              H.Apply(checked.end, H.Kick(window)).caller == H.Checking(H.Padded(window, WINDOW_SAMPLES))
  {
    WorkerLegStays(asked, checked);
  }

  /** It does happen: a run that ends in an error between the two questions. */
  lemma FailureBetweenChecks(s: H.State, window: seq<real>)
    requires AtRest(s) && s.prepared && !s.hardFailed && |s.workers| == 1 && s.workers[0].Computing?
    ensures var es := [H.FinishError(0), H.StoreFailed(0), H.Release(0)];
            && H.Run(s, es).Some? && (forall e | e in es :: H.FromWorker(e))
            && var t := H.Run(s, es).value;
               !t.running && t.hardFailed && H.Run(t, [H.Kick(window)]) == Some(t)
  {
    var s1 := H.Apply(s, H.FinishError(0));
    var s2 := H.Apply(s1, H.StoreFailed(0));
    O.RunThree(s, H.FinishError(0), H.StoreFailed(0), H.Release(0));
    O.RunOne(H.Apply(s2, H.Release(0)), H.Kick(window));
  }

  // ---- The loop's history and the runner's agree.

  function Windows(kicks: seq<Kick>): (ws: seq<seq<real>>)
    ensures |ws| == |kicks|
  {
    seq(|kicks|, i requires 0 <= i < |kicks| => kicks[i].window)
  }

  /** Every kick the loop counts is a run the runner launched, in order, except that the last
      one may have thrown; and the scores the loop filtered are the harvests. */
  ghost predicate Linked(h: History, s: H.State) {
    && AtRest(s)
    && (|| s.windows == Windows(h.kicks)
        || (s.hardFailed && h.kicks != [] && s.windows == Windows(h.kicks)[..|h.kicks| - 1]))
    && RawsMatch(h.raws, s.harvests)
  }

  /** The worker's own steps keep the link. */
  lemma QuietKeepsLink(h: History, s: H.State, leg: Leg)
    requires Linked(h, s) && WorkerLeg(s, leg)
    ensures Linked(h, leg.end) && Stays(s, leg.end)
  {
    WorkerLegStays(s, leg);
  }

  lemma HarvestKeepsLink(h: History, s: H.State, leg: Leg, got: Option<Scores>)
    requires Linked(h, s) && HarvestLeg(s, leg) && Took(s, leg.end, got)
    ensures Linked(if got.Some? then h.(raws := Heard(h.raws, got.value)) else h, leg.end)
    ensures leg.end.prepared == s.prepared
  {
    HarvestLegTakes(s, leg);
    HarvestReachesLoop(s, leg, got);
    if got.Some? {
      RawsGrow(h.raws, s.harvests, H.Newest(s), G.Raw(got.value.baji, got.value.ru));
    }
  }

  ghost predicate RawsMatch(raws: seq<G.Raw>, harvests: seq<H.Harvest>) {
    && |raws| == |harvests|
    && forall i | 0 <= i < |raws| ::
         |harvests[i].scores| == NUM_CLASSES && raws[i] == G.Raw(harvests[i].scores[0], harvests[i].scores[1])
  }

  lemma RawsGrow(raws: seq<G.Raw>, harvests: seq<H.Harvest>, harvest: H.Harvest, raw: G.Raw)
    requires RawsMatch(raws, harvests)
    requires |harvest.scores| == NUM_CLASSES && raw == G.Raw(harvest.scores[0], harvest.scores[1])
    ensures RawsMatch(raws + [raw], harvests + [harvest])
  {
  }

  /** A kick the loop makes was preceded by a healthy answer, so none before it was lost. */
  lemma KickKeepsLink(h: History, s: H.State, leg: Leg, k: Kick)
    requires Linked(h, s) && s.windows == Windows(h.kicks) && s.prepared && !s.running
    requires |k.window| == WINDOW_SAMPLES && KickLeg(s, leg, k.window)
    ensures Linked(h.(kicks := h.kicks + [k]), leg.end)
  {
    KickLaunches(s, leg, k.window);
    assert Windows(h.kicks + [k]) == Windows(h.kicks) + [k.window];
    assert Windows(h.kicks + [k])[..|h.kicks|] == Windows(h.kicks);
  }

  /** Only kicks and raws matter. */
  lemma LinkedAlike(h: History, h': History, s: H.State)
    requires Linked(h, s) && h'.kicks == h.kicks && h'.raws == h.raws
    ensures Linked(h', s)
  {
  }

  /** The part of a conversation about the next window. */
  ghost predicate PaceTalk(s: H.State, talk: Talk, given: Inputs, due: bool, window: seq<real>) {
    if !due then WorkerLeg(s, talk.last)
    else
      && WorkerLeg(s, talk.asked)
      && given.ready == (talk.asked.end.prepared && !talk.asked.end.hardFailed)
      && WorkerLeg(talk.asked.end, talk.checked)
      && given.busy == talk.checked.end.running
      && WorkerLeg(talk.kick.end, talk.last)
      && if given.ready && !given.busy then KickLeg(talk.checked.end, talk.kick, window)
         else WorkerLeg(talk.checked.end, talk.kick) && given.stillBusy == talk.kick.end.running
  }

  lemma PaceKeepsLink(h: History, s: H.State, talk: Talk, given: Inputs, log: seq<real>)
    requires Linked(h, s)
    requires PaceTalk(s, talk, given, C.Decide(PACE, h.evaluated, |log|).evaluate, LastN(log, WINDOW_SAMPLES))
    ensures Linked(Paced(h, given, log), talk.last.end)
  {
    var due := C.Decide(PACE, h.evaluated, |log|).evaluate;
    var k := Kick(|log|, LastN(log, WINDOW_SAMPLES));
    var g := h;
    if !due {
      QuietKeepsLink(h, s, talk.last);
    } else {
      QuietKeepsLink(h, s, talk.asked);
      QuietKeepsLink(h, talk.asked.end, talk.checked);
      if given.ready && !given.busy {
        KickKeepsLink(h, talk.checked.end, talk.kick, k);
        g := h.(kicks := h.kicks + [k]);
      } else {
        QuietKeepsLink(h, talk.checked.end, talk.kick);
      }
      QuietKeepsLink(g, talk.kick.end, talk.last);
    }
    LinkedAlike(g, Paced(h, given, log), talk.last.end);
  }

  // ---- A tick, and runs of ticks.

  ghost predicate Evaluates(h: History, given: Inputs, level: real) {
    var ticks := h.ticks + [S.Tick(level, given.now)];
    S.Evaluates(S.After(ticks, |ticks|), given.now)
  }

  /** The runner answers a tick of the loop. */
  ghost predicate Conversation(h: History, s: H.State, talk: Talk, given: Inputs, log: seq<real>, level: real) {
    && WorkerLeg(s, talk.first)
    && given.failed == talk.last.end.hardFailed
    && if !Evaluates(h, given, level) then WorkerLeg(talk.first.end, talk.last)
       else
         && HarvestLeg(talk.first.end, talk.harvest) && Took(talk.first.end, talk.harvest.end, given.harvest)
         && PaceTalk(talk.harvest.end, talk, given, C.Decide(PACE, h.evaluated, |log|).evaluate,
                     LastN(log, WINDOW_SAMPLES))
  }

  lemma TickKeepsLink(h: History, s: H.State, talk: Talk, given: Inputs, log: seq<real>, level: real,
                      modelReady: bool, next: History, end: H.State)
    requires Linked(h, s) && Conversation(h, s, talk, given, log, level)
    requires next == Next(h, given, log, level, modelReady) && end == talk.last.end
    ensures Linked(next, end)
  {
    QuietKeepsLink(h, s, talk.first);
    var heard := h.(ticks := h.ticks + [S.Tick(level, given.now)]);
    LinkedAlike(h, heard, talk.first.end);
    if !Evaluates(h, given, level) {
      QuietKeepsLink(heard, talk.first.end, talk.last);
    } else {
      HarvestKeepsLink(heard, talk.first.end, talk.harvest, given.harvest);
      var harvested := if given.harvest.Some? then heard.(raws := Heard(h.raws, given.harvest.value)) else heard;
      PaceKeepsLink(harvested, talk.harvest.end, talk, given, log);
    }
    LinkedAlike(Judged(h, given, log, level), next, end);
  }

  /** A tick and its conversation. */
  datatype Found = Found(scene: R.Scene, talk: Talk)

  function Scenes(found: seq<Found>): (scenes: seq<R.Scene>)
    ensures |scenes| == |found| && forall i | 0 <= i < |found| :: scenes[i] == found[i].scene
  {
    seq(|found|, i requires 0 <= i < |found| => found[i].scene)
  }

  /** Where tick k leaves the runner. */
  function StateAt(init: H.State, found: seq<Found>, k: nat): H.State
    requires k <= |found|
  {
    if k == 0 then init else found[k - 1].talk.last.end
  }

  /** Each tick's answers come from the runner where the tick before left it. */
  ghost predicate Conversations(init: H.State, found: seq<Found>, modelReady: bool) {
    forall k: nat | k < |found| ::
      var scene := found[k].scene;
      Conversation(R.After(Scenes(found), modelReady, k), StateAt(init, found, k), found[k].talk,
                   scene.given, scene.log, scene.level)
  }

  lemma StartIsLinked(prepared: bool)
    ensures Linked(R.START, H.Init(prepared, WINDOW_SAMPLES, NUM_CLASSES))
  {
    H.InitInv(prepared, WINDOW_SAMPLES, NUM_CLASSES);
    assert Windows([]) == [];
  }

  /** After every tick history and runner are linked. */
  lemma {:induction false} RunKeepsLink(init: H.State, found: seq<Found>, modelReady: bool, k: nat)
    requires Linked(R.START, init) && Conversations(init, found, modelReady) && k <= |found|
    ensures Linked(R.After(Scenes(found), modelReady, k), StateAt(init, found, k))
  {
    if k > 0 {
      RunKeepsLink(init, found, modelReady, k - 1);
      TickOfRun(R.After(Scenes(found), modelReady, k - 1), StateAt(init, found, k - 1), found[k - 1], modelReady,
                R.After(Scenes(found), modelReady, k), StateAt(init, found, k));
    }
  }

  lemma TickOfRun(h: History, s: H.State, f: Found, modelReady: bool, next: History, end: H.State)
    requires Linked(h, s) && Conversation(h, s, f.talk, f.scene.given, f.scene.log, f.scene.level)
    requires next == Next(h, f.scene.given, f.scene.log, f.scene.level, modelReady) && end == f.talk.last.end
    ensures Linked(next, end)
  {
    TickKeepsLink(h, s, f.talk, f.scene.given, f.scene.log, f.scene.level, modelReady, next, end);
  }

  /** Over any run of the loop and the worker, whatever the interleaving: the windows the loop
      kicked are the runs launched, one for one and in order, but for a last one that the
      runner did not survive; and every score pair the loop filtered belongs to one whole
      result of one of them, in kick order, none twice. */
  lemma ScoresComeFromKicks(prepared: bool, found: seq<Found>, modelReady: bool)
    requires Conversations(H.Init(prepared, WINDOW_SAMPLES, NUM_CLASSES), found, modelReady)
    ensures var init := H.Init(prepared, WINDOW_SAMPLES, NUM_CLASSES);
            var h, s := R.After(Scenes(found), modelReady, |found|), StateAt(init, found, |found|);
            && (s.windows == Windows(h.kicks)
                || (s.hardFailed && h.kicks != [] && s.windows == Windows(h.kicks)[..|h.kicks| - 1]))
            && |h.raws| == |s.harvests|
            && (forall i | 0 <= i < |h.raws| :: FromKick(h, s, i))
            && (forall i, j | 0 <= i < j < |h.raws| :: s.harvests[i].run < s.harvests[j].run)
  {
    StartIsLinked(prepared);
    var init := H.Init(prepared, WINDOW_SAMPLES, NUM_CLASSES);
    RunKeepsLink(init, found, modelReady, |found|);
    var h, s := R.After(Scenes(found), modelReady, |found|), StateAt(init, found, |found|);
    forall i | 0 <= i < |h.raws|
      ensures FromKick(h, s, i)
    {
      RawIsFromKick(h, s, i);
    }
  }

  /** Score pair i is the first two scores of the whole result of a run, and that run was
      launched with the window of the kick of the same number. */
  ghost predicate FromKick(h: History, s: H.State, i: nat)
    requires i < |h.raws| == |s.harvests|
  {
    var run := s.harvests[i].run;
    && 0 <= run < |s.windows| <= |h.kicks| && s.windows[run] == h.kicks[run].window
    && run in s.results && |s.results[run]| == NUM_CLASSES
    && h.raws[i] == G.Raw(s.results[run][0], s.results[run][1])
  }

  lemma RawIsFromKick(h: History, s: H.State, i: nat)
    requires Linked(h, s) && i < |h.raws|
    ensures FromKick(h, s, i)
  {
    assert s.harvests[i] in s.harvests;
  }
}
