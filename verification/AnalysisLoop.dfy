/** The loop of the manager thread (cpp_impl/src/linkjiru/AnalysisThread.h, run()): each tick
    drains the host ring, snapshots the newest window, gates on silence, harvests, kicks at
    the hop cadence, latches the speaker and sends. The clock, the runner's answers and what
    the audio thread writes are parameters of a tick. */
module AnalysisLoop {
  import opened Basics
  import opened SharedRing
  import opened Resampling
  import opened Analysis
  import G = Gating
  import S = SilenceGate
  import C = Cadence

  const WINDOW_SAMPLES := 24000
  const HOP_SAMPLES := 800
  const NUM_CLASSES := 5
  const MAX_RETRIES := 4

  /** The per-class scores of one inference. */
  datatype Scores = Scores(baji: real, ru: real, env: real, instrumental: real, singing: real)

  /** What a tick finds: the time, host blocks that arrive while it drains, a finished
      inference, and the runner's three answers. `busy` is asked again only when no kick was
      possible. */
  datatype Inputs = Inputs(
    now: int, arrivals: seq<seq<real>>, harvest: Option<Scores>,
    ready: bool, busy: bool, stillBusy: bool, failed: bool)

  // ---- Kicks.

  /** A window handed to the runner when the model ring had published `count` samples. */
  datatype Kick = Kick(count: nat, window: seq<real>)

  ghost predicate IsWindow(k: Kick, log: seq<real>) {
    WINDOW_SAMPLES <= k.count <= |log| && k.window == log[k.count - WINDOW_SAMPLES..k.count]
  }

  ghost predicate Kicked(kicks: seq<Kick>, log: seq<real>, evaluated: seq<nat>) {
    && (forall k | k in kicks :: IsWindow(k, log))
    && (forall i, j | 0 <= i && j == i + 1 < |kicks| :: kicks[j].count >= kicks[i].count + HOP_SAMPLES)
    && |kicks| <= |evaluated|
    && (kicks != [] ==> kicks[|kicks| - 1].count <= evaluated[|evaluated| - 1])
  }

  lemma KickedByMore(kicks: seq<Kick>, log: seq<real>, log': seq<real>, evaluated: seq<nat>)
    requires Kicked(kicks, log, evaluated) && log <= log'
    ensures Kicked(kicks, log', evaluated)
  {
    forall k | k in kicks
      ensures IsWindow(k, log')
    {
      assert log'[k.count - WINDOW_SAMPLES..k.count] == log[k.count - WINDOW_SAMPLES..k.count];
    }
  }

  /** Kicks i and j are j - i hops apart. */
  lemma {:induction false} KicksArePaced(kicks: seq<Kick>, log: seq<real>, evaluated: seq<nat>, i: nat, j: nat)
    requires Kicked(kicks, log, evaluated) && i <= j < |kicks|
    ensures kicks[j].count >= kicks[i].count + (j - i) * HOP_SAMPLES
    decreases j
  {
    if i < j {
      KicksArePaced(kicks, log, evaluated, i, j - 1);
    }
  }

  function Noted<T>(s: seq<T>, happened: bool, x: T): seq<T> {
    if happened then s + [x] else s
  }

  /** An evaluation, whether its window was kicked or dropped. */
  lemma KickedByPoll(kicks: seq<Kick>, log: seq<real>, evaluated: seq<nat>, kicked: bool)
    requires Kicked(kicks, log, evaluated) && |log| >= WINDOW_SAMPLES
    requires evaluated != [] ==> |log| >= evaluated[|evaluated| - 1] + HOP_SAMPLES
    ensures Kicked(Noted(kicks, kicked, Kick(|log|, LastN(log, WINDOW_SAMPLES))), log, evaluated + [|log|])
  {
  }

  const PACE := C.Pace(WINDOW_SAMPLES, HOP_SAMPLES, true)

  /** A run has kicked at most one window per hop since the ring first held a full one. */
  lemma KicksAreBounded(kicks: seq<Kick>, log: seq<real>, polls: seq<nat>)
    requires Kicked(kicks, log, C.Evaluated(PACE, polls)) && forall w | w in polls :: w <= |log|
    ensures kicks == [] || (|log| >= WINDOW_SAMPLES && |kicks| <= 1 + (|log| - WINDOW_SAMPLES) / HOP_SAMPLES)
  {
    if kicks != [] {
      assert IsWindow(kicks[0], log);
      C.EvaluationsAreBounded(PACE, polls, |log|);
    }
  }

  // ---- A tick.

  /** Everything the loop has done so far. */
  datatype History = History(
    ticks: seq<S.Tick>,   // level and time of every tick
    raws: seq<G.Raw>,     // the speaker scores of every harvest
    evaluated: seq<nat>,  // the published counts at which a kick was due
    kicks: seq<Kick>,
    calls: seq<S.Call>,   // value and time of every send decision
    sent: seq<real>,      // the values those decisions sent on
    speaker: int,         // -1 none, 0 baji, 1 ru
    dropped: nat)

  function Value(speaker: int): real {
    if speaker == 1 then 1.0 else 0.0
  }

  function Heard(raws: seq<G.Raw>, scores: Scores): seq<G.Raw> {
    raws + [G.Raw(scores.baji, scores.ru)]
  }

  /** The speaker latched once the harvests so far are in. */
  function Latched(speaker: int, raws: seq<G.Raw>, healthy: bool): int {
    var d := G.After(raws, |raws|);
    if healthy && d.on then (if d.baji >= d.ru then 0 else 1) else speaker
  }

  /** Kick if a window is due and the runner free; count it as dropped if the runner is busy. */
  function Paced(h: History, given: Inputs, log: seq<real>): History {
    var due := C.Decide(PACE, h.evaluated, |log|).evaluate;
    var kick := due && given.ready && !given.busy;
    h.(evaluated := Noted(h.evaluated, due, |log|),
       kicks := Noted(h.kicks, kick, Kick(|log|, LastN(log, WINDOW_SAMPLES))),
       dropped := h.dropped + if due && !kick && given.stillBusy then 1 else 0)
  }

  /** Harvest what is finished and kick what is due. */
  function Inferred(h: History, given: Inputs, log: seq<real>): History {
    if given.harvest.Some? then Paced(h.(raws := Heard(h.raws, given.harvest.value)), given, log)
    else Paced(h, given, log)
  }

  /** Do so only on sound. */
  function Judged(h: History, given: Inputs, log: seq<real>, level: real): History {
    var heard := h.(ticks := h.ticks + [S.Tick(level, given.now)]);
    if S.Evaluates(S.After(heard.ticks, |heard.ticks|), given.now) then Inferred(heard, given, log) else heard
  }

  /** Latch the speaker and decide whether to send its value. */
  function Settle(h: History, given: Inputs, modelReady: bool): History {
    var speaker := Latched(h.speaker, h.raws, modelReady && !given.failed);
    var calls := h.calls + [S.Call(Value(speaker), given.now)];
    h.(speaker := speaker, calls := calls, sent := Noted(h.sent, S.SendsAt(calls, |calls|), Value(speaker)))
  }

  /** A tick that finds the model ring with this log. */
  function Next(h: History, given: Inputs, log: seq<real>, level: real, modelReady: bool): History {
    Settle(Judged(h, given, log, level), given, modelReady)
  }

  class ManagerLoop {
    const thread: AnalysisThread
    const modelReady: bool
    const windowBuf: array<real>
    const cadenceGate: C.CadenceGate
    const silenceGate: S.GatingLogic
    const scoreFilter: G.ScoreLowPass
    const detectHysteresis: G.Hysteresis

    var lastScore: real
    var latchedSpeaker: int
    var detectValue: real
    var droppedWindows: nat

    ghost var ticks: seq<S.Tick>
    ghost var raws: seq<G.Raw>
    ghost var kicks: seq<Kick>
    ghost var calls: seq<S.Call>
    ghost var sent: seq<real>

    ghost function Done(): History
      reads `ticks, `raws, `kicks, `calls, `sent, `latchedSpeaker, `droppedWindows, cadenceGate`evaluated
    {
      History(ticks, raws, cadenceGate.evaluated, kicks, calls, sent, latchedSpeaker, droppedWindows)
    }

    /** Filter and hysteresis are where the harvests so far put them. */
    ghost predicate Detecting()
      reads `raws, scoreFilter.smoothed, detectHysteresis
    {
      && scoreFilter.smoothed.Length == G.FILTER_SLOTS
      && G.After(raws, |raws|) ==
         G.Detector(scoreFilter.smoothed[0], scoreFilter.smoothed[1], detectHysteresis.state)
    }

    ghost predicate Pacing(log: seq<real>)
      reads `kicks, cadenceGate
    {
      && cadenceGate.Valid() && cadenceGate.pace == PACE
      && (forall w | w in cadenceGate.polls :: w <= |log|)
      && Kicked(kicks, log, cadenceGate.evaluated)
    }

    ghost predicate Listening()
      reads `ticks, silenceGate`noiseFloor, silenceGate`awake, silenceGate`lastLoudMs
    {
      silenceGate.Silence() == S.After(ticks, |ticks|)
    }

    ghost predicate Sending()
      reads `calls, silenceGate`lastSent, silenceGate`lastSentMs
    {
      silenceGate.LastSend() == S.SentAfter(calls, |calls|)
    }

    /** Nothing the loop owns is shared with the thread's buffers. */
    ghost predicate Wired()
      reads thread.resampler`Repr
    {
      && thread.modelBuffer.capacity >= WINDOW_SAMPLES && windowBuf.Length == WINDOW_SAMPLES
      && windowBuf != scoreFilter.smoothed
      && Private(windowBuf) && Private(scoreFilter.smoothed)
      && this !in thread.resampler.Repr && cadenceGate !in thread.resampler.Repr
      && silenceGate !in thread.resampler.Repr && detectHysteresis !in thread.resampler.Repr
    }

    /** Not one of the thread's buffers. */
    ghost predicate Private(a: array<real>)
      reads thread.resampler`Repr
    {
      && a != thread.hostBuffer.buffer && a != thread.modelBuffer.buffer
      && a != thread.drainScratch && a != thread.resampler.finalOut && a !in thread.resampler.Repr
    }

    /** The loop's own state when the model ring's log is this; the thread's Valid() is kept
        beside it. */
    ghost predicate ValidAt(log: seq<real>)
      reads this, cadenceGate, silenceGate, scoreFilter.smoothed, detectHysteresis, thread.resampler`Repr
    {
      && Wired() && Detecting() && Pacing(log) && Listening() && Sending()
      && latchedSpeaker in {-1, 0, 1} && detectValue == Value(latchedSpeaker)
    }

    constructor (thread: AnalysisThread, modelReady: bool)
      requires thread.modelBuffer.log == [] && thread.modelBuffer.capacity == RING_CAPACITY
      ensures ValidAt([]) && this.thread == thread && this.modelReady == modelReady
      ensures latchedSpeaker == -1 && raws == [] && kicks == [] && ticks == [] && droppedWindows == 0
    {
      this.thread, this.modelReady := thread, modelReady;
      windowBuf := new real[WINDOW_SAMPLES](_ => 0.0);
      cadenceGate := new C.CadenceGate(WINDOW_SAMPLES, HOP_SAMPLES, true);
      silenceGate := new S.GatingLogic();
      scoreFilter := new G.ScoreLowPass();
      detectHysteresis := new G.Hysteresis();
      lastScore, latchedSpeaker, detectValue, droppedWindows := 0.0, -1, 0.0, 0;
      ticks, raws, kicks, calls, sent := [], [], [], [], [];
    }

    /** The window buffer holds the newest window of everything published. */
    ghost predicate Snapped()
      reads windowBuf, thread.modelBuffer`log, thread.modelBuffer`writeCount
    {
      && thread.modelBuffer.writeCount == |thread.modelBuffer.log|
      && windowBuf[..] == LastN(thread.modelBuffer.log, WINDOW_SAMPLES)
    }

    /** Over any run: every window handed to the runner is the newest 24000 samples of the
        model ring at that moment, none of them padding; windows i and j are j - i hops apart;
        and there are no more of them than hops. */
    lemma KicksOfARun(log: seq<real>)
      requires ValidAt(log)
      ensures forall k | k in kicks :: 24000 <= k.count <= |log| && k.window == log[k.count - 24000..k.count]
      ensures forall i, j | 0 <= i <= j < |kicks| :: kicks[j].count >= kicks[i].count + (j - i) * 800
      ensures kicks == [] || |kicks| <= 1 + (|log| - 24000) / 800
    {
      KicksAreBounded(kicks, log, cadenceGate.polls);
      forall i, j | 0 <= i <= j < |kicks|
        ensures kicks[j].count >= kicks[i].count + (j - i) * 800
      {
        KicksArePaced(kicks, log, cadenceGate.evaluated, i, j);
      }
    }

    /** Low-pass the scores and feed the stronger speaker to the hysteresis. */
    method Harvest(scores: Scores)
      requires Detecting()
      modifies `lastScore, `raws, scoreFilter.smoothed, detectHysteresis
      ensures Detecting() && raws == Heard(old(raws), scores)
      ensures lastScore == G.After(raws, |raws|).Confidence()
    {
      var raw := new real[NUM_CLASSES] [scores.baji, scores.ru, scores.env, scores.instrumental, scores.singing];
      scoreFilter.Update(raw, NUM_CLASSES);
      lastScore := MaxReal(scoreFilter.smoothed[0], scoreFilter.smoothed[1]);
      var on := detectHysteresis.Update(lastScore);
      G.AfterMore(raws, G.Raw(scores.baji, scores.ru), |raws|);
      raws := Heard(raws, scores);
    }

    /** Kick at the hop cadence; if the runner is still busy the window is dropped. */
    method Pace(given: Inputs)
      requires Pacing(thread.modelBuffer.log) && Snapped()
      modifies `kicks, `droppedWindows, cadenceGate
      ensures Pacing(thread.modelBuffer.log)
      ensures Done() == Paced(old(Done()), given, thread.modelBuffer.log)
    {
      ghost var log, before, evaluated := thread.modelBuffer.log, kicks, cadenceGate.evaluated;
      var tick := cadenceGate.Poll(thread.modelBuffer.writeCount);
      var kicked := tick.evaluate && given.ready && !given.busy;
      if kicked {
        kicks := kicks + [Kick(|log|, windowBuf[..])];
      } else if tick.evaluate && given.stillBusy {
        droppedWindows := droppedWindows + 1;
      }
      assert kicks == Noted(before, kicked, Kick(|log|, LastN(log, WINDOW_SAMPLES)));
      assert cadenceGate.evaluated == Noted(evaluated, tick.evaluate, |log|);
      if tick.evaluate {
        KickedByPoll(before, log, evaluated, kicked);
      }
    }

    /** Hold the active speaker: only a healthy detection changes it. */
    method Latch(failed: bool)
      requires scoreFilter.smoothed.Length == G.FILTER_SLOTS && latchedSpeaker in {-1, 0, 1}
      modifies `latchedSpeaker, `detectValue
      ensures latchedSpeaker ==
              if modelReady && !failed && detectHysteresis.state
              then (if scoreFilter.smoothed[0] >= scoreFilter.smoothed[1] then 0 else 1)
              else old(latchedSpeaker)
      ensures detectValue == if latchedSpeaker == 1 then 1.0 else 0.0
    {
      var detect := if modelReady && !failed && detectHysteresis.state then 1.0 else 0.0;
      if detect > 0.5 {
        latchedSpeaker := if scoreFilter.smoothed[0] >= scoreFilter.smoothed[1] then 0 else 1;
      }
      detectValue := if latchedSpeaker == 1 then 1.0 else 0.0;
    }

    /** The silence gate's verdict on the snapshot. */
    method Listen(level: real, now: int) returns (evaluate: bool)
      requires Listening()
      modifies `ticks, silenceGate`noiseFloor, silenceGate`awake, silenceGate`lastLoudMs
      ensures ticks == old(ticks) + [S.Tick(level, now)]
      ensures Listening()
      ensures evaluate == S.Evaluates(S.After(ticks, |ticks|), now)
    {
      S.AfterMore(ticks, S.Tick(level, now), |ticks|);
      ticks := ticks + [S.Tick(level, now)];
      evaluate := silenceGate.ShouldEvaluate(level, now);
    }

    method Send(now: int)
      requires Sending()
      modifies `calls, `sent, silenceGate`lastSent, silenceGate`lastSentMs
      ensures Sending() && calls == old(calls) + [S.Call(detectValue, now)]
      ensures sent == Noted(old(sent), S.SendsAt(calls, |calls|), detectValue)
    {
      S.SentAfterMore(calls, S.Call(detectValue, now), |calls|);
      calls := calls + [S.Call(detectValue, now)];
      var due := silenceGate.ShouldSend(detectValue, now);
      if due {
        sent := sent + [detectValue];
      }
    }

    /** The newest window, behind zeros until there is a full one. */
    method Snapshot()
      requires thread.modelBuffer.Valid() && Wired()
      modifies windowBuf
      ensures Snapped()
    {
      var haveWindow := thread.modelBuffer.ReadLastN(windowBuf, WINDOW_SAMPLES, MAX_RETRIES);
      assert windowBuf[..WINDOW_SAMPLES] == windowBuf[..];
    }

    /** Between snapshot and latch: on sound, harvest and kick. */
    method Evaluate(given: Inputs, level: real)
      requires Listening() && Detecting() && Pacing(thread.modelBuffer.log)
      requires Snapped() && windowBuf != scoreFilter.smoothed
      modifies `ticks, `raws, `kicks, `lastScore, `droppedWindows
      modifies silenceGate`noiseFloor, silenceGate`awake, silenceGate`lastLoudMs
      modifies cadenceGate, scoreFilter.smoothed, detectHysteresis
      ensures Listening() && Detecting() && Pacing(thread.modelBuffer.log)
      ensures Done() == Judged(old(Done()), given, thread.modelBuffer.log, level)
    {
      var evaluate := Listen(level, given.now);
      if evaluate {
        Infer(given);
      }
    }

    /** Harvest, then kick. */
    method Infer(given: Inputs)
      requires Detecting() && Pacing(thread.modelBuffer.log)
      requires Snapped() && windowBuf != scoreFilter.smoothed
      modifies `raws, `kicks, `lastScore, `droppedWindows, cadenceGate, scoreFilter.smoothed, detectHysteresis
      ensures Detecting() && Pacing(thread.modelBuffer.log)
      ensures Done() == Inferred(old(Done()), given, thread.modelBuffer.log)
    {
      if given.harvest.Some? {
        Harvest(given.harvest.value);
      }
      Pace(given);
    }

    /** Latch and send. */
    method Conclude(given: Inputs)
      requires Detecting() && Sending() && latchedSpeaker in {-1, 0, 1}
      modifies `latchedSpeaker, `detectValue, `calls, `sent, silenceGate`lastSent, silenceGate`lastSentMs
      ensures Sending() && latchedSpeaker in {-1, 0, 1} && detectValue == Value(latchedSpeaker)
      ensures Done() == Settle(old(Done()), given, modelReady)
    {
      Latch(given.failed);
      Send(given.now);
    }

    /** A tick after the drain, which found the ring at `model`. */
    method Judge(given: Inputs, rms: seq<real> -> real, ghost model: seq<real>)
      requires ValidAt(model) && model <= thread.modelBuffer.log && thread.modelBuffer.Valid()
      modifies this, windowBuf, cadenceGate, silenceGate, scoreFilter.smoothed, detectHysteresis
      ensures ValidAt(thread.modelBuffer.log)
      ensures var log := thread.modelBuffer.log;
              Done() == Next(old(Done()), given, log, rms(LastN(log, WINDOW_SAMPLES)), modelReady)
    {
      ghost var log := thread.modelBuffer.log;
      KickedByMore(kicks, model, log, cadenceGate.evaluated);
      Snapshot();
      Evaluate(given, rms(windowBuf[..]));
      Conclude(given);
    }

    /** The same, beside a thread that stays as it is. */
    method Act(given: Inputs, rms: seq<real> -> real, ghost model: seq<real>)
      requires thread.Valid() && ValidAt(model) && model <= thread.modelBuffer.log
      modifies this, windowBuf, cadenceGate, silenceGate, scoreFilter.smoothed, detectHysteresis
      ensures thread.Valid() && ValidAt(thread.modelBuffer.log)
      ensures var log := thread.modelBuffer.log;
              Done() == Next(old(Done()), given, log, rms(LastN(log, WINDOW_SAMPLES)), modelReady)
    {
      Judge(given, rms, model);
      thread.Undisturbed();
    }

    /** resampleHostInput() beside a loop that stays as it is. */
    method Drain(arrivals: seq<seq<real>>)
      requires thread.Valid() && ValidAt(thread.modelBuffer.log)
      modifies thread`hostCursor, thread`lost, thread.drainScratch, thread.hostBuffer, thread.hostBuffer.buffer
      modifies thread.resampler`log, thread.resampler.Repr, thread.resampler.finalOut
      modifies thread.modelBuffer, thread.modelBuffer.buffer
      ensures thread.Valid() && ValidAt(old(thread.modelBuffer.log))
      ensures old(thread.modelBuffer.log) <= thread.modelBuffer.log && thread.hostCursor == |thread.hostBuffer.log|
    {
      ghost var model := thread.modelBuffer.log;
      var seen := thread.ResampleHostInput(arrivals);
      Undisturbed(model);
    }

    twostate lemma Undisturbed(model: seq<real>)
      requires old(ValidAt(model)) && unchanged(thread.resampler`Repr)
      requires unchanged(this, cadenceGate, silenceGate, scoreFilter.smoothed, detectHysteresis)
      ensures ValidAt(model)
    {
    }

    /** One tick. `rms` is the level of a window. */
    method Tick(given: Inputs, rms: seq<real> -> real)
      requires thread.Valid() && ValidAt(thread.modelBuffer.log)
      modifies thread`hostCursor, thread`lost, thread.drainScratch, thread.hostBuffer, thread.hostBuffer.buffer
      modifies thread.resampler`log, thread.resampler.Repr, thread.resampler.finalOut
      modifies thread.modelBuffer, thread.modelBuffer.buffer
      modifies this, windowBuf, cadenceGate, silenceGate, scoreFilter.smoothed, detectHysteresis
      ensures thread.Valid() && ValidAt(thread.modelBuffer.log)
      ensures old(thread.modelBuffer.log) <= thread.modelBuffer.log && thread.hostCursor == |thread.hostBuffer.log|
      ensures var log := thread.modelBuffer.log;
              Done() == Next(old(Done()), given, log, rms(LastN(log, WINDOW_SAMPLES)), modelReady)
      ensures detectValue == if latchedSpeaker == 1 then 1.0 else 0.0
    {
      ghost var model := thread.modelBuffer.log;
      Drain(given.arrivals);
      Act(given, rms, model);
    }
  }
}
