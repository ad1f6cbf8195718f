/** Runs of the manager loop (cpp_impl/src/linkjiru/AnalysisThread.h, run()): what the values it
    decides to send say about the speaker, and what becomes of every window that is due. */
module AnalysisRuns {
  import opened Basics
  import opened SharedRing
  import opened AnalysisLoop
  import G = Gating
  import S = SilenceGate
  import C = Cadence

  /** What one tick finds: its inputs, the model ring's log and the level of the window. */
  datatype Scene = Scene(given: Inputs, log: seq<real>, level: real)

  const START := History([], [], [], [], [], [], -1, 0)

  /** Everything the loop has done after the first k ticks. */
  function After(scenes: seq<Scene>, modelReady: bool, k: nat): History
    requires k <= |scenes|
  {
    if k == 0 then START
    else
      var scene := scenes[k - 1];
      Next(After(scenes, modelReady, k - 1), scene.given, scene.log, scene.level, modelReady)
  }

  lemma AfterTick(scenes: seq<Scene>, modelReady: bool, k: nat, scene: Scene)
    requires 1 <= k <= |scenes| && scenes[k - 1] == scene
    ensures After(scenes, modelReady, k) ==
            Next(After(scenes, modelReady, k - 1), scene.given, scene.log, scene.level, modelReady)
  {
  }

  // ---- The speaker.

  /** The filtered channels and the hysteresis after tick k. */
  function DetectorAt(scenes: seq<Scene>, modelReady: bool, k: nat): G.Detector
    requires k <= |scenes|
  {
    var raws := After(scenes, modelReady, k).raws;
    G.After(raws, |raws|)
  }

  /** Tick k finds the runner healthy and the detector on. */
  predicate Detects(scenes: seq<Scene>, modelReady: bool, k: nat)
    requires 1 <= k <= |scenes|
  {
    modelReady && !scenes[k - 1].given.failed && DetectorAt(scenes, modelReady, k).on
  }

  /** The value decided on in tick k. */
  function ValueAt(scenes: seq<Scene>, modelReady: bool, k: nat): real
    requires 1 <= k <= |scenes|
  {
    var calls := After(scenes, modelReady, k).calls;
    if |calls| == k then calls[k - 1].value else -1.0
  }

  lemma JudgedKeepsCalls(h: History, given: Inputs, log: seq<real>, level: real)
    ensures var j := Judged(h, given, log, level);
            j.calls == h.calls && j.sent == h.sent && j.speaker == h.speaker
  {
  }

  lemma NextCall(h: History, given: Inputs, log: seq<real>, level: real, modelReady: bool)
    ensures var n, raws := Next(h, given, log, level, modelReady), Judged(h, given, log, level).raws;
            && n.raws == raws && n.speaker == Latched(h.speaker, raws, modelReady && !given.failed)
            && n.calls == h.calls + [S.Call(if n.speaker == 1 then 1.0 else 0.0, given.now)]
            && n.sent == if S.SendsAt(n.calls, |n.calls|) then h.sent + [n.calls[|n.calls| - 1].value] else h.sent
  {
    JudgedKeepsCalls(h, given, log, level);
  }

  /** One decision a tick, at the tick's time; its value goes with the latched speaker. */
  lemma {:induction false} CallsFollow(scenes: seq<Scene>, modelReady: bool, k: nat)
    requires k <= |scenes|
    ensures var h := After(scenes, modelReady, k);
            && |h.calls| == k && h.speaker in {-1, 0, 1} && (k == 0 ==> h.speaker == -1)
            && (k > 0 ==> h.calls[k - 1] == S.Call(if h.speaker == 1 then 1.0 else 0.0, scenes[k - 1].given.now))
  {
    if k > 0 {
      CallsFollow(scenes, modelReady, k - 1);
      var scene := scenes[k - 1];
      NextCall(After(scenes, modelReady, k - 1), scene.given, scene.log, scene.level, modelReady);
    }
  }

  /** The value of a tick is 1 for ru and 0 for baji: where the tick detects, 1.0 exactly if the
      filtered ru exceeds baji; where it does not, the value of the tick before; and 0.0 until
      the first detection. */
  lemma ValueIsSpeaker(scenes: seq<Scene>, modelReady: bool, k: nat)
    requires 1 <= k <= |scenes|
    ensures |After(scenes, modelReady, k).calls| == k
    ensures var d, value := DetectorAt(scenes, modelReady, k), ValueAt(scenes, modelReady, k);
            if Detects(scenes, modelReady, k) then value == (if d.ru > d.baji then 1.0 else 0.0)
            else if k == 1 then value == 0.0
            else value == ValueAt(scenes, modelReady, k - 1)
    ensures var d, speaker := DetectorAt(scenes, modelReady, k), After(scenes, modelReady, k).speaker;
            if Detects(scenes, modelReady, k) then speaker == (if d.ru > d.baji then 1 else 0)
            else speaker == After(scenes, modelReady, k - 1).speaker
  {
    CallsFollow(scenes, modelReady, k - 1);
    CallsFollow(scenes, modelReady, k);
    var scene := scenes[k - 1];
    NextCall(After(scenes, modelReady, k - 1), scene.given, scene.log, scene.level, modelReady);
  }

  /** Before the first detection nothing but 0.0 is decided on, and no speaker is latched. */
  lemma {:induction false} IdleUntilDetection(scenes: seq<Scene>, modelReady: bool, k: nat)
    requires 1 <= k <= |scenes| && forall i | 1 <= i <= k :: !Detects(scenes, modelReady, i)
    ensures ValueAt(scenes, modelReady, k) == 0.0 && After(scenes, modelReady, k).speaker == -1
  {
    ValueIsSpeaker(scenes, modelReady, k);
    if k > 1 {
      IdleUntilDetection(scenes, modelReady, k - 1);
    }
  }

  /** The last value sent is where the send gate stands. */
  ghost predicate LastSent(calls: seq<S.Call>, sent: seq<real>) {
    S.SentAfter(calls, |calls|) == S.NEVER_SENT
    || (sent != [] && sent[|sent| - 1] == S.SentAfter(calls, |calls|).value)
  }

  lemma LastSentGrows(calls: seq<S.Call>, sent: seq<real>, c: S.Call)
    requires LastSent(calls, sent)
    ensures LastSent(calls + [c], if S.SendsAt(calls + [c], |calls| + 1) then sent + [c.value] else sent)
  {
    S.SentAfterMore(calls, c, |calls|);
  }

  lemma {:induction false} SentFollows(scenes: seq<Scene>, modelReady: bool, k: nat)
    requires k <= |scenes|
    ensures LastSent(After(scenes, modelReady, k).calls, After(scenes, modelReady, k).sent)
  {
    if k > 0 {
      SentFollows(scenes, modelReady, k - 1);
      var scene, was := scenes[k - 1], After(scenes, modelReady, k - 1);
      NextCall(was, scene.given, scene.log, scene.level, modelReady);
      var h := After(scenes, modelReady, k);
      LastSentGrows(was.calls, was.sent, h.calls[|h.calls| - 1]);
    }
  }

  lemma {:induction false} CallTimes(scenes: seq<Scene>, modelReady: bool, k: nat, i: nat)
    requires i < k <= |scenes|
    ensures |After(scenes, modelReady, k).calls| == k
    ensures After(scenes, modelReady, k).calls[i].now == scenes[i].given.now
  {
    CallsFollow(scenes, modelReady, k);
    CallsFollow(scenes, modelReady, k - 1);
    var scene := scenes[k - 1];
    NextCall(After(scenes, modelReady, k - 1), scene.given, scene.log, scene.level, modelReady);
    if i < k - 1 {
      CallTimes(scenes, modelReady, k - 1, i);
    }
  }

  /** With times from zero, after every tick the last value sent to the client is the tick's. */
  lemma SentIsCurrent(scenes: seq<Scene>, modelReady: bool, k: nat)
    requires 1 <= k <= |scenes| && forall i | 0 <= i < k :: scenes[i].given.now >= 0
    ensures var sent := After(scenes, modelReady, k).sent;
            sent != [] && sent[|sent| - 1] == ValueAt(scenes, modelReady, k)
  {
    var calls := After(scenes, modelReady, k).calls;
    CallsFollow(scenes, modelReady, k);
    forall c | c in calls
      ensures c.now >= 0
    {
      var i :| 0 <= i < |calls| && calls[i] == c;
      CallTimes(scenes, modelReady, k, i);
    }
    SentFollows(scenes, modelReady, k);
    var j := S.LastSendIsCurrent(calls, k);
    assert calls[j - 1] in calls;
  }

  // ---- Windows that are due.

  /** A tick in silence, past the hold time, touches nothing but the sending side. */
  lemma SilentTickHolds(h: History, given: Inputs, log: seq<real>, level: real, modelReady: bool)
    requires var ticks := h.ticks + [S.Tick(level, given.now)];
             !S.Evaluates(S.After(ticks, |ticks|), given.now)
    ensures var n := Next(h, given, log, level, modelReady);
            n.raws == h.raws && n.evaluated == h.evaluated && n.kicks == h.kicks && n.dropped == h.dropped
  {
  }

  /** Any other tick filters what was harvested; and if a window is due, hands the newest one to
      a ready and idle runner, or counts it as dropped while the runner is busy. */
  lemma SoundTickEvaluates(h: History, given: Inputs, log: seq<real>, level: real, modelReady: bool)
    requires var ticks := h.ticks + [S.Tick(level, given.now)];
             S.Evaluates(S.After(ticks, |ticks|), given.now)
    ensures var n, due := Next(h, given, log, level, modelReady), C.Decide(PACE, h.evaluated, |log|).evaluate;
            var kick := due && given.ready && !given.busy;
            && n.raws == (match given.harvest
                          case None => h.raws
                          case Some(scores) => h.raws + [G.Raw(scores.baji, scores.ru)])
            && n.evaluated == (if due then h.evaluated + [|log|] else h.evaluated)
            && n.kicks == (if kick then h.kicks + [Kick(|log|, LastN(log, WINDOW_SAMPLES))] else h.kicks)
            && n.dropped == (if due && !kick && given.stillBusy then h.dropped + 1 else h.dropped)
  {
  }

  /** With a healthy runner that does not finish between the two questions about it, every due
      window is either kicked or counted as dropped. */
  lemma {:induction false} DueWindowsAreAccounted(scenes: seq<Scene>, modelReady: bool, k: nat)
    requires k <= |scenes|
    requires forall i | 0 <= i < k :: scenes[i].given.ready && (scenes[i].given.busy ==> scenes[i].given.stillBusy)
    ensures var h := After(scenes, modelReady, k); |h.evaluated| == |h.kicks| + h.dropped
  {
    if k > 0 {
      DueWindowsAreAccounted(scenes, modelReady, k - 1);
      var scene := scenes[k - 1];
      DueWindowIsAccounted(After(scenes, modelReady, k - 1), scene.given, scene.log, scene.level, modelReady);
    }
  }

  lemma DueWindowIsAccounted(h: History, given: Inputs, log: seq<real>, level: real, modelReady: bool)
    requires given.ready && (given.busy ==> given.stillBusy) && |h.evaluated| == |h.kicks| + h.dropped
    ensures var n := Next(h, given, log, level, modelReady); |n.evaluated| == |n.kicks| + n.dropped
  {
    var ticks := h.ticks + [S.Tick(level, given.now)];
    if S.Evaluates(S.After(ticks, |ticks|), given.now) {
      SoundTickEvaluates(h, given, log, level, modelReady);
    } else {
      SilentTickHolds(h, given, log, level, modelReady);
    }
  }
}
